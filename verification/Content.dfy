/**
 Element content, from the start tag of the root element to its end tag.

 `Parse` is what the parser reports for the bytes it is given in one piece.  Input cut into any number
 of buffers is reported the same way once adjacent character data is merged, but for data that a failing
 token begins with.
 */
module Content {
  import opened Encodings
  import opened Automaton
  import opened Stability
  import opened Errors
  import opened Utf8
  import opened AttributeValues
  import opened TagAttributes
  import opened NormalizedValues
  import opened LineEnds

  /** What the handlers are called with. */
  datatype Event =
    | StartElement(name: Bytes, atts: seq<(Bytes, Bytes)>)
    | EndElement(name: Bytes)
    | CharacterData(data: Bytes)
    | StartCdataSection
    | EndCdataSection
    | ProcessingInstruction(target: Bytes, data: Bytes)
    | Comment(text: Bytes)

  /** A call of a handler, and the offset in the document that the parser gives for it. */
  datatype Call = Call(event: Event, at: nat)

  /** The names of the open elements, innermost last, and whether a CDATA section is open. */
  datatype Position = Position(inCdata: bool, stack: seq<Bytes>)

  // ----- attributes of a tag -----

  function AttributeName(enc: Encoding, tag: Bytes, a: Attribute): Bytes {
    if a.name <= |tag| then tag[a.name..NameEnd(enc, tag, a.name)] else []
  }

  function AttributeText(tag: Bytes, a: Attribute): Bytes {
    if a.valuePtr <= a.valueEnd <= |tag| then tag[a.valuePtr..a.valueEnd] else []
  }

  /** The value of an attribute that is not declared: CDATA, normalized. */
  function AttributeValue(env: Env, enc: Encoding, tag: Bytes, a: Attribute): Result<Bytes> {
    Value(env, enc, {}, true, AttributeText(tag, a))
  }

  predicate HasName(done: seq<(Bytes, Bytes)>, name: Bytes) { exists i :: 0 <= i < |done| && done[i].0 == name }

  /** Names and values in order; a name that is already in `done` is an error, found before that of its value. */
  function StoreAtts(env: Env, enc: Encoding, tag: Bytes, spans: seq<Attribute>,
                     done: seq<(Bytes, Bytes)>): Result<seq<(Bytes, Bytes)>>
    decreases |spans|
  {
    if spans == [] then Ok(done)
    else
      var name := AttributeName(enc, tag, spans[0]);
      if HasName(done, name) then Err(DuplicateAttribute)
      else
        match AttributeValue(env, enc, tag, spans[0])
        case Err(e) => Err(e)
        case Ok(v) => StoreAtts(env, enc, tag, spans[1..], done + [(name, v)])
  }

  /**
   The offset in the tag that is recorded for an error in its attributes: the second name, or the place in
   the value; the start of the tag if none is.
   */
  function AttsErrorPlace(env: Env, enc: Encoding, tag: Bytes, spans: seq<Attribute>, done: seq<(Bytes, Bytes)>): nat
    decreases |spans|
  {
    if spans == [] then 0
    else
      var name := AttributeName(enc, tag, spans[0]);
      if HasName(done, name) then spans[0].name
      else
        match AttributeValue(env, enc, tag, spans[0])
        case Err(_) => ValueErrorPlace(env, enc, tag, spans[0])
        case Ok(v) => AttsErrorPlace(env, enc, tag, spans[1..], done + [(name, v)])
  }

  function ValueErrorPlace(env: Env, enc: Encoding, tag: Bytes, a: Attribute): nat {
    match ErrorPlace(env, enc, {}, AttributeText(tag, a))
    case Some(k) => a.valuePtr + k
    case None => 0
  }

  // ----- comments and processing instructions -----

  /** The first byte from `p` on that is no white space, or `end`. */
  function SkipSpace(enc: Encoding, w: Bytes, p: nat, end: nat): (r: nat)
    requires p <= end <= |w|
    ensures p <= r <= end
    decreases end - p
  {
    if p < end && IsSpaceType(enc.byteType(w[p])) then SkipSpace(enc, w, p + 1, end) else p
  }

  /** The target, and what stands between the white space behind it and the `?>`. */
  function PiEvent(enc: Encoding, pi: Bytes): Event {
    if |pi| < 4 then ProcessingInstruction([], [])
    else
      var end, name := |pi| - 2, NameEnd(enc, pi, 2);
      if end < name then ProcessingInstruction(pi[2..name], [])
      else ProcessingInstruction(pi[2..name], NormalizedLines(pi[SkipSpace(enc, pi, name, end)..end]))
  }

  /** What stands between `<!--` and `-->`. */
  function CommentEvent(comment: Bytes): Event {
    Comment(if |comment| < 7 then [] else NormalizedLines(comment[4..|comment| - 3]))
  }

  // ----- one token -----

  /**
   What a token leads to: on to the next one, a stop to wait for more input, the end of the root, an error.
   Offsets are from the start of the token.
   */
  datatype Action =
    | Go(n: nat, calls: seq<Call>, next: Position)
    | Wait
    | Finish(n: nat, calls: seq<Call>)
    | Fail(error: Error, pos: nat, calls: seq<Call>)

  /** A call at the start of the token. */
  function Now(e: Event): seq<Call> { [Call(e, 0)] }

  /** The calls of an empty-element tag: the end is reported at the end of the tag. */
  function StartAndEnd(tag: Bytes, name: Bytes, atts: seq<(Bytes, Bytes)>): seq<Call> {
    [Call(StartElement(name, atts), 0), Call(EndElement(name), |tag|)]
  }

  const NEWLINE: Bytes := [ASCII_LF]

  /** How open input is treated: wait for more of it, or report what it is at the end of the document. */
  function AtEnd(final: bool, error: Error, pos: nat, calls: seq<Call>): Action {
    if final then Fail(error, pos, calls) else Wait
  }

  function StartTagStep(env: Env, enc: Encoding, tag: Bytes, empty: bool, stack: seq<Bytes>): Action
    requires tag != []
  {
    var name := tag[1..NameEnd(enc, tag, 1)];
    match StoreAtts(env, enc, tag, TagSpans(enc, tag), [])
    case Err(e) => Fail(e, AttsErrorPlace(env, enc, tag, TagSpans(enc, tag), []), [])
    case Ok(atts) =>
      if !empty then Go(|tag|, Now(StartElement(name, atts)), Position(false, stack + [name]))
      else if stack == [] then Finish(|tag|, StartAndEnd(tag, name, atts))
      else Go(|tag|, StartAndEnd(tag, name, atts), Position(false, stack))
  }

  function EndTagStep(enc: Encoding, tag: Bytes, stack: seq<Bytes>): Action
    requires |tag| >= 2
  {
    if stack == [] then Fail(AsyncEntity, 0, [])
    else
      var name := stack[|stack| - 1];
      if tag[2..NameEnd(enc, tag, 2)] != name then Fail(TagMismatch, 2, [])
      else if |stack| == 1 then Finish(|tag|, Now(EndElement(name)))
      else Go(|tag|, Now(EndElement(name)), Position(false, stack[..|stack| - 1]))
  }

  function ContentStep(env: Env, enc: Encoding, stack: seq<Bytes>, w: Bytes, final: bool): Action {
    var t := ContentTok(enc, w);
    var here := Position(false, stack);
    match t.tok
    case TokTrailingCr => AtEnd(final, NoElements, 0, Now(CharacterData(NEWLINE)))
    case TokTrailingRsqb => AtEnd(final, NoElements, |w|, Now(CharacterData(w)))
    case TokNone => AtEnd(final, NoElements, 0, [])
    case TokPartial => AtEnd(final, UnclosedToken, 0, [])
    case TokPartialChar => AtEnd(final, Error.PartialChar, 0, [])
    case TokInvalid => Fail(InvalidToken, t.next, [])
    case TokEntityRef =>
      var ch := PredefinedEntity(w[1..t.next - 1]);
      if ch == 0 then Fail(UndefinedEntity, 0, []) else Go(t.next, Now(CharacterData([ch])), here)
    case TokCharRef =>
      var c := CharRefNumber(w[..t.next]);
      if c < 0 then Fail(BadCharRef, 0, []) else Go(t.next, Now(CharacterData(Encode(c))), here)
    case TokStartTagNoAtts => StartTagStep(env, enc, w[..t.next], false, stack)
    case TokStartTagWithAtts => StartTagStep(env, enc, w[..t.next], false, stack)
    case TokEmptyElementNoAtts => StartTagStep(env, enc, w[..t.next], true, stack)
    case TokEmptyElementWithAtts => StartTagStep(env, enc, w[..t.next], true, stack)
    case TokEndTag => EndTagStep(enc, w[..t.next], stack)
    case TokXmlDecl => Fail(MisplacedXmlPi, 0, [])
    case TokDataNewline => Go(t.next, Now(CharacterData(NEWLINE)), here)
    case TokDataChars => Go(t.next, Now(CharacterData(w[..t.next])), here)
    case TokCdataSectOpen => Go(t.next, Now(StartCdataSection), Position(true, stack))
    case TokPi => Go(t.next, Now(PiEvent(enc, w[..t.next])), here)
    case TokComment => Go(t.next, Now(CommentEvent(w[..t.next])), here)
    case _ => Go(t.next, [], here)
  }

  function CdataSectionStep(enc: Encoding, stack: seq<Bytes>, w: Bytes, final: bool): Action {
    var t := CdataSectionTok(enc, w);
    var here := Position(true, stack);
    match t.tok
    case TokCdataSectClose => Go(t.next, Now(EndCdataSection), Position(false, stack))
    case TokDataNewline => Go(t.next, Now(CharacterData(NEWLINE)), here)
    case TokDataChars => Go(t.next, Now(CharacterData(w[..t.next])), here)
    case TokInvalid => Fail(InvalidToken, t.next, [])
    case TokPartialChar => AtEnd(final, Error.PartialChar, 0, [])
    case TokPartial => AtEnd(final, UnclosedCdataSection, 0, [])
    case TokNone => AtEnd(final, UnclosedCdataSection, 0, [])
    case _ => Fail(UnexpectedState, t.next, [])
  }

  function NextStep(env: Env, enc: Encoding, at: Position, w: Bytes, final: bool): Action {
    if at.inCdata then CdataSectionStep(enc, at.stack, w, final) else ContentStep(env, enc, at.stack, w, final)
  }

  lemma StepAdvances(env: Env, enc: Encoding, at: Position, w: Bytes, final: bool)
    ensures match NextStep(env, enc, at, w, final)
      case Go(n, _, _) => 0 < n <= |w|
      case Finish(n, _) => 0 < n <= |w|
      case Wait => !final
      case Fail(_, _, _) => true
  {
    hide StoreAtts, AttsErrorPlace, NameEnd, TagSpans;
  }

  // ----- runs -----

  /** Where a run ends: it waits with the bytes it has not used, the root is closed, or there is an error. */
  datatype End = NeedMore(at: Position, rest: Bytes) | Closed(pos: nat) | Failed(error: Error, pos: nat)

  /** What has been reported; offsets are from the first byte of the run. */
  datatype Report = Report(calls: seq<Call>, end: End)

  /** The same calls `n` bytes further on. */
  function Later(n: nat, calls: seq<Call>): (r: seq<Call>)
    ensures |r| == |calls|
  {
    seq(|calls|, i requires 0 <= i < |calls| => Call(calls[i].event, n + calls[i].at))
  }

  /** The report of a run that first used `n` bytes and made some calls. */
  function After(n: nat, calls: seq<Call>, r: Report): Report {
    Report(calls + Later(n, r.calls),
      match r.end
      case NeedMore(at, rest) => NeedMore(at, rest)
      case Closed(pos) => Closed(n + pos)
      case Failed(error, pos) => Failed(error, n + pos))
  }

  /** The run over `w`; `final` says that no more input will follow. */
  function Parse(env: Env, enc: Encoding, at: Position, w: Bytes, final: bool): (r: Report)
    ensures r.end.NeedMore? ==> !final && |r.end.rest| <= |w| && r.end.rest == w[|w| - |r.end.rest|..]
    decreases |w|
  {
    StepAdvances(env, enc, at, w, final);
    match NextStep(env, enc, at, w, final)
    case Go(n, calls, next) =>
      var r := Parse(env, enc, next, w[n..], final);
      assert r.end.NeedMore? ==> r.end.rest == w[|w| - |r.end.rest|..];
      After(n, calls, r)
    case Wait => Report([], NeedMore(at, w))
    case Finish(n, calls) => Report(calls, Closed(n))
    case Fail(error, pos, calls) => Report(calls, Failed(error, pos))
  }

  /**
   The run over input that comes in several buffers: what a buffer leaves over is scanned again
   together with the next one.  Only the last one is final.
   */
  function ParseChunks(env: Env, enc: Encoding, at: Position, left: Bytes, chunks: seq<Bytes>): Report
    requires chunks != []
    decreases |chunks|
  {
    var buffer := left + chunks[0];
    if |chunks| == 1 then Parse(env, enc, at, buffer, true)
    else
      var r := Parse(env, enc, at, buffer, false);
      match r.end
      case NeedMore(at', rest) => After(|buffer| - |rest|, r.calls, ParseChunks(env, enc, at', rest, chunks[1..]))
      case _ => r
  }

  function Concat(chunks: seq<Bytes>): Bytes {
    if chunks == [] then [] else chunks[0] + Concat(chunks[1..])
  }

  // ----- reports that mean the same -----

  /**
   A single byte of character data, or any other event, with its offset; bytes of one call follow each other.
   These are the calls with adjacent data merged.
   */
  datatype Atom = Datum(b: Byte, at: nat) | Mark(e: Event, at: nat)

  function DataAtoms(data: Bytes, at: nat): seq<Atom> {
    seq(|data|, i requires 0 <= i < |data| => Datum(data[i], at + i))
  }

  function AtomsOf(c: Call): seq<Atom> {
    if c.event.CharacterData? then DataAtoms(c.event.data, c.at) else [Mark(c.event, c.at)]
  }

  function Atoms(calls: seq<Call>): seq<Atom> {
    if calls == [] then [] else AtomsOf(calls[0]) + Atoms(calls[1..])
  }

  function LaterAtom(n: nat, a: Atom): Atom { a.(at := n + a.at) }

  function LaterAtoms(n: nat, atoms: seq<Atom>): (r: seq<Atom>)
    ensures |r| == |atoms|
  {
    seq(|atoms|, i requires 0 <= i < |atoms| => LaterAtom(n, atoms[i]))
  }

  // ----- what the report of one buffer leaves out -----

  /** The next token of content begins with character data and fails at the `>` of a `]]>` behind it. */
  predicate DataFails(enc: Encoding, w: Bytes) {
    w != [] && DataStep(enc, w, 0).More? && DataRun(enc, w, 0).tok.TokInvalid?
  }

  /**
   The character data before a `]]>` at which the run fails: scanned in one piece it is part of the invalid token
   and not reported.
   */
  function HeldBack(env: Env, enc: Encoding, at: Position, w: Bytes, final: bool): seq<Atom>
    decreases |w|
  {
    StepAdvances(env, enc, at, w, final);
    match NextStep(env, enc, at, w, final)
    case Go(n, _, next) => LaterAtoms(n, HeldBack(env, enc, next, w[n..], final))
    case Fail(_, _, _) =>
      if !at.inCdata && DataFails(enc, w) then DataAtoms(w[..DataRun(enc, w, 0).next - 2], 0) else []
    case _ => []
  }

  /**
   The report is one of the run over `w`: the same outcome at the same place, and the same events at the same
   places but for how character data is cut up.  Data before a `]]>` that is an error may be reported up to any
   byte of it.
   */
  predicate IsReportOf(env: Env, enc: Encoding, at: Position, w: Bytes, final: bool, r: Report) {
    var whole := Parse(env, enc, at, w, final);
    r.end == whole.end && Atoms(whole.calls) <= Atoms(r.calls) <= AllAtoms(env, enc, at, w, final)
  }

  /** What is reported in one piece and what that holds back. */
  function AllAtoms(env: Env, enc: Encoding, at: Position, w: Bytes, final: bool): seq<Atom> {
    Atoms(Parse(env, enc, at, w, final).calls) + HeldBack(env, enc, at, w, final)
  }

  // ----- atoms of calls -----

  lemma {:induction false} AtomsAppend(a: seq<Call>, b: seq<Call>)
    ensures Atoms(a + b) == Atoms(a) + Atoms(b)
  {
    hide AtomsOf;
    if a == [] {
      assert a + b == b;
    } else {
      AtomsAppend(a[1..], b);
      assert (a + b)[1..] == a[1..] + b;
      assert AtomsOf(a[0]) + (Atoms(a[1..]) + Atoms(b)) == AtomsOf(a[0]) + Atoms(a[1..]) + Atoms(b);
    }
  }

  lemma LaterAtomsAppend(n: nat, a: seq<Atom>, b: seq<Atom>)
    ensures LaterAtoms(n, a + b) == LaterAtoms(n, a) + LaterAtoms(n, b)
  {
  }

  lemma {:induction false} AtomsLater(n: nat, calls: seq<Call>)
    ensures Atoms(Later(n, calls)) == LaterAtoms(n, Atoms(calls))
  {
    hide AtomsOf;
    if calls != [] {
      AtomsLater(n, calls[1..]);
      AtomsOfLater(n, calls[0]);
      assert Later(n, calls)[1..] == Later(n, calls[1..]);
      LaterAtomsAppend(n, AtomsOf(calls[0]), Atoms(calls[1..]));
    }
  }

  lemma AtomsOfLater(n: nat, c: Call)
    ensures AtomsOf(Call(c.event, n + c.at)) == LaterAtoms(n, AtomsOf(c))
  {
  }

  lemma LaterLater(n: nat, m: nat, calls: seq<Call>)
    ensures Later(n, Later(m, calls)) == Later(n + m, calls)
  {
  }

  lemma LaterAppend(n: nat, a: seq<Call>, b: seq<Call>)
    ensures Later(n, a + b) == Later(n, a) + Later(n, b)
  {
  }

  lemma AfterAtoms(n: nat, calls: seq<Call>, r: Report)
    ensures Atoms(After(n, calls, r).calls) == Atoms(calls) + LaterAtoms(n, Atoms(r.calls))
  {
    hide Atoms, LaterAtoms;
    AtomsAppend(calls, Later(n, r.calls));
    AtomsLater(n, r.calls);
  }

  lemma AfterNothing(r: Report)
    ensures After(0, [], r) == r
  {
    assert Later(0, r.calls) == r.calls;
    assert [] + r.calls == r.calls;
  }

  lemma AfterTwice(n: nat, x: seq<Call>, m: nat, y: seq<Call>, r: Report)
    ensures After(n, x, After(m, y, r)) == After(n + m, x + Later(n, y), r)
  {
    LaterAppend(n, y, Later(m, r.calls));
    LaterLater(n, m, r.calls);
    assert x + (Later(n, y) + Later(n + m, r.calls)) == x + Later(n, y) + Later(n + m, r.calls);
  }

  // ----- a run of data, cut in two -----

  lemma AtomsOfData(data: Bytes, at: nat)
    ensures Atoms([Call(CharacterData(data), at)]) == DataAtoms(data, at)
  {
    assert Atoms([Call(CharacterData(data), at)][1..]) == [];
    assert DataAtoms(data, at) + [] == DataAtoms(data, at);
  }

  lemma DataInTwo(x: Bytes, y: Bytes)
    ensures Atoms(Now(CharacterData(x)) + Later(|x|, Now(CharacterData(y)))) == Atoms(Now(CharacterData(x + y)))
  {
    hide Atoms;
    assert Later(|x|, Now(CharacterData(y))) == [Call(CharacterData(y), |x|)];
    AtomsAppend(Now(CharacterData(x)), Later(|x|, Now(CharacterData(y))));
    AtomsOfData(x, 0);
    AtomsOfData(y, |x|);
    AtomsOfData(x + y, 0);
    DataAtomsJoin(x, y);
  }

  lemma DataAtomsJoin(x: Bytes, y: Bytes)
    ensures DataAtoms(x, 0) + DataAtoms(y, |x|) == DataAtoms(x + y, 0)
    ensures DataAtoms(y, |x|) == LaterAtoms(|x|, DataAtoms(y, 0))
  {
  }
}
