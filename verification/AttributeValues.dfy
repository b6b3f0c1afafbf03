/**
 Attribute values: section 3.3.3 of XML 1.0.

 `Normal` gives the value of an attribute character by character, as the section defines it.  The
 parser works token by token, on one growing string, with a flag on every entity that is being
 expanded (class ValueReader); it is proved to compute the same value or the same error, for every
 table of entities, cyclic ones included.
 */
module AttributeValues {
  import opened Encodings
  import opened Automaton
  import opened Errors
  import opened Utf8

  /** A declared general entity; one with no text is external. */
  datatype Entity = Entity(text: Option<Bytes>, isInternal: bool, notation: bool)

  /**
   What a value depends on besides its own text: entities, whether they must be declared, and the internal
   encoding.
   */
  datatype Env = Env(entities: map<Bytes, Entity>, checkDecl: bool, internal: Encoding)

  /** The character a predefined entity stands for, 0 for other names. */
  function PredefinedEntity(name: Bytes): Byte {
    if name == [0x6C, 0x74] then ASCII_LT
    else if name == [0x67, 0x74] then ASCII_GT
    else if name == [0x61, 0x6D, 0x70] then ASCII_AMP
    else if name == [0x71, 0x75, 0x6F, 0x74] then ASCII_QUOT
    else if name == [0x61, 0x70, 0x6F, 0x73] then ASCII_APOS
    else 0
  }

  function Prepend(v: Bytes, r: Result<Bytes>): Result<Bytes> {
    match r
    case Ok(u) => Ok(v + u)
    case Err(e) => Err(e)
  }

  /** The text of an entity that may be expanded here, or why it may not. */
  function Expandable(env: Env, open: set<Bytes>, name: Bytes): Result<Option<Bytes>> {
    if name !in env.entities then
      if env.checkDecl then Err(UndefinedEntity) else Ok(None)
    else
      var e := env.entities[name];
      if env.checkDecl && !e.isInternal then Err(EntityDeclaredInPe)
      else if name in open then Err(RecursiveEntityRef)
      else if e.notation then Err(BinaryEntityRef)
      else if e.text.None? then Err(AttributeExternalEntityRef)
      else Ok(e.text)
  }

  /** The first item of a value: what it stands for, or the entity it refers to, and where it ends. */
  datatype Item = Text(n: nat, v: Bytes) | EntityRef(n: nat, name: Bytes) | Malformed(e: Error)

  function RefItem(enc: Encoding, w: Bytes): Item
    requires w != []
  {
    var r := ScanFrom(enc, w, 1, RefStart(InContent));
    if r.tok == TokCharRef then
      var c := CharRefNumber(w[..r.next]);
      if c < 0 then Malformed(BadCharRef) else Text(r.next, Encode(c))
    else if r.tok == TokEntityRef then
      var name := w[1..r.next - 1];
      if PredefinedEntity(name) != 0 then Text(r.next, [PredefinedEntity(name)]) else EntityRef(r.next, name)
    else if r.tok == TokPartialChar then Malformed(UnexpectedState)
    else Malformed(InvalidToken)
  }

  /** White space becomes a space; every character but `&` and `<` stands for itself. */
  function FirstItem(enc: Encoding, w: Bytes): (i: Item)
    requires w != []
    ensures !i.Malformed? ==> 0 < i.n <= |w|
  {
    var t := enc.byteType(w[0]);
    if t == BtAmp then RefItem(enc, w)
    else if t == BtLt then Malformed(InvalidToken)
    else if t == BtCr && |w| > 1 && enc.byteType(w[1]) == BtLf then Text(2, [ASCII_SPACE])
    else if IsSpaceType(t) then Text(1, [ASCII_SPACE])
    else var n := CharLength(enc, w, 0); Text(n, w[..n])
  }

  /** The value of `w` as a CDATA attribute: each item is replaced by what it stands for. */
  function Normal(env: Env, enc: Encoding, open: set<Bytes>, w: Bytes): Result<Bytes>
    decreases env.entities.Keys - open, |w|
  {
    if w == [] then Ok([])
    else
      match FirstItem(enc, w)
      case Malformed(e) => Err(e)
      case Text(n, v) => Prepend(v, Normal(env, enc, open, w[n..]))
      case EntityRef(n, name) =>
        match Expandable(env, open, name)
        case Err(e) => Err(e)
        case Ok(None) => Normal(env, enc, open, w[n..])
        case Ok(Some(text)) =>
          assert name in env.entities.Keys - open && name !in env.entities.Keys - (open + {name});
          match Normal(env, env.internal, open + {name}, text)
          case Err(e) => Err(e)
          case Ok(v) => Prepend(v, Normal(env, enc, open, w[n..]))
  }

  // ----- where an error is -----

  function Further(n: nat, place: Option<nat>): Option<nat> { if place.Some? then Some(n + place.value) else None }

  /** The place of an item that is malformed: where the tokenizer stops, or its start. */
  function MalformedPlace(enc: Encoding, w: Bytes): nat
    requires w != []
  {
    var r := ScanFrom(enc, w, 1, RefStart(InContent));
    if enc.byteType(w[0]) == BtAmp && r.tok == TokInvalid then r.next else 0
  }

  /**
   A reference that may not be expanded is an error at its start, but one that should have been declared
   has no place.
   */
  function RefPlace(e: Error): Option<nat> { if e == UndefinedEntity || e == EntityDeclaredInPe then None else Some(0) }

  /** The place that is recorded for the error of a value; an error in the text of an entity has none. */
  function ErrorPlace(env: Env, enc: Encoding, open: set<Bytes>, w: Bytes): Option<nat>
    decreases |w|
  {
    if w == [] then None
    else
      match FirstItem(enc, w)
      case Malformed(_) => Some(MalformedPlace(enc, w))
      case Text(n, _) => Further(n, ErrorPlace(env, enc, open, w[n..]))
      case EntityRef(n, name) =>
        match Expandable(env, open, name)
        case Err(e) => RefPlace(e)
        case Ok(None) => Further(n, ErrorPlace(env, enc, open, w[n..]))
        case Ok(Some(text)) =>
          if Normal(env, env.internal, open + {name}, text).Err? then None
          else Further(n, ErrorPlace(env, enc, open, w[n..]))
  }

  lemma FurtherTwice(n: nat, m: nat, place: Option<nat>)
    ensures Further(n, Further(m, place)) == Further(n + m, place) && Further(0, place) == place
  {
  }

  /** The bytes of the character at `p`. */
  function CharLength(enc: Encoding, w: Bytes, p: nat): (n: nat)
    requires p < |w|
    ensures 1 <= n && p + n <= |w|
  {
    var n := LeadLength(enc.byteType(w[p]));
    if n == 0 then 1 else if p + n <= |w| then n else |w| - p
  }

  // ----- tokenized attributes -----

  /** Appends `v` to `acc`, leaving out spaces at the start and after a space. */
  function Squeeze(acc: Bytes, v: Bytes): Bytes
    decreases |v|
  {
    if v == [] then acc
    else if v[0] == ASCII_SPACE && (acc == [] || acc[|acc| - 1] == ASCII_SPACE) then Squeeze(acc, v[1..])
    else Squeeze(acc + [v[0]], v[1..])
  }

  function Chop(v: Bytes): Bytes {
    if v != [] && v[|v| - 1] == ASCII_SPACE then v[..|v| - 1] else v
  }

  /** The words of `v`: its longest stretches without a space; `word` is the one being read. */
  function Words(word: Bytes, v: Bytes): seq<Bytes>
    decreases |v|
  {
    if v == [] then (if word == [] then [] else [word])
    else if v[0] != ASCII_SPACE then Words(word + [v[0]], v[1..])
    else (if word == [] then [] else [word]) + Words([], v[1..])
  }

  /** The words with single spaces between them. */
  function Join(ws: seq<Bytes>): Bytes {
    if ws == [] then [] else if |ws| == 1 then ws[0] else ws[0] + [ASCII_SPACE] + Join(ws[1..])
  }

  /** The value of an attribute that is not CDATA: no spaces around its words, single spaces between them. */
  function Tokenized(v: Bytes): Bytes { Join(Words([], v)) }

  function Value(env: Env, enc: Encoding, open: set<Bytes>, isCdata: bool, w: Bytes): Result<Bytes> {
    match Normal(env, enc, open, w)
    case Err(e) => Err(e)
    case Ok(v) => Ok(if isCdata then v else Tokenized(v))
  }

  lemma {:induction false} SqueezeAppend(acc: Bytes, u: Bytes, v: Bytes)
    ensures Squeeze(acc, u + v) == Squeeze(Squeeze(acc, u), v)
    decreases |u|
  {
    if u == [] {
      assert u + v == v;
    } else {
      assert (u + v)[1..] == u[1..] + v;
      if u[0] == ASCII_SPACE && (acc == [] || acc[|acc| - 1] == ASCII_SPACE) {
        SqueezeAppend(acc, u[1..], v);
      } else {
        SqueezeAppend(acc + [u[0]], u[1..], v);
      }
    }
  }

  lemma {:induction false} SqueezeNoSpace(acc: Bytes, u: Bytes)
    requires ASCII_SPACE !in u
    ensures Squeeze(acc, u) == acc + u
    decreases |u|
  {
    if u == [] {
      assert acc + u == acc;
    } else {
      SqueezeNoSpace(acc + [u[0]], u[1..]);
      assert acc + [u[0]] + u[1..] == acc + u;
    }
  }

  /** What has been squeezed: finished words, each with a space after it, and the word being read. */
  function Finished(ws: seq<Bytes>): Bytes {
    if ws == [] then [] else ws[0] + [ASCII_SPACE] + Finished(ws[1..])
  }

  lemma {:induction false} FinishedAppend(ws: seq<Bytes>, word: Bytes)
    ensures Finished(ws + [word]) == Finished(ws) + word + [ASCII_SPACE]
    ensures Join(ws + [word]) == Finished(ws) + word
  {
    if ws != [] {
      assert (ws + [word])[1..] == ws[1..] + [word];
      FinishedAppend(ws[1..], word);
    } else {
      assert ws + [word] == [word];
      assert Finished([word][1..]) == [];
    }
  }

  lemma {:induction false} FinishedEnds(ws: seq<Bytes>)
    ensures ws == [] <==> Finished(ws) == []
    ensures ws != [] ==> Finished(ws)[|Finished(ws)| - 1] == ASCII_SPACE && Chop(Finished(ws)) == Join(ws)
  {
    if |ws| == 1 {
      assert Finished(ws[1..]) == [];
      assert Chop(Finished(ws)) == ws[0];
    } else if ws != [] {
      FinishedEnds(ws[1..]);
      var rest := Finished(ws[1..]);
      assert Chop(Finished(ws)) == ws[0] + [ASCII_SPACE] + Chop(rest);
    }
  }

  lemma {:induction false} SqueezeWords(ws: seq<Bytes>, word: Bytes, v: Bytes)
    requires ASCII_SPACE !in word
    ensures Chop(Squeeze(Finished(ws) + word, v)) == Join(ws + Words(word, v))
    decreases |v|
  {
    hide Finished, Chop, Join;
    var acc := Finished(ws) + word;
    FinishedEnds(ws);
    if v == [] {
      LastWord(ws, word);
    } else if v[0] != ASCII_SPACE {
      assert acc + [v[0]] == Finished(ws) + (word + [v[0]]);
      SqueezeWords(ws, word + [v[0]], v[1..]);
    } else if word == [] {
      assert acc == Finished(ws);
      SqueezeWords(ws, [], v[1..]);
      assert Words(word, v) == Words([], v[1..]);
    } else {
      FinishedAppend(ws, word);
      assert acc[|acc| - 1] == word[|word| - 1];
      assert Finished(ws + [word]) + [] == acc + [ASCII_SPACE];
      SqueezeWords(ws + [word], [], v[1..]);
      assert ws + [word] + Words([], v[1..]) == ws + Words(word, v);
    }
  }

  lemma LastWord(ws: seq<Bytes>, word: Bytes)
    requires ASCII_SPACE !in word
    ensures Chop(Squeeze(Finished(ws) + word, [])) == Join(ws + Words(word, []))
  {
    FinishedEnds(ws);
    if word == [] {
      assert Finished(ws) + word == Finished(ws) && ws + [] == ws;
    } else {
      FinishedAppend(ws, word);
      assert (Finished(ws) + word)[|Finished(ws) + word| - 1] == word[|word| - 1];
    }
  }

  /** Leaving out spaces on the fly and one at the end is the normalization of tokenized attributes. */
  lemma SqueezeIsTokenized(v: Bytes)
    ensures Chop(Squeeze([], v)) == Tokenized(v)
  {
    SqueezeWords([], [], v);
    assert Finished([]) + [] == [];
    assert [] + Words([], v) == Words([], v);
  }

  // ----- tokens of a value -----

  /** The end of the run of data characters that goes on at `p`. */
  function ValueRun(enc: Encoding, w: Bytes, p: nat): (r: nat)
    requires p <= |w|
    ensures p <= r <= |w|
    decreases |w| - p
  {
    if p == |w| || EndsRun(enc.byteType(w[p])) then p else ValueRun(enc, w, p + CharLength(enc, w, p))
  }

  predicate EndsRun(t: ByteType) { t == BtAmp || t == BtLt || IsSpaceType(t) }

  function AttributeValueTok(enc: Encoding, w: Bytes): (r: Scan)
    ensures if r.tok.Open() then r.next == 0 else r.next <= |w|
    ensures !r.tok.Open() && r.tok != TokInvalid ==> 0 < r.next
  {
    if w == [] then Scan(TokNone, 0)
    else
      var t := enc.byteType(w[0]);
      if t == BtAmp then ScanFrom(enc, w, 1, RefStart(InContent))
      else if t == BtLt then Invalid(0)
      else if t == BtLf then Scan(TokDataNewline, 1)
      else if t == BtCr then CrLf(enc, w, TokTrailingCr)
      else if t == BtS then Scan(TokAttributeValueS, 1)
      else
        var p := ValueRun(enc, w, CharLength(enc, w, 0));
        if p < |w| && enc.byteType(w[p]) == BtLt then Invalid(p) else Scan(TokDataChars, p)
  }

  /** Every character outside references is complete and valid; scanners let nothing else into a value. */
  predicate Whole(enc: Encoding, w: Bytes)
    decreases |w|
  {
    if w == [] then true
    else if enc.byteType(w[0]) == BtAmp then
      var r := ScanFrom(enc, w, 1, RefStart(InContent));
      r.tok == TokEntityRef || r.tok == TokCharRef ==> Whole(enc, w[r.next..])
    else
      var n := LeadLength(enc.byteType(w[0]));
      if n == 0 then Whole(enc, w[1..]) else n <= |w| && !enc.isInvalid(w[..n]) && Whole(enc, w[n..])
  }

  /** What the parser relies on in an encoding of ASCII-compatible bytes. */
  ghost predicate Standard(enc: Encoding) {
    && enc.byteType(ASCII_SPACE) == BtS
    && (forall b: Byte :: enc.byteType(b) == BtDigit ==> IsDecimal(b))
    && (forall b: Byte :: enc.byteType(b) == BtHex ==> IsHex(b))
    && (forall b: Byte :: enc.byteType(b) == BtSemi <==> b == ASCII_SEMI)
    && enc.byteType(ASCII_x) == BtNmstrt
    && (forall p: Bytes :: p != [] && LeadLength(enc.byteType(p[0])) == |p| && !enc.isInvalid(p) ==> ASCII_SPACE !in p)
  }

  lemma Utf8IsStandard(ns: bool, internal: bool, isName: Bytes -> bool, isNmstrt: Bytes -> bool)
    ensures Standard(Utf8Encoding(ns, internal, isName, isNmstrt))
  {
    hide IsInvalid, Utf8Type;
    var enc := Utf8Encoding(ns, internal, isName, isNmstrt);
    forall p: Bytes | p != [] && LeadLength(enc.byteType(p[0])) == |p| && !enc.isInvalid(p)
      ensures ASCII_SPACE !in p
    {
      InvalidIsNotUtf8(ns, internal, p);
    }
    forall b: Byte { AsciiTypes(ns, internal, b); }
    AsciiTypes(ns, internal, ASCII_SPACE);
    AsciiTypes(ns, internal, ASCII_x);
  }

  lemma AsciiTypes(ns: bool, internal: bool, b: Byte)
    ensures var t := Utf8Type(ns, internal, b);
      && (t == BtDigit ==> IsDecimal(b)) && (t == BtHex ==> IsHex(b)) && (t == BtSemi <==> b == ASCII_SEMI)
      && (b == ASCII_SPACE ==> t == BtS) && (b == ASCII_x ==> t == BtNmstrt)
  {
  }

  ghost predicate ValidEnv(env: Env) {
    && Standard(env.internal)
    && forall name :: name in env.entities && env.entities[name].text.Some? ==>
        Whole(env.internal, env.entities[name].text.value)
  }

  /** An ordinary character is an item that stands for itself, wherever it is. */
  lemma CharItem(enc: Encoding, w: Bytes, p: nat)
    requires p < |w| && !EndsRun(enc.byteType(w[p]))
    ensures var n := CharLength(enc, w, p);
      FirstItem(enc, w[p..]) == Text(n, w[p..p + n]) && w[p..][n..] == w[p + n..]
  {
    var n := CharLength(enc, w, p);
    assert CharLength(enc, w[p..], 0) == n;
    assert w[p..][..n] == w[p..p + n];
  }

  lemma NormalChar(env: Env, enc: Encoding, open: set<Bytes>, w: Bytes, p: nat)
    requires p < |w| && !EndsRun(enc.byteType(w[p]))
    ensures var n := CharLength(enc, w, p);
      Normal(env, enc, open, w[p..]) == Prepend(w[p..p + n], Normal(env, enc, open, w[p + n..]))
  {
    CharItem(enc, w, p);
  }

  lemma PrependTwice(u: Bytes, v: Bytes, r: Result<Bytes>)
    ensures Prepend(u, Prepend(v, r)) == Prepend(u + v, r)
    ensures Prepend([], r) == r
  {
    match r
    case Ok(x) => assert u + (v + x) == u + v + x && [] + x == x;
    case Err(_) =>
  }

  /** If every character stands for itself, so does a run of them; `f(p)` is the value of the text from `p`. */
  lemma {:induction false} RunOfChars(f: nat -> Result<Bytes>, enc: Encoding, w: Bytes, p: nat)
    requires forall k: nat {:trigger f(k)} :: k < |w| && !EndsRun(enc.byteType(w[k])) ==>
      var n := CharLength(enc, w, k); f(k) == Prepend(w[k..k + n], f(k + n))
    requires p <= |w|
    ensures var q := ValueRun(enc, w, p); f(p) == Prepend(w[p..q], f(q))
    decreases |w| - p
  {
    hide Prepend, CharLength, EndsRun;
    var q := ValueRun(enc, w, p);
    if p == q {
      assert w[p..q] == [];
      PrependTwice([], [], f(q));
    } else {
      var n := CharLength(enc, w, p);
      RunOfChars(f, enc, w, p + n);
      PrependTwice(w[p..p + n], w[p + n..q], f(q));
      assert w[p..p + n] + w[p + n..q] == w[p..q];
    }
  }

  /** A data token is the characters it stands for. */
  lemma NormalRun(env: Env, enc: Encoding, open: set<Bytes>, w: Bytes, p: nat)
    requires p <= |w|
    ensures var q := ValueRun(enc, w, p);
      Normal(env, enc, open, w[p..]) == Prepend(w[p..q], Normal(env, enc, open, w[q..]))
  {
    hide Normal, CharLength, EndsRun;
    var f := (k: nat) => if k <= |w| then Normal(env, enc, open, w[k..]) else Ok([]);
    forall k: nat | k < |w| && !EndsRun(enc.byteType(w[k]))
      ensures var n := CharLength(enc, w, k); f(k) == Prepend(w[k..k + n], f(k + n))
    {
      NormalChar(env, enc, open, w, k);
    }
    RunOfChars(f, enc, w, p);
  }

  /** An ordinary character is no error. */
  lemma PlaceBehindChar(env: Env, enc: Encoding, open: set<Bytes>, w: Bytes, p: nat)
    requires p < |w| && !EndsRun(enc.byteType(w[p]))
    ensures var n := CharLength(enc, w, p);
      ErrorPlace(env, enc, open, w[p..]) == Further(n, ErrorPlace(env, enc, open, w[p + n..]))
  {
    hide Normal, CharLength, EndsRun, FirstItem;
    CharItem(enc, w, p);
  }

  /** There is no error in a run of data. */
  lemma {:induction false} PlaceBehindRun(env: Env, enc: Encoding, open: set<Bytes>, w: Bytes, p: nat)
    requires p <= |w|
    ensures var q := ValueRun(enc, w, p);
      ErrorPlace(env, enc, open, w[p..]) == Further(q - p, ErrorPlace(env, enc, open, w[q..]))
    decreases |w| - p
  {
    hide ErrorPlace, CharLength, EndsRun;
    if p < |w| && !EndsRun(enc.byteType(w[p])) {
      PlaceBehindChar(env, enc, open, w, p);
      PlaceBehindRun(env, enc, open, w, p + CharLength(enc, w, p));
    }
  }

  /** A whole text starts with a whole character, free of spaces unless it is one, and goes on whole. */
  lemma FirstWhole(enc: Encoding, v: Bytes)
    requires Standard(enc) && v != [] && Whole(enc, v) && !EndsRun(enc.byteType(v[0]))
    ensures var n := CharLength(enc, v, 0); n <= |v| && ASCII_SPACE !in v[..n] && Whole(enc, v[n..])
  {
  }

  lemma WholeChar(enc: Encoding, w: Bytes, p: nat)
    requires Standard(enc) && p < |w| && Whole(enc, w[p..]) && !EndsRun(enc.byteType(w[p]))
    ensures var n := CharLength(enc, w, p); ASCII_SPACE !in w[p..p + n] && Whole(enc, w[p + n..])
  {
    hide Standard, Whole, EndsRun, LeadLength;
    var v, n := w[p..], CharLength(enc, w, p);
    assert v[..n] == w[p..p + n] && v[n..] == w[p + n..];
    FirstWhole(enc, v);
  }

  /** There is no space in a data token, and what follows it is whole again. */
  lemma {:induction false} RunIsClean(enc: Encoding, w: Bytes, p: nat)
    requires Standard(enc) && p <= |w| && Whole(enc, w[p..])
    ensures var q := ValueRun(enc, w, p); ASCII_SPACE !in w[p..q] && Whole(enc, w[q..])
    decreases |w| - p
  {
    hide Standard, Whole, CharLength, EndsRun;
    var q := ValueRun(enc, w, p);
    if p < q {
      var n := CharLength(enc, w, p);
      WholeChar(enc, w, p);
      RunIsClean(enc, w, p + n);
      assert w[p..q] == w[p..p + n] + w[p + n..q];
    }
  }

  /** The digits of a character reference are digits, and a semicolon ends them. */
  lemma {:induction false} DigitsOfRef(enc: Encoding, w: Bytes, p: nat, q: State)
    requires Standard(enc) && p <= |w| && (q.HexCharRef? || q.DecCharRef?) && q.ctx == InContent
    requires ScanFrom(enc, w, p, q).tok == TokCharRef
    ensures var r := ScanFrom(enc, w, p, q);
      && p < r.next <= |w| && w[r.next - 1] == ASCII_SEMI
      && forall i :: p <= i < r.next - 1 ==> if q.HexCharRef? then IsHex(w[i]) else IsDecimal(w[i])
    decreases |w| - p
  {
    hide ScanFrom, NextInTag, NextInMarkup;
    ScanStep(enc, w, p, q);
    if enc.byteType(w[p]) != BtSemi { DigitsOfRef(enc, w, p + 1, q); }
  }

  lemma {:induction false} NameHasNoCharRef(enc: Encoding, w: Bytes, p: nat)
    requires p <= |w|
    ensures ScanFrom(enc, w, p, RefName(InContent)).tok != TokCharRef
    decreases |w| - p
  {
    hide ScanFrom, Next;
    if p < |w| {
      RefNameGoes(enc, w, p);
      ScanStep(enc, w, p, RefName(InContent));
      match Next(enc, w, p, RefName(InContent))
      case Move(n, q) =>
        NameHasNoCharRef(enc, w, p + n);
      case Halt(_) =>
    }
  }

  lemma RefNameGoes(enc: Encoding, w: Bytes, p: nat)
    requires p < |w|
    ensures match Next(enc, w, p, RefName(InContent))
      case Move(_, q) => q == RefName(InContent)
      case Halt(r) => r.tok != TokCharRef
  {
    hide NextInTag, NextInMarkup;
  }

  lemma CharRefIsNumeral(enc: Encoding, w: Bytes)
    requires Standard(enc) && w != []
    requires ScanFrom(enc, w, 1, RefStart(InContent)).tok == TokCharRef
    ensures IsCharRef(w[..ScanFrom(enc, w, 1, RefStart(InContent)).next])
  {
    hide ScanFrom, NextInTag, NextInMarkup;
    ScanStep(enc, w, 1, RefStart(InContent));
    match Next(enc, w, 1, RefStart(InContent))
    case Move(n, q) =>
      if q == RefName(InContent) {
        NameHasNoCharRef(enc, w, 1 + n);
      } else {
        DigitsAfterHash(enc, w);
      }
    case Halt(_) =>
  }

  lemma DigitsAfterHash(enc: Encoding, w: Bytes)
    requires Standard(enc) && |w| >= 2
    requires ScanFrom(enc, w, 2, CharRefStart(InContent)).tok == TokCharRef
    ensures IsCharRef(w[..ScanFrom(enc, w, 2, CharRefStart(InContent)).next])
  {
    hide ScanFrom, NextInTag, NextInMarkup;
    ScanStep(enc, w, 2, CharRefStart(InContent));
    if w[2] == ASCII_x {
      DigitsAfterX(enc, w);
    } else {
      var k := ScanFrom(enc, w, 3, DecCharRef(InContent)).next;
      DigitsOfRef(enc, w, 3, DecCharRef(InContent));
      CharRefText(w, k);
    }
  }

  lemma DigitsAfterX(enc: Encoding, w: Bytes)
    requires Standard(enc) && |w| >= 3 && w[2] == ASCII_x
    requires ScanFrom(enc, w, 3, HexCharRefStart(InContent)).tok == TokCharRef
    ensures IsCharRef(w[..ScanFrom(enc, w, 3, HexCharRefStart(InContent)).next])
  {
    hide ScanFrom, NextInTag, NextInMarkup;
    ScanStep(enc, w, 3, HexCharRefStart(InContent));
    DigitsOfRef(enc, w, 4, HexCharRef(InContent));
    CharRefText(w, ScanFrom(enc, w, 4, HexCharRef(InContent)).next);
  }

  lemma CharRefText(w: Bytes, k: nat)
    requires 4 <= k <= |w| && w[k - 1] == ASCII_SEMI
    requires if w[2] == ASCII_x then forall i :: 3 <= i < k - 1 ==> IsHex(w[i])
             else forall i :: 2 <= i < k - 1 ==> IsDecimal(w[i])
    ensures IsCharRef(w[..k])
  {
  }
}
