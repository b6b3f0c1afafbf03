/**
 The parser object: its buffer, its open tags and its processors.

 The application asks for space, writes bytes there and has them parsed; what is not used stays in
 the buffer, which moves.  Names of open tags are read from the buffer and copied away before it
 moves.
 */
module Parsers {
  import opened Encodings
  import opened Automaton
  import opened Stability
  import opened Scanners
  import opened Errors
  import opened Utf8
  import opened AttributeValues
  import opened ValueReaders
  import opened TagAttributes
  import opened NormalizedValues
  import opened Tags
  import opened Content
  import opened LineEnds
  import opened ChunkIndependence
  import Nesting
  import opened TagBuffers

  const XML_CONTEXT_BYTES := 1024
  const INIT_BUFFER_SIZE := 1024

  datatype Processor = ContentProcessor | CdataSectionProcessor | EpilogProcessor | ErrorProcessor

  /** The names of the open tags, as the handlers of their ends will be given them. */
  function Names(m: Memory, tags: seq<Tag>): (names: seq<Bytes>)
    ensures |names| == |tags| && forall i :: 0 <= i < |tags| ==> names[i] == NameText(m, tags[i])
  {
    seq(|tags|, i requires 0 <= i < |tags| => NameText(m, tags[i]))
  }

  /** Without namespaces `name.str` is the name in the buffer of the tag; it and the raw name are the same. */
  predicate NameOk(mem: Bytes, m: Memory, tag: Tag) {
    tag.str == InTagBuf(tag.buf, 0) && tag.localPart == None && RawText(mem, m, tag) == NameText(m, tag)
  }

  predicate NamesOk(mem: Bytes, m: Memory, tags: seq<Tag>) {
    TagsOk(mem, m, tags) && forall i :: 0 <= i < |tags| ==> NameOk(mem, m, tags[i])
  }

  /** All is well whatever the parse buffer holds. */
  ghost predicate SafeNames(m: Memory, tags: seq<Tag>) { AllStored(tags) && forall mem :: NamesOk(mem, m, tags) }

  /** The tag a content token stands for is a tag by itself. */
  lemma TagByItself(enc: Encoding, w: Bytes)
    requires IsTag(ContentTok(enc, w).tok)
    ensures var n := ContentTok(enc, w).next; 1 < n <= |w| && IsTag(ScanFrom(enc, w[..n], 1, AfterLt).tok)
  {
    hide ScanFrom;
    if enc.byteType(w[0]) == BtAmp { RefTokens(enc, w); }
    TokenByItself(enc, w, 1, AfterLt);
  }

  lemma RefTokens(enc: Encoding, w: Bytes)
    requires w != [] && enc.byteType(w[0]) == BtAmp
    ensures !IsTag(ContentTok(enc, w).tok)
  {
    hide ScanFrom;
    RefInValue(enc, w, 1, RefStart(InContent), BtQuot);
  }

  /** Markup is never a reference: those inside values end inside the tag. */
  lemma {:induction false} MarkupIsNoRef(enc: Encoding, w: Bytes, p: nat, q: State)
    requires p <= |w| && At(q, p) && !(InRef(q) && q.ctx.InContent?)
    ensures !ScanFrom(enc, w, p, q).tok.TokCharRef? && !ScanFrom(enc, w, p, q).tok.TokEntityRef?
    decreases |w| - p
  {
    hide ScanFrom, Next, At;
    if p < |w| {
      ScanStep(enc, w, p, q);
      MarkupStepIsNoRef(enc, w, p, q);
      match Next(enc, w, p, q)
      case Move(n, q') => MarkupIsNoRef(enc, w, p + n, q');
      case Halt(_) =>
    }
  }

  /** The step neither ends nor begins a reference in content. */
  predicate NoReference(step: Step) {
    match step
    case Move(_, q) => !(InRef(q) && q.ctx.InContent?)
    case Halt(r) => !r.tok.TokCharRef? && !r.tok.TokEntityRef?
  }

  lemma MarkupStepIsNoRef(enc: Encoding, w: Bytes, p: nat, q: State)
    requires p < |w| && At(q, p) && !(InRef(q) && q.ctx.InContent?)
    ensures NoReference(Next(enc, w, p, q))
  {
    hide NextInMarkup, NextInTag, NextInRef, NoReference;
    if InRef(q) {
      RefStepIsNoRef(enc, w, p, q);
    } else if InTag(q) {
      TagStepIsNoRef(enc, w, p, q);
    } else {
      OtherStepIsNoRef(enc, w, p, q);
    }
  }

  lemma RefStepIsNoRef(enc: Encoding, w: Bytes, p: nat, q: State)
    requires p < |w| && At(q, p) && InRef(q) && !q.ctx.InContent?
    ensures NoReference(NextInRef(enc, w, p, q))
  {
  }

  lemma TagStepIsNoRef(enc: Encoding, w: Bytes, p: nat, q: State)
    requires p < |w| && At(q, p) && InTag(q)
    ensures NoReference(NextInTag(enc, w, p, q))
  {
  }

  lemma OtherStepIsNoRef(enc: Encoding, w: Bytes, p: nat, q: State)
    requires p < |w| && At(q, p) && !InTag(q) && !InRef(q)
    ensures NoReference(NextInMarkup(enc, w, p, q))
  {
  }

  lemma PushName(mem: Bytes, m: Memory, m': Memory, tags: seq<Tag>, tag: Tag)
    requires NamesOk(mem, m, tags) && HasOwn(m, m', tags, tag.buf) && TagOk(mem, m', tag) && !IsStored(tag)
    requires NameOk(mem, m', tag)
    ensures NamesOk(mem, m', tags + [tag]) && Names(m', tags + [tag]) == Names(m, tags) + [NameText(m', tag)]
  {
    hide TagsOk, TagOk, HasOwn, IsStored, RawText;
    TagPushed(mem, m, m', tags, tag);
  }

  lemma PopName(mem: Bytes, m: Memory, tags: seq<Tag>)
    requires NamesOk(mem, m, tags) && tags != []
    ensures var last := |tags| - 1; var m' := CloseTag(m, tags[last]);
      && NamesOk(mem, m', tags[..last]) && Names(m', tags[..last]) == Names(m, tags)[..last]
      && RawText(mem, m', tags[last]) == NameText(m', tags[last]) == Names(m, tags)[last]
  {
    hide TagsOk, TagOk, IsStored, RawText;
    TagPopped(mem, m, tags);
    SameRest(mem, m, tags);
  }

  lemma SameRest(mem: Bytes, m: Memory, tags: seq<Tag>)
    requires tags != []
    ensures var t, m' := tags[|tags| - 1], CloseTag(m, tags[|tags| - 1]);
      RawText(mem, m', t) == RawText(mem, m, t) && NameText(m', t) == NameText(m, t)
  {
  }

  lemma NoNames(mem: Bytes)
    ensures NamesOk(mem, NO_MEMORY, [])
  {
  }

  /** Once raw names are stored, the parse buffer may move. */
  lemma NamesAreSafe(mem: Bytes, m: Memory, tags: seq<Tag>, m': Memory, tags': seq<Tag>)
    requires NamesOk(mem, m, tags) && TagsOk(mem, m', tags') && AllStored(tags')
    requires SayTheSame(mem, m, tags, mem, m', tags')
    ensures SafeNames(m', tags') && Names(m', tags') == Names(m, tags)
  {
    hide RawText, IsStored, NameText;
    forall mem'
      ensures NamesOk(mem', m', tags')
    {
      StoredAnywhere(mem, mem', m', tags');
      forall i | 0 <= i < |tags'|
        ensures NameOk(mem', m', tags'[i])
      {
        assert SameNames(m, tags[i], m', tags'[i]) && NameOk(mem, m, tags[i]) && TagOk(mem, m', tags'[i]);
      }
    }
  }

  /** How a report goes on behind what has been done. */
  lemma AfterAfter(n: nat, done: seq<Call>, r: Report)
    ensures After(n, done, r).calls == done + Later(n, r.calls)
    ensures r.end.NeedMore? ==> After(n, done, r).end == r.end
    ensures r.end.Closed? ==> After(n, done, r).end == Closed(n + r.end.pos)
    ensures r.end.Failed? ==> After(n, done, r).end == Failed(r.end.error, n + r.end.pos)
  {
  }

  /** One action of a parse that has used the bytes before `s`. */
  lemma ParseStep(env: Env, enc: Encoding, at: Position, mem: Bytes, s: nat, final: bool, n: nat, done: seq<Call>)
    requires s <= |mem|
    ensures var r := After(n, done, Parse(env, enc, at, mem[s..], final));
      match NextStep(env, enc, at, mem[s..], final)
      case Go(k, cs, there) =>
        0 < k <= |mem| - s && r == After(n + k, done + Later(n, cs), Parse(env, enc, there, mem[s + k..], final))
      case Wait => r == Report(done, NeedMore(at, mem[s..]))
      case Finish(k, cs) => 0 < k <= |mem| - s && r == Report(done + Later(n, cs), Closed(n + k))
      case Fail(e, pos, cs) => r == Report(done + Later(n, cs), Failed(e, n + pos))
  {
    hide NextStep;
    StepAdvances(env, enc, at, mem[s..], final);
    match NextStep(env, enc, at, mem[s..], final)
    case Go(k, cs, there) =>
      assert mem[s..][k..] == mem[s + k..];
      AfterTwice(n, done, k, cs, Parse(env, enc, there, mem[s + k..], final));
    case _ =>
      assert done + Later(n, []) == done;
  }

  class Parser {
    const env: Env
    const enc: Encoding
    var tagStack: seq<Tag>
    var tagLevel: nat
    /** The buffers of tags, and `freeTagList`. */
    var memory: Memory
    var processor: Processor
    var errorCode: Option<Error>
    /** The calls of the handlers, in order, each with the byte index during the call. */
    ghost var calls: seq<Call>
    /** The place in the buffer the current event starts at. */
    var eventPtr: Option<nat>

    /** The parse buffer: unused input stands between `bufferPtr` and `bufferEnd`. */
    var buffer: array<Byte>
    var bufferPtr: nat
    var bufferEnd: nat
    /** The end of the input when the parser was last called, in the buffer and in the document. */
    var parseEndPtr: nat
    var parseEndByteIndex: nat
    var finished: bool
    /** All input so far. */
    ghost var stream: Bytes

    /** The offset in the document of a place in the parse buffer. */
    function Offset(p: nat): nat
      requires parseEndPtr <= parseEndByteIndex
      reads this`parseEndPtr, this`parseEndByteIndex
    {
      parseEndByteIndex - parseEndPtr + p
    }

    /** `XML_GetCurrentByteIndex` */
    function ByteIndex(): int
      reads this`eventPtr, this`parseEndPtr, this`parseEndByteIndex
    {
      if eventPtr.Some? then parseEndByteIndex - (parseEndPtr - eventPtr.value) else -1
    }

    /** A handler is called. */
    ghost method CallHandler(e: Event)
      requires eventPtr.Some? && parseEndPtr <= parseEndByteIndex
      modifies this`calls
      ensures calls == old(calls) + [Call(e, Offset(eventPtr.value))]
    {
      calls := calls + [Call(e, ByteIndex())];
    }

    /** A start tag or an empty-element tag: the names are those of the tag, the attributes are checked. */
    method HandleTag(mem: Bytes, s: nat, next: nat, empty: bool) returns (step: Action)
      requires ValidEnv(env) && Standard(enc) && s < next <= |mem|
      requires IsTag(ScanFrom(enc, mem[s..next], 1, AfterLt).tok)
      requires NamesOk(mem, memory, tagStack) && tagLevel == |tagStack|
      requires eventPtr == Some(s) && parseEndPtr <= parseEndByteIndex
      modifies this`tagStack, this`memory, this`tagLevel, this`calls, this`eventPtr
      ensures step == StartTagStep(env, enc, mem[s..next], empty, old(Names(memory, tagStack)))
      ensures NamesOk(mem, memory, tagStack) && tagLevel == |tagStack|
      ensures DidToken(s, step, old(calls)) && !step.Wait?
    {
      hide ScanFrom, Standard, NamesOk, DidToken, StoreAtts, AttsErrorPlace, TagSpans, NameEnd;
      if empty {
        step := HandleEmptyTag(mem, s, next);
      } else {
        step := HandleStartTag(mem, s, next);
      }
    }

    /** The calls and names that a token at `s` leaves behind, or the place of its error. */
    ghost predicate DidToken(s: nat, step: Action, before: seq<Call>)
      requires parseEndPtr <= parseEndByteIndex
      reads `calls, `eventPtr, `memory, `tagStack, `parseEndPtr, `parseEndByteIndex
    {
      match step
      case Go(_, cs, at) => calls == before + Later(Offset(s), cs) && Names(memory, tagStack) == at.stack
      case Finish(_, cs) => calls == before + Later(Offset(s), cs) && tagStack == []
      case Fail(_, pos, cs) => calls == before + Later(Offset(s), cs) && eventPtr == Some(s + pos)
      case Wait => calls == before && eventPtr == Some(s)
    }

    method HandleEmptyTag(mem: Bytes, s: nat, next: nat) returns (step: Action)
      requires ValidEnv(env) && Standard(enc) && s < next <= |mem|
      requires IsTag(ScanFrom(enc, mem[s..next], 1, AfterLt).tok)
      requires tagLevel == |tagStack| && eventPtr == Some(s) && parseEndPtr <= parseEndByteIndex
      modifies this`calls, this`eventPtr
      ensures step == StartTagStep(env, enc, mem[s..next], true, Names(memory, tagStack))
      ensures DidToken(s, step, old(calls))
    {
      hide ScanFrom, Standard, StoreAtts, AttsErrorPlace, TagSpans, NameEnd;
      var tag := mem[s..next];
      var len := NameLength(enc, tag, 1);
      ghost var before := calls;
      var name := tag[1..1 + len];
      var atts, place := ReadAttributes(env, enc, tag);
      if atts.Err? {
        eventPtr := Some(s + place);
        return Fail(atts.error, place, []);
      }
      CallHandler(StartElement(name, atts.value));
      eventPtr := Some(next);
      CallHandler(EndElement(name));
      assert calls == before + Later(Offset(s), StartAndEnd(tag, name, atts.value));
      if tagLevel == 0 { return Finish(|tag|, StartAndEnd(tag, name, atts.value)); }
      return Go(|tag|, StartAndEnd(tag, name, atts.value), Position(false, Names(memory, tagStack)));
    }

    method HandleStartTag(mem: Bytes, s: nat, next: nat) returns (step: Action)
      requires ValidEnv(env) && Standard(enc) && s < next <= |mem|
      requires IsTag(ScanFrom(enc, mem[s..next], 1, AfterLt).tok)
      requires NamesOk(mem, memory, tagStack) && tagLevel == |tagStack|
      requires eventPtr == Some(s) && parseEndPtr <= parseEndByteIndex
      modifies this`tagStack, this`memory, this`tagLevel, this`calls, this`eventPtr
      ensures step == StartTagStep(env, enc, mem[s..next], false, old(Names(memory, tagStack)))
      ensures NamesOk(mem, memory, tagStack) && tagLevel == |tagStack|
      ensures DidToken(s, step, old(calls))
    {
      hide ScanFrom, Standard, StoreAtts, AttsErrorPlace, TagSpans, NameEnd, NamesOk, TagOk, HasOwn, IsStored;
      var tag := mem[s..next];
      var len := NameLength(enc, tag, 1);
      SliceOfSlice(mem, s, next, s + 1, len);
      ghost var before := calls;
      var m, t := OpenName(mem, s + 1, len);
      tagStack, memory := tagStack + [t], m;
      tagLevel := tagLevel + 1;
      var name := NameText(memory, t);
      var atts, place := ReadAttributes(env, enc, tag);
      if atts.Err? {
        eventPtr := Some(s + place);
        return Fail(atts.error, place, []);
      }
      CallHandler(StartElement(name, atts.value));
      assert calls == before + Later(Offset(s), Now(StartElement(name, atts.value)));
      return Go(|tag|, Now(StartElement(name, atts.value)), Position(false, Names(memory, tagStack)));
    }

    method OpenName(mem: Bytes, at: nat, len: nat) returns (m: Memory, t: Tag)
      requires at + len <= |mem| && NamesOk(mem, memory, tagStack)
      ensures NamesOk(mem, m, tagStack + [t]) && NameText(m, t) == mem[at..at + len]
      ensures Names(m, tagStack + [t]) == Names(memory, tagStack) + [mem[at..at + len]]
    {
      hide TagOk, HasOwn, IsStored, RawText, NameText;
      m, t := OpenTag(mem, at, len, memory, tagStack);
      PushName(mem, memory, m, tagStack, t);
    }

    /** An end tag: its raw name must be that of the innermost open tag, wherever that is kept. */
    method HandleEndTag(mem: Bytes, s: nat, next: nat) returns (step: Action)
      requires s + 2 <= next <= |mem| && NamesOk(mem, memory, tagStack) && tagLevel == |tagStack|
      requires eventPtr == Some(s) && parseEndPtr <= parseEndByteIndex
      modifies this`tagStack, this`memory, this`tagLevel, this`calls, this`eventPtr
      ensures step == EndTagStep(enc, mem[s..next], old(Names(memory, tagStack)))
      ensures NamesOk(mem, memory, tagStack) && (!step.Fail? ==> tagLevel == |tagStack|)
      ensures DidToken(s, step, old(calls)) && !step.Wait?
    {
      hide NameEnd, NamesOk, RawText, NameText;
      if tagLevel == 0 { return Fail(AsyncEntity, 0, []); }
      PopName(mem, memory, tagStack);
      ghost var before := calls;
      var tag := tagStack[|tagStack| - 1];
      tagStack, memory := tagStack[..|tagStack| - 1], CloseTag(memory, tag);
      var text := mem[s..next];
      var len := NameLength(enc, text, 2);
      if RawText(mem, memory, tag) != text[2..2 + len] {
        eventPtr := Some(s + 2);
        return Fail(TagMismatch, 2, []);
      }
      tagLevel := tagLevel - 1;
      var name := NameText(memory, tag);
      CallHandler(EndElement(name));
      assert calls == before + Later(Offset(s), Now(EndElement(name)));
      if tagLevel == 0 { return Finish(|text|, Now(EndElement(name))); }
      return Go(|text|, Now(EndElement(name)), Position(false, Names(memory, tagStack)));
    }

    /** One token of content: the switch in the loop of `DoContent`. */
    method HandleToken(mem: Bytes, s: nat, t: Scan, haveMore: bool) returns (step: Action)
      requires ValidEnv(env) && Standard(enc) && s <= |mem| && t == ContentTok(enc, mem[s..])
      requires NamesOk(mem, memory, tagStack) && tagLevel == |tagStack| && parseEndPtr <= parseEndByteIndex
      modifies this`tagStack, this`memory, this`tagLevel, this`calls, this`eventPtr
      ensures DidToken(s, step, old(calls)) && (step.Wait? ==> tagStack == old(tagStack) && memory == old(memory))
      ensures step == ContentStep(env, enc, old(Names(memory, tagStack)), mem[s..], !haveMore)
      ensures NamesOk(mem, memory, tagStack) && (!step.Fail? ==> tagLevel == |tagStack|)
    {
      hide ContentTok, StartTagStep, EndTagStep, Standard, NamesOk, CharRefNumber, ScanFrom, Names, DidToken;
      var w := mem[s..];
      eventPtr := Some(s);
      if t.tok.Open() {
        step := HandleOpen(w, s, t, haveMore);
        return;
      }
      var next := s + t.next;
      assert mem[s..next] == w[..t.next];
      if IsTag(t.tok) {
        TagByItself(enc, w);
        step := HandleTag(mem, s, next, t.tok.TokEmptyElementNoAtts? || t.tok.TokEmptyElementWithAtts?);
      } else if t.tok == TokEndTag {
        step := HandleEndTag(mem, s, next);
      } else {
        step := HandleOther(w, s, t, haveMore);
      }
    }

    /** A token that leaves the open elements as they are. */
    method HandleOther(w: Bytes, s: nat, t: Scan, haveMore: bool) returns (step: Action)
      requires Standard(enc) && t == ContentTok(enc, w) && !t.tok.Open() && !IsTag(t.tok) && t.tok != TokEndTag
      requires eventPtr == Some(s) && parseEndPtr <= parseEndByteIndex
      modifies this`calls, this`eventPtr
      ensures step == ContentStep(env, enc, Names(memory, tagStack), w, !haveMore)
      ensures DidToken(s, step, old(calls)) && !step.Wait?
    {
      hide ContentTok, Standard, CharRefNumber, ScanFrom, Names;
      var here := Position(false, Names(memory, tagStack));
      ghost var before := calls;
      assert before + Later(Offset(s), []) == before;
      var event: Event;
      match t.tok {
        case TokInvalid =>
          eventPtr := Some(s + t.next);
          return Fail(InvalidToken, t.next, []);
        case TokEntityRef =>
          var ch := PredefinedEntity(w[1..t.next - 1]);
          if ch == 0 { return Fail(UndefinedEntity, 0, []); }
          event := CharacterData([ch]);
        case TokCharRef =>
          CharRefInContent(enc, w);
          var n := ReadCharRefNumber(w[..t.next]);
          if n < 0 { return Fail(BadCharRef, 0, []); }
          event := CharacterData(Encode(n));
        case TokXmlDecl => return Fail(MisplacedXmlPi, 0, []);
        case TokDataNewline => event := CharacterData(NEWLINE);
        case TokDataChars => event := CharacterData(w[..t.next]);
        case TokCdataSectOpen =>
          event := StartCdataSection;
          here := here.(inCdata := true);
        case TokPi => event := ReportPi(w[..t.next]);
        case TokComment => event := ReportComment(w[..t.next]);
        case _ => return Go(t.next, [], here);
      }
      CallHandler(event);
      step := Go(t.next, Now(event), here);
      assert calls == before + Later(Offset(s), Now(event));
    }

    /** `reportProcessingInstruction` */
    method ReportPi(pi: Bytes) returns (event: Event)
      ensures event == PiEvent(enc, pi)
    {
      if |pi| < 4 { return ProcessingInstruction([], []); }
      var len := NameLength(enc, pi, 2);
      var tem, end := 2 + len, |pi| - 2;
      var target := pi[2..tem];
      if end < tem { return ProcessingInstruction(target, []); }
      var start := SkipS(pi, tem, end);
      var data := StoreLines(pi[start..end]);
      return ProcessingInstruction(target, data);
    }

    method SkipS(w: Bytes, ptr: nat, end: nat) returns (p: nat)
      requires ptr <= end <= |w|
      ensures p == SkipSpace(enc, w, ptr, end)
    {
      p := ptr;
      while p < end && IsSpaceType(enc.byteType(w[p]))
        invariant ptr <= p <= end && SkipSpace(enc, w, p, end) == SkipSpace(enc, w, ptr, end)
      {
        p := p + 1;
      }
    }

    /** `reportComment` */
    method ReportComment(comment: Bytes) returns (event: Event)
      ensures event == CommentEvent(comment)
    {
      if |comment| < 7 { return Comment([]); }
      var data := StoreLines(comment[4..|comment| - 3]);
      return Comment(data);
    }

    /** A copy of the text in the pool, with its line ends normalized. */
    method StoreLines(text: Bytes) returns (data: Bytes)
      ensures data == NormalizedLines(text)
    {
      var s := new Byte[|text|](i requires 0 <= i < |text| => text[i]);
      assert s[..] == text;
      var n := NormalizeLines(s);
      return s[..n];
    }

    /** A token that is not complete: more input is needed, or the document ends with it. */
    method HandleOpen(w: Bytes, s: nat, t: Scan, haveMore: bool) returns (step: Action)
      requires t == ContentTok(enc, w) && t.tok.Open() && eventPtr == Some(s) && parseEndPtr <= parseEndByteIndex
      modifies this`calls, this`eventPtr
      ensures step == ContentStep(env, enc, Names(memory, tagStack), w, !haveMore)
      ensures DidToken(s, step, old(calls)) && (step.Wait? || step.Fail?)
    {
      hide ContentTok;
      ghost var before := calls;
      assert before + Later(Offset(s), []) == before;
      if haveMore { return Wait; }
      if t.tok == TokTrailingCr {
        CallHandler(CharacterData(NEWLINE));
        assert calls == before + Later(Offset(s), Now(CharacterData(NEWLINE)));
        return Fail(NoElements, 0, Now(CharacterData(NEWLINE)));
      } else if t.tok == TokTrailingRsqb {
        CallHandler(CharacterData(w));
        assert calls == before + Later(Offset(s), Now(CharacterData(w)));
        eventPtr := Some(s + |w|);
        return Fail(NoElements, |w|, Now(CharacterData(w)));
      } else if t.tok == TokPartialChar {
        return Fail(Error.PartialChar, 0, []);
      }
      return Fail(if t.tok == TokNone then NoElements else UnclosedToken, 0, []);
    }

    /** What `DoContent` leaves behind, in terms of the report of the input. */
    ghost predicate DidContent(mem: Bytes, start: nat, r: Report, before: seq<Call>, result: Option<Error>, next: nat)
      requires start <= |mem| && parseEndPtr <= parseEndByteIndex
      reads this
    {
      && calls == before + Later(Offset(start), r.calls)
      && match r.end
         case NeedMore(at, rest) =>
           && result == None && start <= next <= |mem| && mem[next..] == rest && eventPtr == Some(next)
           && Names(memory, tagStack) == at.stack && NamesOk(mem, memory, tagStack) && tagLevel == |tagStack|
           && processor == if at.inCdata then CdataSectionProcessor else ContentProcessor
         case Closed(pos) =>
           result == None && next == start + pos <= |mem| && processor == EpilogProcessor && tagStack == []
             && NamesOk(mem, memory, [])
         case Failed(e, pos) => result == Some(e) && eventPtr == Some(start + pos)
    }

    /** Content until the input is used up, the root is closed, or an error. */
    method DoContent(mem: Bytes, start: nat, haveMore: bool) returns (result: Option<Error>, next: nat)
      requires ValidEnv(env) && Standard(enc) && start <= |mem| && processor == ContentProcessor
      requires NamesOk(mem, memory, tagStack) && tagLevel == |tagStack| && parseEndPtr <= parseEndByteIndex
      modifies this`tagStack, this`memory, this`tagLevel, this`calls, this`eventPtr, this`processor
      ensures
        var at := Position(false, old(Names(memory, tagStack)));
        DidContent(mem, start, Parse(env, enc, at, mem[start..], !haveMore), old(calls), result, next)
    {
      hide Parse, ContentStep, Standard, NamesOk, ContentTok, Names, After, CdataSectionStep, Later, DidContent,
        DidToken, LastReport;
      var s := start;
      ghost var all := Parse(env, enc, Position(false, Names(memory, tagStack)), mem[start..], !haveMore);
      ghost var before := calls;
      ghost var done: seq<Call> := [];
      AfterNothing(all);
      NothingLater(Offset(start));
      next := start;
      while true
        invariant start <= s <= |mem| && processor == ContentProcessor
        invariant NamesOk(mem, memory, tagStack) && tagLevel == |tagStack|
        invariant calls == before + Later(Offset(start), done)
        invariant all
          == After(s - start, done, Parse(env, enc, Position(false, Names(memory, tagStack)), mem[s..], !haveMore))
        decreases |mem| - s
      {
        ghost var at := Position(false, Names(memory, tagStack));
        var t := ReadContentTok(enc, mem[s..]);
        var step := HandleToken(mem, s, t, haveMore);
        StepIsParsed(mem, start, s, at, haveMore, done, step);
        match step {
          case Wait =>
            ContentIsOver(mem, start, s, at, before, done, step);
            return None, s;
          case Fail(e, _, _) =>
            ContentIsOver(mem, start, s, at, before, done, step);
            return Some(e), s;
          case Finish(n, _) =>
            processor := EpilogProcessor;
            ContentIsOver(mem, start, s, at, before, done, step);
            return None, s + n;
          case Go(n, cs, there) =>
            WentOn(mem, start, s, before, done, step);
            done := done + Later(s - start, cs);
            s := s + n;
            if there.inCdata {
              var startPtr;
              result, startPtr, next, done := DoCdataInContent(mem, s, haveMore, start, before, done, all);
              if result.Some? || startPtr.None? { return; }
              s := startPtr.value;
            }
        }
      }
    }

    /** The report of a run that has made the calls `done` and ends with the step at `s`. */
    ghost function LastReport(mem: Bytes, start: nat, s: nat, at: Position, done: seq<Call>, step: Action): Report
      requires start <= s <= |mem|
    {
      var n := s - start;
      match step
      case Finish(k, cs) => Report(done + Later(n, cs), Closed(n + k))
      case Fail(e, pos, cs) => Report(done + Later(n, cs), Failed(e, n + pos))
      case _ => Report(done, NeedMore(at, mem[s..]))
    }

    lemma StepIsParsed(mem: Bytes, start: nat, s: nat, at: Position, haveMore: bool, done: seq<Call>, step: Action)
      requires start <= s <= |mem| && !at.inCdata && step == ContentStep(env, enc, at.stack, mem[s..], !haveMore)
      ensures var all := After(s - start, done, Parse(env, enc, at, mem[s..], !haveMore));
        if step.Go? then
          && 0 < step.n <= |mem| - s
          && all == After(s - start + step.n, done + Later(s - start, step.calls),
                          Parse(env, enc, step.next, mem[s + step.n..], !haveMore))
        else all == LastReport(mem, start, s, at, done, step) && (step.Finish? ==> s + step.n <= |mem|)
    {
      hide ContentStep, Parse, After;
      ParseStep(env, enc, at, mem, s, !haveMore, s - start, done);
    }

    lemma ContentIsOver(mem: Bytes, start: nat, s: nat, at: Position, before: seq<Call>, done: seq<Call>, step: Action)
      requires start <= s <= |mem| && parseEndPtr <= parseEndByteIndex
      requires DidToken(s, step, before + Later(Offset(start), done)) && NamesOk(mem, memory, tagStack)
      requires match step
        case Go(_, _, _) => false
        case Wait =>
          processor == ContentProcessor && at == Position(false, Names(memory, tagStack)) && tagLevel == |tagStack|
        case Finish(n, _) => processor == EpilogProcessor && s + n <= |mem|
        case Fail(_, _, _) => true
      ensures var result := if step.Fail? then Some(step.error) else None;
        DidContent(mem, start, LastReport(mem, start, s, at, done, step), before, result,
                   if step.Finish? then s + step.n else s)
    {
      hide NamesOk, Names, Later;
      match step
      case Finish(_, cs) => LaterDone(start, s, done, cs);
      case Fail(_, _, cs) => LaterDone(start, s, done, cs);
      case Wait =>
    }

    lemma WentOn(mem: Bytes, start: nat, s: nat, before: seq<Call>, done: seq<Call>, step: Action)
      requires start <= s <= |mem| && parseEndPtr <= parseEndByteIndex && step.Go?
      requires DidToken(s, step, before + Later(Offset(start), done))
      ensures calls == before + Later(Offset(start), done + Later(s - start, step.calls))
      ensures Names(memory, tagStack) == step.next.stack
    {
      hide Names, Later;
      LaterDone(start, s, done, step.calls);
    }

    /** The section of a token that opens one. */
    method DoCdataInContent(mem: Bytes, s: nat, haveMore: bool, ghost start: nat, ghost before: seq<Call>,
                            ghost done: seq<Call>, ghost all: Report)
      returns (result: Option<Error>, startPtr: Option<nat>, next: nat, ghost done': seq<Call>)
      requires start <= s <= |mem| && parseEndPtr <= parseEndByteIndex && calls == before + Later(Offset(start), done)
      requires all
        == After(s - start, done, Parse(env, enc, Position(true, Names(memory, tagStack)), mem[s..], !haveMore))
      requires NamesOk(mem, memory, tagStack) && tagLevel == |tagStack|
      modifies this`calls, this`eventPtr, this`processor
      ensures result == None && startPtr.Some? ==>
        && processor == old(processor) && s < startPtr.value <= |mem| && calls == before + Later(Offset(start), done')
        && all == After(startPtr.value - start, done',
                        Parse(env, enc, Position(false, Names(memory, tagStack)), mem[startPtr.value..], !haveMore))
      ensures result.Some? || startPtr.None? ==> DidContent(mem, start, all, before, result, next)
    {
      hide Parse, Names, NamesOk, After, Later;
      ghost var more;
      result, startPtr, next, more := DoCdataSection(mem, s, haveMore);
      LaterDone(start, s, done, more);
      done' := done + Later(s - start, more);
      if result.Some? || startPtr.None? {
        AfterAfter(s - start, done, Parse(env, enc, Position(true, Names(memory, tagStack)), mem[s..], !haveMore));
        if result.None? { processor := CdataSectionProcessor; }
      } else {
        AfterTwice(s - start, done, startPtr.value - s, more,
                   Parse(env, enc, Position(false, Names(memory, tagStack)), mem[startPtr.value..], !haveMore));
      }
    }

    lemma NothingLater(n: nat)
      ensures Later(n, []) == []
    {
    }

    /** Calls at `s`, after those since `start`. */
    lemma LaterDone(start: nat, s: nat, done: seq<Call>, cs: seq<Call>)
      requires start <= s && parseEndPtr <= parseEndByteIndex
      ensures Later(Offset(start), done + Later(s - start, cs)) == Later(Offset(start), done) + Later(Offset(s), cs)
    {
      LaterAppend(Offset(start), done, Later(s - start, cs));
      LaterLater(Offset(start), s - start, cs);
    }

    /** A CDATA section: `startPtr` is where content goes on if the section is closed. */
    method DoCdataSection(mem: Bytes, start: nat, haveMore: bool)
      returns (result: Option<Error>, startPtr: Option<nat>, next: nat, ghost more: seq<Call>)
      requires start <= |mem| && parseEndPtr <= parseEndByteIndex
      modifies this`calls, this`eventPtr
      ensures calls == old(calls) + Later(Offset(start), more)
      ensures var r := Parse(env, enc, Position(true, Names(memory, tagStack)), mem[start..], !haveMore);
        match result
        case Some(e) => r.calls == more && r.end.Failed? && r.end.error == e && eventPtr == Some(start + r.end.pos)
        case None =>
          match startPtr
          case None =>
            start <= next <= |mem| && eventPtr == Some(next)
              && r == Report(more, NeedMore(Position(true, Names(memory, tagStack)), mem[next..]))
          case Some(k) =>
            start < k <= |mem| && next == k
            && r == After(k - start, more,
                          Parse(env, enc, Position(false, Names(memory, tagStack)), mem[k..], !haveMore))
    {
      hide Parse, CdataSectionStep, CdataSectionTok, ContentStep, Names, After, Later;
      var s := start;
      ghost var stack := Names(memory, tagStack);
      ghost var all := Parse(env, enc, Position(true, stack), mem[start..], !haveMore);
      more := [];
      AfterNothing(all);
      NothingLater(Offset(start));
      startPtr, next := None, start;
      while true
        invariant start <= s <= |mem|
        invariant calls == old(calls) + Later(Offset(start), more)
        invariant all == After(s - start, more, Parse(env, enc, Position(true, stack), mem[s..], !haveMore))
        decreases |mem| - s
      {
        var t := ReadCdataSectionTok(enc, mem[s..]);
        var step := HandleCdataToken(mem, s, t, haveMore, stack);
        ParseStep(env, enc, Position(true, stack), mem, s, !haveMore, s - start, more);
        match step {
          case Wait => return None, None, s, more;
          case Fail(e, _, cs) =>
            NothingLater(s - start);
            return Some(e), None, s, more;
          case Go(n, cs, there) =>
            LaterDone(start, s, more, cs);
            more := more + Later(s - start, cs);
            s := s + n;
            if !there.inCdata {
              assert there == Position(false, stack);
              return None, Some(s), s, more;
            }
          case Finish(_, _) =>
        }
      }
    }

    /** One token of a CDATA section: the switch in the loop of `DoCdataSection`. */
    method HandleCdataToken(mem: Bytes, s: nat, t: Scan, haveMore: bool, ghost stack: seq<Bytes>) returns (step: Action)
      requires s <= |mem| && t == CdataSectionTok(enc, mem[s..]) && stack == Names(memory, tagStack)
      requires parseEndPtr <= parseEndByteIndex
      modifies this`calls, this`eventPtr
      ensures step == CdataSectionStep(enc, stack, mem[s..], !haveMore) && !step.Finish?
      ensures match step
        case Go(_, cs, at) => calls == old(calls) + Later(Offset(s), cs) && at.stack == stack
        case Fail(_, pos, cs) => cs == [] && calls == old(calls) && eventPtr == Some(s + pos)
        case _ => calls == old(calls) && eventPtr == Some(s)
    {
      hide CdataSectionTok;
      var w := mem[s..];
      eventPtr := Some(s);
      if t.tok.Open() {
        if haveMore { return Wait; }
        return Fail(if t.tok == TokPartialChar then Error.PartialChar else UnclosedCdataSection, 0, []);
      }
      var here := Position(true, Names(memory, tagStack));
      var event: Event;
      if t.tok == TokCdataSectClose {
        event := EndCdataSection;
        here := here.(inCdata := false);
      } else if t.tok == TokDataNewline {
        event := CharacterData(NEWLINE);
      } else if t.tok == TokDataChars {
        event := CharacterData(w[..t.next]);
      } else {
        eventPtr := Some(s + t.next);
        return Fail(if t.tok == TokInvalid then InvalidToken else UnexpectedState, t.next, []);
      }
      ghost var before := calls;
      CallHandler(event);
      step := Go(t.next, Now(event), here);
      assert calls == before + Later(Offset(s), Now(event));
    }

    /** The raw names of open tags are copied out of the parse buffer. */
    method StoreRawNamesOfTags(mem: Bytes)
      requires NamesOk(mem, memory, tagStack)
      modifies this`tagStack, this`memory
      ensures SafeNames(memory, tagStack) && Names(memory, tagStack) == old(Names(memory, tagStack))
      ensures |tagStack| == |old(tagStack)|
    {
      hide NamesOk, Names, SafeNames;
      NamesAreTags(mem, memory, tagStack);
      var m, tags := StoreRawNames(mem, memory, tagStack);
      NamesAreSafe(mem, memory, tagStack, m, tags);
      memory, tagStack := m, tags;
    }

    method RunContentProcessor(mem: Bytes, start: nat, haveMore: bool) returns (result: Option<Error>, next: nat)
      requires ValidEnv(env) && Standard(enc) && start <= |mem| && processor == ContentProcessor
      requires NamesOk(mem, memory, tagStack) && tagLevel == |tagStack| && parseEndPtr <= parseEndByteIndex
      modifies this`tagStack, this`memory, this`tagLevel, this`calls, this`eventPtr, this`processor
      ensures Reports(mem, start, haveMore, Position(false, old(Names(memory, tagStack))), old(calls), result, next)
    {
      hide Parse, Standard, ContentTok, NamesOk, SafeNames, Names, Later;
      result, next := DoContent(mem, start, haveMore);
      if result.None? {
        StoreRawNamesOfTags(mem);
      }
    }

    method RunCdataSectionProcessor(mem: Bytes, start: nat, haveMore: bool) returns (result: Option<Error>, next: nat)
      requires ValidEnv(env) && Standard(enc) && start <= |mem| && processor == CdataSectionProcessor
      requires SafeNames(memory, tagStack) && tagLevel == |tagStack| && parseEndPtr <= parseEndByteIndex
      modifies this`tagStack, this`memory, this`tagLevel, this`calls, this`eventPtr, this`processor
      ensures Reports(mem, start, haveMore, Position(true, old(Names(memory, tagStack))), old(calls), result, next)
    {
      hide Parse, Standard, ContentTok, NamesOk, SafeNames, Names, Later, ValidEnv;
      var startPtr;
      ghost var more;
      result, startPtr, next, more := DoCdataSection(mem, start, haveMore);
      if startPtr.Some? && result.None? {
        ghost var r := Parse(env, enc, Position(false, Names(memory, tagStack)), mem[startPtr.value..], !haveMore);
        processor := ContentProcessor;
        SafeIsOk(mem, memory, tagStack);
        result, next := RunContentProcessor(mem, startPtr.value, haveMore);
        AfterAfter(startPtr.value - start, more, r);
        LaterDone(start, startPtr.value, more, r.calls);
      }
    }

    /** What a processor called at `start` leaves behind, in terms of the report of the input. */
    ghost predicate Reports(mem: Bytes, start: nat, haveMore: bool, at: Position, before: seq<Call>,
                            result: Option<Error>, next: nat)
      requires start <= |mem| && parseEndPtr <= parseEndByteIndex
      reads `calls, `eventPtr, `memory, `tagStack, `tagLevel, `processor, `parseEndPtr, `parseEndByteIndex
    {
      var r := Parse(env, enc, at, mem[start..], !haveMore);
      && calls == before + Later(Offset(start), r.calls)
      && match r.end
         case NeedMore(there, rest) =>
           && result == None && start <= next <= |mem| && mem[next..] == rest && eventPtr == Some(next)
           && Names(memory, tagStack) == there.stack && SafeNames(memory, tagStack) && tagLevel == |tagStack|
           && processor == if there.inCdata then CdataSectionProcessor else ContentProcessor
         case Closed(pos) => result == None && next == start + pos <= |mem| && processor == EpilogProcessor
         case Failed(e, pos) => result == Some(e) && eventPtr == Some(start + pos)
    }

    // ----- the buffer -----

    /** What the application has put in the buffer is the end of the input. */
    ghost predicate Window()
      reads this, buffer
    {
      && bufferPtr <= bufferEnd <= buffer.Length
      && bufferEnd <= |stream| == parseEndByteIndex
      && buffer[..bufferEnd] == stream[|stream| - bufferEnd..]
      && parseEndPtr <= parseEndByteIndex && (eventPtr.Some? ==> parseEndPtr == bufferEnd)
    }

    /** How much of the input has been used. */
    ghost function Consumed(): nat
      requires bufferPtr <= bufferEnd <= |stream|
      reads this
    {
      |stream| - (bufferEnd - bufferPtr)
    }

    /** The unused input, as it stands in the buffer. */
    ghost function Left(): Bytes
      requires bufferPtr <= bufferEnd <= buffer.Length
      reads this, buffer
    {
      buffer[bufferPtr..bufferEnd]
    }

    lemma LeftIsRest()
      requires Window()
      ensures Left() == stream[Consumed()..]
    {
      assert stream[|stream| - bufferEnd..][bufferPtr..] == stream[Consumed()..];
      assert buffer[..bufferEnd][bufferPtr..] == Left();
    }

    /** The bytes from `offset` on are moved to the front of the buffer. */
    method MoveDown(offset: nat)
      requires Window() && offset <= bufferPtr
      modifies this`bufferPtr, this`bufferEnd, this`eventPtr, buffer
      ensures Window() && eventPtr == None
      ensures bufferPtr == old(bufferPtr) - offset && bufferEnd == old(bufferEnd) - offset
    {
      ghost var before := buffer[..];
      forall i | 0 <= i < bufferEnd - offset {
        buffer[i] := buffer[offset + i];
      }
      assert buffer[..bufferEnd - offset] == before[offset..bufferEnd];
      WindowMoved(before, buffer[..], bufferEnd, offset, stream);
      bufferEnd := bufferEnd - offset;
      bufferPtr := bufferPtr - offset;
      eventPtr := None;
    }

    /** A new buffer with the bytes from `offset` on. */
    method CopyFrom(offset: nat, size: nat) returns (newBuf: array<Byte>)
      requires offset <= bufferEnd <= buffer.Length && bufferEnd - offset <= size
      ensures fresh(newBuf) && newBuf.Length == size
        && newBuf[..][..bufferEnd - offset] == buffer[..][offset..bufferEnd]
    {
      newBuf := new Byte[size](_ => 0);
      forall i | 0 <= i < bufferEnd - offset {
        newBuf[i] := buffer[offset + i];
      }
    }

    /** The size of a new buffer. */
    method NewSize(size: nat, neededSize: nat) returns (bufferSize: nat)
      ensures neededSize <= bufferSize && size < bufferSize
    {
      bufferSize := size;
      if bufferSize == 0 { bufferSize := INIT_BUFFER_SIZE; }
      bufferSize := bufferSize * 2;
      while bufferSize < neededSize
        invariant size < bufferSize
        decreases neededSize - bufferSize
      {
        bufferSize := bufferSize * 2;
      }
    }

    /** The bytes from `offset` on are moved to a new buffer, twice as large as need be or more. */
    method Reallocate(neededSize: nat, offset: nat)
      requires Window() && offset <= bufferPtr && bufferEnd - offset <= neededSize
      modifies this`buffer, this`bufferPtr, this`bufferEnd, this`eventPtr
      ensures Window() && eventPtr == None
      ensures fresh(buffer) && neededSize <= buffer.Length
      ensures bufferPtr == old(bufferPtr) - offset && bufferEnd == old(bufferEnd) - offset
    {
      var bufferSize := NewSize(buffer.Length - bufferPtr, neededSize);
      var newBuf := CopyFrom(offset, bufferSize);
      WindowMoved(buffer[..], newBuf[..], bufferEnd, offset, stream);
      assert buffer[..][..bufferEnd] == buffer[..bufferEnd]
        && newBuf[..][..bufferEnd - offset] == newBuf[..bufferEnd - offset];
      buffer := newBuf;
      bufferEnd := bufferEnd - offset;
      bufferPtr := bufferPtr - offset;
      eventPtr := None;
    }

    /**
     Makes room for `len` more bytes.  If there is not enough, the buffer moves; then all unused
     input and up to XML_CONTEXT_BYTES of the input before it are kept, and nothing else.
     */
    method GetBuffer(len: nat) returns (ok: bool)
      requires Window()
      modifies this`buffer, this`bufferPtr, this`bufferEnd, this`eventPtr, this`errorCode, buffer
      ensures Window() && ok == !finished && (buffer == old(buffer) || fresh(buffer))
      ensures ok ==> bufferEnd + len <= buffer.Length
      ensures Consumed() == old(Consumed()) && Left() == old(Left())
      ensures var moved := ok && len > old(buffer.Length - bufferEnd);
        && (moved ==> eventPtr == None)
        && (!moved ==> eventPtr == old(eventPtr) && buffer == old(buffer))
        && bufferPtr == if moved && old(bufferPtr) > XML_CONTEXT_BYTES then XML_CONTEXT_BYTES else old(bufferPtr)
      ensures ok ==> errorCode == old(errorCode)
    {
      if finished {
        errorCode := Some(Finished);
        return false;
      }
      LeftIsRest();
      if len > buffer.Length - bufferEnd {
        var keep := if bufferPtr > XML_CONTEXT_BYTES then XML_CONTEXT_BYTES else bufferPtr;
        var neededSize := len + (bufferEnd - bufferPtr) + keep;
        if neededSize <= buffer.Length {
          if keep < bufferPtr {
            MoveDown(bufferPtr - keep);
          }
        } else {
          Reallocate(neededSize, bufferPtr - keep);
        }
        eventPtr := None;
      }
      LeftIsRest();
      return true;
    }

    // ----- the calls of the application -----

    /** Content is still being read. */
    predicate Open()
      reads this
    {
      processor == ContentProcessor || processor == CdataSectionProcessor
    }

    function At(): Position
      reads this
    {
      Position(processor == CdataSectionProcessor, Names(memory, tagStack))
    }

    /**
     What holds between two calls: no raw name is in the buffer, the unused input is not yet a token, and the
     byte index, if there is one, is where it starts.
     */
    ghost predicate Valid()
      reads this, buffer
    {
      && Window() && ValidEnv(env) && Standard(enc)
      && (Open() ==>
           SafeNames(memory, tagStack) && tagLevel == |tagStack| && NextStep(env, enc, At(), Left(), false) == Wait)
      && (Open() && eventPtr.Some? ==> ByteIndex() == Consumed())
      && (processor == ErrorProcessor ==> errorCode.Some?)
      && (finished ==> !Open())
    }

    constructor (env: Env, enc: Encoding)
      requires ValidEnv(env) && Standard(enc)
      ensures this.env == env && this.enc == enc && fresh(buffer)
      ensures Valid() && Open() && At() == Position(false, []) && Left() == [] && !finished && calls == []
    {
      this.env, this.enc := env, enc;
      tagStack, memory, tagLevel, processor := [], NO_MEMORY, 0, ContentProcessor;
      errorCode, calls, eventPtr := None, [], None;
      buffer := new Byte[0];
      bufferPtr, bufferEnd, parseEndPtr, parseEndByteIndex := 0, 0, 0, 0;
      finished, stream := false, [];
      new;
      StartIsValid();
    }

    lemma StartIsWindow()
      requires bufferPtr == bufferEnd == parseEndByteIndex == parseEndPtr == 0 && stream == [] && eventPtr == None
      ensures Window() && Left() == []
    {
    }

    /** A parser that has not been given anything. */
    lemma StartIsValid()
      requires ValidEnv(env) && Standard(enc) && tagStack == [] && memory == NO_MEMORY && tagLevel == 0
      requires processor == ContentProcessor && eventPtr == None
      requires bufferPtr == bufferEnd == parseEndByteIndex == parseEndPtr == 0 && stream == [] && !finished
      ensures Valid() && Open() && At() == Position(false, []) && Left() == []
    {
      hide NextStep, Standard, ValidEnv, SafeNames;
      NothingWaits(env, enc, []);
      NothingStored(memory);
      StartIsWindow();
      hide Window, Left;
      assert Names(memory, []) == [];
    }

    /** What a call did with the input `w` behind `used` bytes: the report of the input is acted upon. */
    ghost predicate Answers(at: Position, w: Bytes, isFinal: bool, before: seq<Call>, used: nat, ok: bool)
      requires bufferPtr <= bufferEnd <= |stream| && bufferEnd <= buffer.Length
      reads this, buffer
    {
      var r := Parse(env, enc, at, w, isFinal);
      && calls == before + Later(used, r.calls)
      && match r.end
         case NeedMore(there, rest) =>
           && ok && Open() && !finished && At() == there && Left() == rest
           && Consumed() == used + |w| - |rest|
         case Closed(pos) => ok && processor == EpilogProcessor && finished == isFinal && Consumed() == used + pos
         case Failed(e, pos) => !ok && processor == ErrorProcessor && errorCode == Some(e) && ByteIndex() == used + pos
    }

    /** The call of `processor`; what stands behind the root element is left alone. */
    method RunProcessor(mem: Bytes, start: nat, haveMore: bool) returns (result: Option<Error>, next: nat)
      requires ValidEnv(env) && Standard(enc) && start <= |mem| && parseEndPtr <= parseEndByteIndex
      requires Open() ==> SafeNames(memory, tagStack) && tagLevel == |tagStack|
      modifies this`tagStack, this`memory, this`tagLevel, this`calls, this`eventPtr, this`processor
      ensures old(Open()) ==> Reports(mem, start, haveMore, old(At()), old(calls), result, next)
      ensures !old(Open()) ==>
        calls == old(calls) && processor == old(processor) && next == start && eventPtr == old(eventPtr)
      ensures !old(Open()) ==> result == if processor == ErrorProcessor then errorCode else None
    {
      hide Parse, SafeNames, NamesOk, Names, Standard, Later;
      result, next := None, start;
      if processor == ContentProcessor {
        SafeIsOk(mem, memory, tagStack);
        result, next := RunContentProcessor(mem, start, haveMore);
      } else if processor == CdataSectionProcessor {
        result, next := RunCdataSectionProcessor(mem, start, haveMore);
      } else if processor == ErrorProcessor {
        result := errorCode;
      }
    }

    /** The `len` bytes behind `bufferEnd` become input. */
    method AddInput(len: nat)
      requires Window() && bufferEnd + len <= buffer.Length
      modifies this`bufferEnd, this`parseEndPtr, this`parseEndByteIndex, this`stream
      ensures Window() && Consumed() == old(Consumed())
      ensures bufferEnd == parseEndPtr == old(bufferEnd) + len
      ensures var fed := buffer[old(bufferEnd)..bufferEnd];
        stream == old(stream) + fed && Left() == old(Left()) + fed && buffer[..bufferEnd][bufferPtr..] == Left()
    {
      ghost var fed := buffer[bufferEnd..bufferEnd + len];
      assert buffer[..bufferEnd + len] == buffer[..bufferEnd] + fed;
      stream := stream + fed;
      bufferEnd := bufferEnd + len;
      parseEndPtr := bufferEnd;
      parseEndByteIndex := parseEndByteIndex + len;
      assert stream[|stream| - bufferEnd..] == old(stream[|stream| - bufferEnd..]) + fed;
    }

    /** The processor takes the input, and the parser goes on, finishes or remembers the error. */
    method Process(isFinal: bool) returns (ok: bool)
      requires Window() && ValidEnv(env) && Standard(enc) && !finished && parseEndPtr == bufferEnd
      requires Open() ==> SafeNames(memory, tagStack) && tagLevel == |tagStack|
      requires processor == ErrorProcessor ==> errorCode.Some?
      modifies this`tagStack, this`memory, this`tagLevel, this`calls, this`eventPtr, this`processor, this`errorCode,
        this`bufferPtr, this`finished
      ensures Valid()
      ensures old(Open()) ==> Answers(old(At()), old(Left()), isFinal, old(calls), old(Consumed()), ok)
      ensures ok && Open() ==> ByteIndex() == Consumed()
      ensures !old(Open()) ==> calls == old(calls) && processor == old(processor)
    {
      hide Parse, NextStep, SafeNames, NamesOk, Names, Standard, ValidEnv, Later;
      var start := bufferPtr;
      ghost var at, before, wasOpen := At(), calls, Open();
      var mem := buffer[..bufferEnd];
      assert mem[start..] == Left();
      var result, next := RunProcessor(mem, start, !isFinal);
      errorCode := result;
      if result.Some? {
        Reject(mem, next, isFinal, wasOpen, at, before);
        return false;
      }
      Accept(mem, next, isFinal, wasOpen, at, before);
      return true;
    }

    /** The error is remembered, and no more input is read. */
    method Reject(mem: Bytes, next: nat, isFinal: bool, ghost wasOpen: bool, ghost at: Position,
                  ghost before: seq<Call>)
      requires Window() && ValidEnv(env) && Standard(enc) && !finished && parseEndPtr == bufferEnd && errorCode.Some?
      requires mem == buffer[..bufferEnd]
      requires wasOpen ==> Reports(mem, bufferPtr, !isFinal, at, before, errorCode, next)
      modifies this`processor
      ensures Valid() && !Open() && processor == ErrorProcessor
      ensures wasOpen ==> Answers(at, Left(), isFinal, before, Consumed(), false)
    {
      hide Parse, NextStep, SafeNames, NamesOk, Names, Standard, ValidEnv, Later;
      processor := ErrorProcessor;
      assert mem[bufferPtr..] == Left();
    }

    /** The input up to `next` has been used. */
    method Accept(mem: Bytes, next: nat, isFinal: bool, ghost wasOpen: bool, ghost at: Position,
                  ghost before: seq<Call>)
      requires Window() && ValidEnv(env) && Standard(enc) && !finished && parseEndPtr == bufferEnd
      requires mem == buffer[..bufferEnd]
      requires
        if wasOpen then Reports(mem, bufferPtr, !isFinal, at, before, None, next) else next == bufferPtr && !Open()
      requires processor == ErrorProcessor ==> errorCode.Some?
      modifies this`bufferPtr, this`finished
      ensures Valid() && (Open() ==> ByteIndex() == Consumed())
      ensures wasOpen ==> Answers(at, old(Left()), isFinal, before, old(Consumed()), true)
    {
      hide Parse, NextStep, SafeNames, NamesOk, Names, Standard, ValidEnv, Later, Answers, Reports, Valid;
      ghost var start, used := bufferPtr, Consumed();
      assert mem[start..] == Left();
      UsedUpTo(mem, start, isFinal, wasOpen, at, before, next);
      bufferPtr := next;
      assert mem[next..] == Left();
      if isFinal { finished := true; }
      StillValid(mem, start, isFinal, wasOpen, at, before);
      if wasOpen { InputIsAnswered(mem, start, isFinal, at, before, used); }
    }

    lemma UsedUpTo(mem: Bytes, start: nat, isFinal: bool, wasOpen: bool, at: Position, before: seq<Call>, next: nat)
      requires start <= |mem| && parseEndPtr <= parseEndByteIndex
      requires if wasOpen then Reports(mem, start, !isFinal, at, before, None, next) else next == start
      ensures start <= next <= |mem|
    {
      hide Parse, SafeNames, Names, Later;
    }

    lemma StillValid(mem: Bytes, start: nat, isFinal: bool, wasOpen: bool, at: Position, before: seq<Call>)
      requires Window() && ValidEnv(env) && Standard(enc) && parseEndPtr == bufferEnd && finished == isFinal
      requires start <= |mem| == bufferEnd && mem[bufferPtr..] == Left()
      requires if wasOpen then Reports(mem, start, !isFinal, at, before, None, bufferPtr) else !Open()
      requires processor == ErrorProcessor ==> errorCode.Some?
      ensures Valid() && (Open() ==> ByteIndex() == Consumed())
    {
      hide Parse, NextStep, SafeNames, NamesOk, Names, Standard, ValidEnv, Later;
      LeftWaits(env, enc, at, mem[start..], isFinal);
    }

    lemma InputIsAnswered(mem: Bytes, start: nat, isFinal: bool, at: Position, before: seq<Call>, used: nat)
      requires bufferPtr <= bufferEnd <= buffer.Length && bufferEnd <= |stream| == parseEndByteIndex
      requires parseEndPtr == bufferEnd && start <= |mem| == bufferEnd && mem[bufferPtr..] == Left()
      requires finished == isFinal && used + bufferEnd == |stream| + start
      requires Reports(mem, start, !isFinal, at, before, None, bufferPtr)
      ensures Answers(at, mem[start..], isFinal, before, used, true)
    {
      hide Parse, NextStep, SafeNames, NamesOk, Names, Standard, ValidEnv, Later;
    }

    /** What stands behind `bufferEnd` becomes input and is processed. */
    method ParseInput(len: nat, isFinal: bool) returns (ok: bool)
      requires Valid() && bufferEnd + len <= buffer.Length && !finished
      modifies this
      ensures Valid() && buffer == old(buffer)
      ensures stream == old(stream) + buffer[old(bufferEnd)..old(bufferEnd) + len]
      ensures old(Open()) ==>
        Answers(old(At()), old(Left()) + buffer[old(bufferEnd)..old(bufferEnd) + len], isFinal, old(calls),
                old(Consumed()), ok)
      ensures ok && Open() ==> ByteIndex() == Consumed()
      ensures !old(Open()) ==> calls == old(calls) && processor == old(processor)
    {
      hide Parse, NextStep, SafeNames, NamesOk, Names, Standard, Answers, ValidEnv, Later;
      AddInput(len);
      ok := Process(isFinal);
    }

    /** `XML_ParseBuffer`: the `len` bytes behind `bufferEnd` are new input. */
    method ParseBuffer(len: nat, isFinal: bool) returns (ok: bool)
      requires Valid() && bufferEnd + len <= buffer.Length
      modifies this
      ensures Valid() && buffer == old(buffer)
      ensures old(finished) ==> !ok && errorCode == Some(Finished) && stream == old(stream) && calls == old(calls)
      ensures !old(finished) ==> stream == old(stream) + buffer[old(bufferEnd)..old(bufferEnd) + len]
      ensures !old(finished) && old(Open()) ==>
        Answers(old(At()), old(Left()) + buffer[old(bufferEnd)..old(bufferEnd) + len], isFinal, old(calls),
                old(Consumed()), ok)
      ensures !old(finished) && ok && Open() ==> ByteIndex() == Consumed()
      ensures !old(finished) && !old(Open()) ==> calls == old(calls) && processor == old(processor)
    {
      hide Parse, NextStep, SafeNames, NamesOk, Names, Standard, Answers, ValidEnv, Later;
      if finished {
        errorCode := Some(Finished);
        return false;
      }
      ok := ParseInput(len, isFinal);
    }

    /** `XML_Parse`: the input is copied to the buffer; no input that is not the end is nothing at all. */
    method Feed(s: Bytes, isFinal: bool) returns (ok: bool)
      requires Valid()
      modifies this, buffer
      ensures Valid() && (buffer == old(buffer) || fresh(buffer))
      ensures old(finished) ==> !ok && errorCode == Some(Finished) && stream == old(stream) && calls == old(calls)
      ensures !old(finished) ==> stream == old(stream) + s
      ensures !old(finished) && old(Open()) ==>
        Answers(old(At()), old(Left()) + s, isFinal, old(calls), old(Consumed()), ok)
      ensures !old(finished) && s != [] && ok && Open() ==> ByteIndex() == Consumed()
      ensures !old(finished) && !old(Open()) ==> calls == old(calls) && processor == old(processor)
    {
      hide Parse, NextStep, SafeNames, Names, Standard, Answers, ValidEnv;
      if finished {
        errorCode := Some(Finished);
        return false;
      }
      if s == [] {
        ok := FeedNothing(isFinal);
        return;
      }
      Receive(s);
      ok := ParseBuffer(|s|, isFinal);
    }

    /** No input: nothing at all, if it is not the end. */
    method FeedNothing(isFinal: bool) returns (ok: bool)
      requires Valid() && !finished
      modifies this
      ensures Valid() && buffer == old(buffer) && stream == old(stream)
      ensures old(Open()) ==> Answers(old(At()), old(Left()) + [], isFinal, old(calls), old(Consumed()), ok)
      ensures !old(Open()) ==> calls == old(calls) && processor == old(processor)
    {
      hide Parse, NextStep, SafeNames, Names, Standard, Answers, ValidEnv;
      assert stream + [] == stream && Left() + [] == Left();
      if !isFinal {
        if Open() { AnswersNothing(); }
        return true;
      }
      assert buffer[bufferEnd..bufferEnd] == [];
      ok := ParseBuffer(0, isFinal);
    }

    lemma AnswersNothing()
      requires Valid() && Open() && !finished
      ensures Answers(At(), Left(), false, calls, Consumed(), true)
    {
      hide NextStep, Parse, SafeNames, Standard, ValidEnv, Names;
      RunWaits(env, enc, At(), Left());
      NothingLater(Consumed());
    }

    /** Room is made and the input copied there; it is not read yet. */
    method Receive(s: Bytes)
      requires Valid() && !finished
      modifies this`buffer, this`bufferPtr, this`bufferEnd, this`eventPtr, this`errorCode, buffer
      ensures Valid() && (buffer == old(buffer) || fresh(buffer))
      ensures Left() == old(Left()) && Consumed() == old(Consumed())
      ensures bufferEnd + |s| <= buffer.Length && buffer[bufferEnd..bufferEnd + |s|] == s
    {
      hide NextStep, SafeNames, Names, Standard, ValidEnv;
      var _ := GetBuffer(|s|);
      Write(s);
    }

    /** `memcpy` to the free end of the buffer. */
    method Write(s: Bytes)
      requires Window() && bufferEnd + |s| <= buffer.Length
      modifies buffer
      ensures Window() && Left() == old(Left()) && Consumed() == old(Consumed())
      ensures buffer[bufferEnd..bufferEnd + |s|] == s
    {
      forall i | 0 <= i < |s| {
        buffer[bufferEnd + i] := s[i];
      }
      assert buffer[..bufferEnd] == old(buffer[..bufferEnd]);
    }

    /** What has become of the input behind the first `used` bytes. */
    ghost function Outcome(used: int): End
      requires bufferPtr <= bufferEnd <= |stream| && bufferEnd <= buffer.Length
      reads this, buffer
    {
      if processor == ErrorProcessor && errorCode.Some? && ByteIndex() >= used then
        Failed(errorCode.value, ByteIndex() - used)
      else if processor == EpilogProcessor && Consumed() >= used then Closed(Consumed() - used)
      else NeedMore(At(), Left())
    }

    /** One piece of a document: the rest of it is still to come, or the parse is over. */
    method FeedNext(chunks: seq<Bytes>) returns (goOn: bool, ghost more: seq<Call>)
      requires Valid() && Open() && chunks != []
      modifies this, buffer
      ensures Valid() && (buffer == old(buffer) || fresh(buffer))
      ensures calls == old(calls) + Later(old(Consumed()), more)
      ensures var all := ParseChunks(env, enc, old(At()), old(Left()), chunks);
        if goOn then
          && Open() && |chunks| > 1 && old(Consumed()) <= Consumed()
          && all == After(Consumed() - old(Consumed()), more, ParseChunks(env, enc, At(), Left(), chunks[1..]))
        else all == Report(more, Outcome(old(Consumed()))) && !all.end.NeedMore?
    {
      hide Parse, NextStep, SafeNames, Names, Standard, ValidEnv, Answers, After, Later;
      ghost var at, w, before, used := At(), Left() + chunks[0], calls, Consumed();
      more := Parse(env, enc, at, w, |chunks| == 1).calls;
      var ok := Feed(chunks[0], |chunks| == 1);
      AnswersSay(at, w, |chunks| == 1, before, used, ok);
      goOn := ok && Open();
    }

    lemma AnswersSay(at: Position, w: Bytes, isFinal: bool, before: seq<Call>, used: nat, ok: bool)
      requires bufferPtr <= bufferEnd <= |stream| && bufferEnd <= buffer.Length
      requires Answers(at, w, isFinal, before, used, ok)
      ensures var r := Parse(env, enc, at, w, isFinal);
        && calls == before + Later(used, r.calls)
        && (ok && Open() <==> r.end.NeedMore?)
        && if r.end.NeedMore? then
             !isFinal && At() == r.end.at && Left() == r.end.rest && used <= Consumed()
               && Consumed() - used == |w| - |r.end.rest|
           else r.end == Outcome(used)
    {
      hide Parse;
    }

    /**
     A document that comes in pieces: the last one is final, and an error or the end of the root ends it all.
     The calls of the handlers, each with its offset, are those of the report `r`, which is that of the
     document in one piece.
     */
    method FeedAll(chunks: seq<Bytes>) returns (ghost r: Report)
      requires Valid() && Open() && chunks != []
      modifies this, buffer
      ensures Valid() && calls == old(calls) + Later(old(Consumed()), r.calls) && r.end == Outcome(old(Consumed()))
      ensures IsReportOf(env, enc, old(At()), old(Left()) + Concat(chunks), true, r)
      ensures Nesting.ReportNests(old(At()), r)
    {
      hide Parse, ParseChunks, IsReportOf, NextStep, Names, SafeNames, Standard, ValidEnv, After, Later,
           Nesting.ReportNests;
      ghost var at, left, before, used := At(), Left(), calls, Consumed();
      ChunksDoNotMatter(env, enc, at, left, chunks);
      Nesting.ChunksNest(env, enc, at, left, chunks);
      r := ParseChunks(env, enc, at, left, chunks);
      ghost var done: seq<Call> := [];
      AfterNothing(r);
      NothingLater(used);
      var todo := chunks;
      while true
        invariant todo != [] && Valid() && Open() && (buffer == old(buffer) || fresh(buffer))
        invariant calls == before + Later(used, done) && used <= Consumed()
        invariant r == After(Consumed() - used, done, ParseChunks(env, enc, At(), Left(), todo))
        decreases |todo|
      {
        ghost var n, rest := Consumed() - used, ParseChunks(env, enc, At(), Left(), todo);
        AfterAfter(n, done, rest);
        ghost var more;
        var goOn;
        goOn, more := FeedNext(todo);
        LaterOn(used, n, done, more);
        if !goOn {
          return;
        }
        todo := todo[1..];
        AfterTwice(n, done, Consumed() - used - n, more, ParseChunks(env, enc, At(), Left(), todo));
        done := done + Later(n, more);
      }
    }
  }

  lemma LaterOn(used: nat, n: nat, done: seq<Call>, more: seq<Call>)
    ensures Later(used, done + Later(n, more)) == Later(used, done) + Later(used + n, more)
  {
    LaterAppend(used, done, Later(n, more));
    LaterLater(used, n, more);
  }

  lemma NothingStored(m: Memory)
    requires m == NO_MEMORY
    ensures SafeNames(m, [])
  {
    forall mem
      ensures NamesOk(mem, m, [])
    {
      NoNames(mem);
    }
  }

  /** At the beginning of the input there is no token. */
  lemma NothingWaits(env: Env, enc: Encoding, stack: seq<Bytes>)
    ensures NextStep(env, enc, Position(false, stack), [], false) == Wait
  {
  }

  lemma SafeIsOk(mem: Bytes, m: Memory, tags: seq<Tag>)
    requires SafeNames(m, tags)
    ensures NamesOk(mem, m, tags)
  {
  }

  lemma NamesAreTags(mem: Bytes, m: Memory, tags: seq<Tag>)
    requires NamesOk(mem, m, tags)
    ensures TagsOk(mem, m, tags)
  {
  }

  /** Input that a run leaves over is not yet a token. */
  lemma {:induction false} LeftWaits(env: Env, enc: Encoding, at: Position, w: Bytes, final: bool)
    ensures var r := Parse(env, enc, at, w, final);
      r.end.NeedMore? ==> NextStep(env, enc, r.end.at, r.end.rest, false) == Wait
    decreases |w|
  {
    hide NextStep;
    StepAdvances(env, enc, at, w, final);
    match NextStep(env, enc, at, w, final)
    case Go(n, _, next) => LeftWaits(env, enc, next, w[n..], final);
    case _ =>
  }

  /** A copy of the end of the input is still the end of the input. */
  lemma WindowMoved(before: Bytes, after: Bytes, end: nat, offset: nat, stream: Bytes)
    requires offset <= end <= |before| && end <= |stream| && end - offset <= |after|
    requires before[..end] == stream[|stream| - end..] && after[..end - offset] == before[offset..end]
    ensures after[..end - offset] == stream[|stream| - (end - offset)..]
  {
    assert before[..end][offset..] == before[offset..end];
    assert stream[|stream| - end..][offset..] == stream[|stream| - (end - offset)..];
  }

  lemma CharRefInContent(enc: Encoding, w: Bytes)
    requires Standard(enc) && ContentTok(enc, w).tok == TokCharRef
    ensures IsCharRef(w[..ContentTok(enc, w).next])
  {
    hide ScanFrom, Standard;
    if enc.byteType(w[0]) == BtLt {
      MarkupIsNoRef(enc, w, 1, AfterLt);
    } else {
      CharRefIsNumeral(enc, w);
    }
  }
}
