/** Every end of an element that is reported is that of the innermost open one. */
module Nesting {
  import opened Encodings
  import opened Errors
  import opened Automaton
  import opened AttributeValues
  import opened Content
  import opened ChunkIndependence

  /** The elements that are open after the calls, or nothing if an end is not that of the innermost one. */
  function Nest(open: seq<Bytes>, calls: seq<Call>): Option<seq<Bytes>>
    decreases |calls|
  {
    if calls == [] then Some(open)
    else
      var e := calls[0].event;
      if e.StartElement? then Nest(open + [e.name], calls[1..])
      else if !e.EndElement? then Nest(open, calls[1..])
      else if Closes(open, e) then Nest(open[..|open| - 1], calls[1..])
      else None
  }

  predicate Closes(open: seq<Bytes>, e: Event)
    requires e.EndElement?
  {
    open != [] && open[|open| - 1] == e.name
  }

  lemma {:induction false} NestAppend(open: seq<Bytes>, a: seq<Call>, b: seq<Call>)
    ensures Nest(open, a + b) == match Nest(open, a) case None => None case Some(mid) => Nest(mid, b)
    decreases |a|
  {
    if a == [] {
      assert a + b == b;
    } else {
      assert (a + b)[1..] == a[1..] + b;
      var e := a[0].event;
      if e.StartElement? {
        NestAppend(open + [e.name], a[1..], b);
      } else if !e.EndElement? {
        NestAppend(open, a[1..], b);
      } else if Closes(open, e) {
        NestAppend(open[..|open| - 1], a[1..], b);
      }
    }
  }

  lemma {:induction false} NestLater(open: seq<Bytes>, n: nat, calls: seq<Call>)
    ensures Nest(open, Later(n, calls)) == Nest(open, calls)
    decreases |calls|
  {
    if calls != [] {
      assert Later(n, calls)[1..] == Later(n, calls[1..]);
      var e := calls[0].event;
      if e.StartElement? {
        NestLater(open + [e.name], n, calls[1..]);
      } else if !e.EndElement? {
        NestLater(open, n, calls[1..]);
      } else if Closes(open, e) {
        NestLater(open[..|open| - 1], n, calls[1..]);
      }
    }
  }

  lemma OneCall(open: seq<Bytes>, c: Call)
    ensures Nest(open, [c]) ==
      if c.event.StartElement? then Some(open + [c.event.name])
      else if !c.event.EndElement? then Some(open)
      else if Closes(open, c.event) then Some(open[..|open| - 1])
      else None
  {
    assert [c][1..] == [];
  }

  /** How the open elements and the stack of the parser go on together in a step. */
  predicate StepNests(at: Position, s: Action) {
    match s
    case Go(_, calls, next) => Nest(at.stack, calls) == Some(next.stack)
    case Wait => true
    case Finish(_, calls) => Nest(at.stack, calls) == Some([])
    case Fail(_, _, calls) => Nest(at.stack, calls) == Some(at.stack)
  }

  lemma StartTagNests(env: Env, enc: Encoding, tag: Bytes, empty: bool, stack: seq<Bytes>)
    requires tag != []
    ensures StepNests(Position(false, stack), StartTagStep(env, enc, tag, empty, stack))
  {
    hide StoreAtts, AttsErrorPlace, Nest;
    NoCall(stack);
    match StartTagStep(env, enc, tag, empty, stack)
    case Fail(_, _, _) =>
    case Go(_, calls, _) =>
      OneCall(stack, calls[0]);
      if empty { NestEmpty(stack, calls); }
    case Finish(_, calls) => NestEmpty(stack, calls);
  }

  lemma NestEmpty(open: seq<Bytes>, calls: seq<Call>)
    requires |calls| == 2 && calls[0].event.StartElement? && calls[1].event == EndElement(calls[0].event.name)
    ensures Nest(open, calls) == Some(open)
  {
    var inner := open + [calls[0].event.name];
    assert inner[..|inner| - 1] == open && calls[1..] == [calls[1]];
    OneCall(inner, calls[1]);
  }

  lemma EndTagNests(enc: Encoding, tag: Bytes, stack: seq<Bytes>)
    requires |tag| >= 2
    ensures StepNests(Position(false, stack), EndTagStep(enc, tag, stack))
  {
    hide Nest;
    NoCall(stack);
    if stack != [] { OneCall(stack, Call(EndElement(stack[|stack| - 1]), 0)); }
  }

  lemma NoCall(open: seq<Bytes>)
    ensures Nest(open, []) == Some(open)
  {
  }

  lemma DataNests(open: seq<Bytes>, e: Event)
    requires !e.StartElement? && !e.EndElement?
    ensures Nest(open, Now(e)) == Some(open)
  {
    OneCall(open, Call(e, 0));
  }

  lemma StepKeepsNesting(env: Env, enc: Encoding, at: Position, w: Bytes, final: bool)
    ensures StepNests(at, NextStep(env, enc, at, w, final))
  {
    hide Nest, StartTagStep, EndTagStep, ContentTok, CdataSectionTok;
    NoCall(at.stack);
    forall e: Event | !e.StartElement? && !e.EndElement?
      ensures Nest(at.stack, Now(e)) == Some(at.stack)
    {
      DataNests(at.stack, e);
    }
    if !at.inCdata {
      var t := ContentTok(enc, w);
      if IsStartTag(t.tok) {
        StartTagNests(env, enc, w[..t.next], t.tok.TokEmptyElementNoAtts? || t.tok.TokEmptyElementWithAtts?, at.stack);
      } else if t.tok == TokEndTag {
        EndTagNests(enc, w[..t.next], at.stack);
      }
    }
  }

  predicate IsStartTag(tok: Token) {
    tok.TokStartTagNoAtts? || tok.TokStartTagWithAtts? || tok.TokEmptyElementNoAtts? || tok.TokEmptyElementWithAtts?
  }

  /** The calls of a report nest, from the open elements it starts with to those it ends with. */
  predicate ReportNests(at: Position, r: Report) {
    match r.end
    case NeedMore(next, _) => Nest(at.stack, r.calls) == Some(next.stack)
    case Closed(_) => Nest(at.stack, r.calls) == Some([])
    case Failed(_, _) => Nest(at.stack, r.calls).Some?
  }

  lemma AfterNests(n: nat, calls: seq<Call>, at: Position, next: Position, r: Report)
    requires Nest(at.stack, calls) == Some(next.stack) && ReportNests(next, r)
    ensures ReportNests(at, After(n, calls, r))
  {
    hide Nest;
    NestAppend(at.stack, calls, Later(n, r.calls));
    NestLater(next.stack, n, r.calls);
  }

  lemma {:induction false} RunNests(env: Env, enc: Encoding, at: Position, w: Bytes, final: bool)
    ensures ReportNests(at, Parse(env, enc, at, w, final))
    decreases |w|
  {
    hide Nest, NextStep;
    StepAdvances(env, enc, at, w, final);
    StepKeepsNesting(env, enc, at, w, final);
    NoCall(at.stack);
    match NextStep(env, enc, at, w, final)
    case Go(n, calls, next) =>
      RunNests(env, enc, next, w[n..], final);
      AfterNests(n, calls, at, next, Parse(env, enc, next, w[n..], final));
    case _ =>
  }

  /** However the document is cut, the calls nest; all elements are closed exactly when the root is. */
  lemma {:induction false} ChunksNest(env: Env, enc: Encoding, at: Position, left: Bytes, chunks: seq<Bytes>)
    requires chunks != []
    ensures ReportNests(at, ParseChunks(env, enc, at, left, chunks))
    decreases |chunks|
  {
    hide Nest, Parse, After;
    var buffer := left + chunks[0];
    if |chunks| == 1 {
      RunNests(env, enc, at, buffer, true);
    } else {
      var r := Parse(env, enc, at, buffer, false);
      RunNests(env, enc, at, buffer, false);
      match r.end
      case NeedMore(next, rest) =>
        ChunksNest(env, enc, next, rest, chunks[1..]);
        AfterNests(|buffer| - |rest|, r.calls, at, next, ParseChunks(env, enc, next, rest, chunks[1..]));
      case _ =>
    }
  }
}
