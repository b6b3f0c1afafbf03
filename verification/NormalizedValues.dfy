/**
 The values `getAtts` finds in a tag: what they are, and why a value marked as normalized may skip
 normalization.
 */
module NormalizedValues {
  import opened Encodings
  import opened Automaton
  import opened Scanners
  import opened Errors
  import opened Utf8
  import opened AttributeValues
  import opened TagAttributes

  // ----- references inside a value -----

  /** A reference that ends inside a slice is scanned the same way in the slice. */
  lemma {:induction false} RefInSlice(enc: Encoding, w: Bytes, k: nat, e: nat, p: nat, q: State)
    requires k <= p <= e <= |w| && InRef(q) && q.ctx == InContent
    requires var r := ScanFrom(enc, w, p, q); (r.tok == TokEntityRef || r.tok == TokCharRef) && r.next <= e
    ensures var r := ScanFrom(enc, w, p, q); ScanFrom(enc, w[k..e], p - k, q) == Scan(r.tok, r.next - k)
    decreases |w| - p
  {
    hide ScanFrom, Next;
    RefState(q, BtQuot, p);
    if p < e {
      ScanStep(enc, w, p, q);
      ScanStep(enc, w[k..e], p - k, q);
      match Next(enc, w, p, q)
      case Move(n, q') =>
        RefMoves(enc, w, p, q, BtQuot);
        RefInValue(enc, w, p + n, q', BtQuot);
        RefStepInSlice(enc, w, k, e, p, q);
        RefInSlice(enc, w, k, e, p + n, q');
      case Halt(_) => RefStepInSlice(enc, w, k, e, p, q);
    }
  }

  lemma RefStepInSlice(enc: Encoding, w: Bytes, k: nat, e: nat, p: nat, q: State)
    requires k <= p < e <= |w| && InRef(q) && q.ctx == InContent
    requires match Next(enc, w, p, q)
      case Move(n, _) => p + n <= e
      case Halt(r) => r.tok == TokEntityRef || r.tok == TokCharRef
    ensures Next(enc, w[k..e], p - k, q) == match Next(enc, w, p, q)
      case Move(n, q') => Move(n, q')
      case Halt(r) => Halt(Scan(r.tok, r.next - k))
  {
    var n := LeadLength(enc.byteType(w[p]));
    if p + n <= e { SliceOfSlice(w, k, e, p, n); }
  }

  lemma SliceOfSlice(w: Bytes, k: nat, e: nat, p: nat, n: nat)
    requires k <= p && p + n <= e <= |w|
    ensures w[k..e][p - k..p - k + n] == w[p..p + n]
  {
    var v := w[k..e];
    assert forall i :: 0 <= i < |v| ==> v[i] == w[k + i];
    var x, y := v[p - k..p - k + n], w[p..p + n];
    assert forall i :: 0 <= i < n ==> x[i] == y[i];
  }

  /** A reference changes nothing in the attribute being read. */
  lemma {:induction false} SpansBehindRef(enc: Encoding, w: Bytes, p: nat, q: State, quote: ByteType, a: Attribute)
    requires p <= |w| && InRef(q) && q.ctx == InContent
    requires var r := ScanFrom(enc, w, p, q); r.tok == TokEntityRef || r.tok == TokCharRef
    ensures At(InAttribute(q, quote), p)
    ensures var r := ScanFrom(enc, w, p, q);
      Spans(enc, w, p, InAttribute(q, quote), a) == Spans(enc, w, r.next, AttValue(quote), a)
    decreases |w| - p
  {
    hide ScanFrom, Next;
    RefState(q, quote, p);
    if p < |w| {
      ScanStep(enc, w, p, q);
      match Next(enc, w, p, q)
      case Move(n, q') =>
        RefMoves(enc, w, p, q, quote);
        SpansBehindRef(enc, w, p + n, q', quote, a);
      case Halt(_) =>
        RefHalts(enc, w, p, q, quote);
    }
  }

  // ----- values -----

  /** Where the value ends that goes on at `p`. */
  function Closing(enc: Encoding, w: Bytes, p: nat, quote: ByteType): (e: nat)
    requires p <= |w|
    ensures p <= e <= |w|
    decreases |w| - p
  {
    if p == |w| || enc.byteType(w[p]) == quote then p
    else if enc.byteType(w[p]) == BtAmp then
      var r := ScanFrom(enc, w, p + 1, RefStart(InContent));
      if r.tok == TokEntityRef || r.tok == TokCharRef then Closing(enc, w, r.next, quote) else p
    else Closing(enc, w, p + CharLength(enc, w, p), quote)
  }

  /** No character up to `e` is one that normalization might touch, or `<`. */
  predicate Plain(enc: Encoding, w: Bytes, p: nat, e: nat, start: nat, closing: Kind)
    requires p <= e <= |w|
    decreases e - p
  {
    p == e || (!Remarkable(enc, w, p, start, closing) && enc.byteType(w[p]) != BtLt
               && p + CharSize(enc.byteType(w[p])) <= e
               && Plain(enc, w, p + CharSize(enc.byteType(w[p])), e, start, closing))
  }

  /** The character at `p` of a value: what the automaton makes of it, and what becomes of the attribute. */
  lemma ValueChar(enc: Encoding, w: Bytes, p: nat, quote: ByteType, a: Attribute)
    requires Standard(enc) && Accepting(enc, w, p, AttValue(quote))
    ensures p < |w|
    ensures var t := enc.byteType(w[p]);
      if t == quote then
        && Accepting(enc, w, p + 1, AttQuoted)
        && Spans(enc, w, p, AttValue(quote), a)
          == [a.(valueEnd := p)] + Spans(enc, w, p + 1, AttQuoted, a.(valueEnd := p))
      else if t == BtAmp then
        var r := ScanFrom(enc, w, p + 1, RefStart(InContent));
        && (r.tok == TokEntityRef || r.tok == TokCharRef) && p < r.next <= |w|
        && Accepting(enc, w, r.next, AttValue(quote))
        && Spans(enc, w, p, AttValue(quote), a) == Spans(enc, w, r.next, AttValue(quote), Seen(enc, w, p, quote, a))
      else
        var n := CharLength(enc, w, p);
        && n == CharSize(t) && t != BtLt && p + n < |w| && Accepting(enc, w, p + n, AttValue(quote))
        && (LeadLength(t) > 0 ==> !enc.isInvalid(w[p..p + n]))
        && Spans(enc, w, p, AttValue(quote), a) == Spans(enc, w, p + n, AttValue(quote), Seen(enc, w, p, quote, a))
  {
    hide ScanFrom, Standard, Next, Spans;
    var t := enc.byteType(w[p]);
    ValueMove(enc, w, p, quote);
    ScanStep(enc, w, p, AttValue(quote));
    SpansMove(enc, w, p, AttValue(quote), a);
    if t != quote && t == BtAmp {
      RefInValue(enc, w, p + 1, RefStart(InContent), quote);
      SpansBehindRef(enc, w, p + 1, RefStart(InContent), quote, a.(normalized := false));
    }
  }

  lemma SpansMove(enc: Encoding, w: Bytes, p: nat, q: State, a: Attribute)
    requires p < |w| && At(q, p)
    ensures match Next(enc, w, p, q)
      case Halt(_) => Spans(enc, w, p, q, a) == []
      case Move(n, q') =>
        p + n <= |w| && At(q', p + n) &&
        var a' := Track(enc, w, p, q, q', a);
        Spans(enc, w, p, q, a) == (if q.AttValue? && q'.AttQuoted? then [a'] else []) + Spans(enc, w, p + n, q', a')
  {
    hide Next, Track;
    NextSound(enc, w, p, q);
  }

  lemma ValueMove(enc: Encoding, w: Bytes, p: nat, quote: ByteType)
    requires Accepting(enc, w, p, AttValue(quote))
    ensures p < |w|
    ensures var t := enc.byteType(w[p]);
      if t == quote then Next(enc, w, p, AttValue(quote)) == Move(1, AttQuoted)
      else if t == BtAmp then Next(enc, w, p, AttValue(quote)) == Move(1, RefStart(InValue(quote)))
      else
        var n := CharLength(enc, w, p);
        && n == CharSize(t) && t != BtLt && p + n < |w| && Next(enc, w, p, AttValue(quote)) == Move(n, AttValue(quote))
        && (LeadLength(t) > 0 ==> !enc.isInvalid(w[p..p + n]))
  {
    hide ScanFrom;
    ScanStep(enc, w, p, AttValue(quote));
  }

  lemma ConsWhole(enc: Encoding, w: Bytes, p: nat, e: nat, quote: ByteType)
    requires p < e <= |w| && enc.byteType(w[p]) != BtAmp
    requires var n := CharLength(enc, w, p);
      p + n <= e && n == CharSize(enc.byteType(w[p]))
      && (LeadLength(enc.byteType(w[p])) > 0 ==> !enc.isInvalid(w[p..p + n])) && Whole(enc, w[p + n..e])
    ensures Whole(enc, w[p..e])
  {
    var n := CharLength(enc, w, p);
    SliceOfSlice(w, p, e, p, n);
    assert w[p..e][n..] == w[p + n..e] && w[p..e][..n] == w[p..e][0..n];
  }

  /** How `Closing` and `Plain` go on behind a character or a reference. */
  lemma ClosingStep(enc: Encoding, w: Bytes, p: nat, quote: ByteType)
    requires p < |w|
    ensures var t := enc.byteType(w[p]);
      var e := Closing(enc, w, p, quote);
      if t == quote then e == p
      else if t == BtAmp then
        var r := ScanFrom(enc, w, p + 1, RefStart(InContent));
        (r.tok == TokEntityRef || r.tok == TokCharRef ==> e == Closing(enc, w, r.next, quote))
      else e == Closing(enc, w, p + CharLength(enc, w, p), quote)
  {
    hide ScanFrom;
  }

  lemma PlainStep(enc: Encoding, w: Bytes, p: nat, e: nat, start: nat, closing: Kind)
    requires p < e <= |w|
    ensures enc.byteType(w[p]) == BtAmp ==> !Plain(enc, w, p, e, start, closing)
    ensures var n := CharSize(enc.byteType(w[p]));
      p + n <= e && enc.byteType(w[p]) != BtLt ==>
        (Plain(enc, w, p, e, start, closing)
         <==> !Remarkable(enc, w, p, start, closing) && Plain(enc, w, p + n, e, start, closing))
  {
  }

  lemma ConsRefWhole(enc: Encoding, w: Bytes, p: nat, e: nat)
    requires p < e <= |w| && enc.byteType(w[p]) == BtAmp
    requires var r := ScanFrom(enc, w, p + 1, RefStart(InContent));
      (r.tok == TokEntityRef || r.tok == TokCharRef) && r.next <= e && Whole(enc, w[r.next..e])
    ensures Whole(enc, w[p..e])
  {
    hide ScanFrom;
    var r := ScanFrom(enc, w, p + 1, RefStart(InContent));
    RefInSlice(enc, w, p, e, p + 1, RefStart(InContent));
    assert w[p..e][r.next - p..] == w[r.next..e];
  }

  /** The attribute whose value goes on at `p`, when it has ended at `e`. */
  function Ended(enc: Encoding, w: Bytes, p: nat, e: nat, quote: ByteType, a: Attribute): Attribute
    requires p <= e <= |w|
  {
    a.(valueEnd := e, normalized := a.normalized && Plain(enc, w, p, e, a.valuePtr, KindOf(quote)))
  }

  /** What is known of a value and of the spans that are left when it ends at `e`. */
  ghost predicate ValueEnds(enc: Encoding, w: Bytes, p: nat, e: nat, quote: ByteType, a: Attribute)
    requires p <= e <= |w|
  {
    var a' := Ended(enc, w, p, e, quote, a);
    && e < |w| && enc.byteType(w[e]) == quote && Whole(enc, w[p..e])
    && Accepting(enc, w, e + 1, AttQuoted)
    && Spans(enc, w, p, AttValue(quote), a) == [a'] + Spans(enc, w, e + 1, AttQuoted, a')
  }

  /** The attribute behind a character, or a reference, of its value. */
  function Seen(enc: Encoding, w: Bytes, p: nat, quote: ByteType, a: Attribute): Attribute
    requires p < |w|
  {
    a.(normalized := a.normalized && !Remarkable(enc, w, p, a.valuePtr, KindOf(quote)))
  }

  lemma EmptyValue(enc: Encoding, w: Bytes, p: nat, quote: ByteType, a: Attribute)
    requires p < |w| && enc.byteType(w[p]) == quote && Accepting(enc, w, p + 1, AttQuoted)
    requires Spans(enc, w, p, AttValue(quote), a)
      == [a.(valueEnd := p)] + Spans(enc, w, p + 1, AttQuoted, a.(valueEnd := p))
    ensures ValueEnds(enc, w, p, p, quote, a)
  {
    hide Spans, Accepting, KindOf;
    assert a.(valueEnd := p, normalized := a.normalized) == a.(valueEnd := p);
  }

  lemma ValueBehindRef(enc: Encoding, w: Bytes, p: nat, e: nat, quote: ByteType, a: Attribute, k: nat)
    requires p < k <= e <= |w| && enc.byteType(w[p]) == BtAmp && Whole(enc, w[k..e]) ==> Whole(enc, w[p..e])
    requires p < k <= e <= |w| && enc.byteType(w[p]) == BtAmp
    requires ValueEnds(enc, w, k, e, quote, Seen(enc, w, p, quote, a))
    requires Spans(enc, w, p, AttValue(quote), a) == Spans(enc, w, k, AttValue(quote), Seen(enc, w, p, quote, a))
    ensures ValueEnds(enc, w, p, e, quote, a)
  {
    hide Spans, Accepting, KindOf, Plain, Whole;
    PlainStep(enc, w, p, e, a.valuePtr, KindOf(quote));
  }

  lemma ValueBehindChar(enc: Encoding, w: Bytes, p: nat, e: nat, quote: ByteType, a: Attribute)
    requires p < e <= |w| && enc.byteType(w[p]) != BtAmp && enc.byteType(w[p]) != BtLt
    requires var n := CharLength(enc, w, p);
      p + n <= e && n == CharSize(enc.byteType(w[p]))
      && (LeadLength(enc.byteType(w[p])) > 0 ==> !enc.isInvalid(w[p..p + n]))
      && ValueEnds(enc, w, p + n, e, quote, Seen(enc, w, p, quote, a))
      && Spans(enc, w, p, AttValue(quote), a) == Spans(enc, w, p + n, AttValue(quote), Seen(enc, w, p, quote, a))
    ensures ValueEnds(enc, w, p, e, quote, a)
  {
    hide Spans, Accepting, KindOf, Plain, Whole, Remarkable, CharSize;
    ConsWhole(enc, w, p, e, quote);
    PlainStep(enc, w, p, e, a.valuePtr, KindOf(quote));
  }

  lemma RefStartsAnywhere(p: nat)
    ensures At(RefStart(InContent), p)
  {
  }

  /** A value is whole, and its attribute is the one read so far, normalized if nothing remarkable came. */
  lemma {:induction false} ValueSpan(enc: Encoding, w: Bytes, p: nat, quote: ByteType, a: Attribute)
    requires Standard(enc) && p <= |w| && Accepting(enc, w, p, AttValue(quote))
    ensures ValueEnds(enc, w, p, Closing(enc, w, p, quote), quote, a)
    decreases |w| - p
  {
    hide *;
    ValueChar(enc, w, p, quote, a);
    ClosingStep(enc, w, p, quote);
    var t := enc.byteType(w[p]);
    var a1 := Seen(enc, w, p, quote, a);
    var e := Closing(enc, w, p, quote);
    if t == quote {
      EmptyValue(enc, w, p, quote, a);
    } else if t == BtAmp {
      RefStartsAnywhere(p + 1);
      var k := ScanFrom(enc, w, p + 1, RefStart(InContent)).next;
      ValueSpan(enc, w, k, quote, a1);
      if Whole(enc, w[k..e]) { ConsRefWhole(enc, w, p, e); }
      ValueBehindRef(enc, w, p, e, quote, a, k);
    } else {
      ValueSpan(enc, w, p + CharLength(enc, w, p), quote, a1);
      ValueBehindChar(enc, w, p, e, quote, a);
    }
  }

  // ----- names -----

  /** The end of the name at `p`, as far as the length of a name is measured. */
  function NameEnd(enc: Encoding, w: Bytes, p: nat): (r: nat)
    requires p <= |w|
    ensures p <= r <= |w|
    decreases |w| - p
  {
    if p == |w| || !IsNamePart(enc.byteType(w[p])) then p else NameEnd(enc, w, p + CharLength(enc, w, p))
  }

  predicate IsNamePart(t: ByteType) { IsNameType(t) || t == BtColon || LeadLength(t) > 0 }

  method NameLength(enc: Encoding, w: Bytes, ptr: nat) returns (n: nat)
    requires ptr <= |w|
    ensures n == NameEnd(enc, w, ptr) - ptr
  {
    var p := ptr;
    while p < |w| && IsNamePart(enc.byteType(w[p]))
      invariant ptr <= p <= |w| && NameEnd(enc, w, p) == NameEnd(enc, w, ptr)
      decreases |w| - p
    {
      p := p + CharLength(enc, w, p);
    }
    return p - ptr;
  }

  // ----- the attributes of a tag -----

  /**
   A complete attribute: a name, measured up to white space or `=`, and a whole value between quotes,
   plain if it is marked as normalized.
   */
  ghost predicate Good(enc: Encoding, w: Bytes, a: Attribute) {
    && a.name < a.valuePtr <= a.valueEnd < |w|
    && StartsName(enc, w, a.name) && NameEnds(enc, w, a.name, a.valuePtr - 1)
    && Whole(enc, w[a.valuePtr..a.valueEnd])
    && KindOf(enc.byteType(w[a.valueEnd])) != NameStart
    && (a.normalized ==> Plain(enc, w, a.valuePtr, a.valueEnd, a.valuePtr, KindOf(enc.byteType(w[a.valueEnd]))))
  }

  /** The name at `p` ends before `k`, and what ends it is white space or `=`. */
  predicate NameEnds(enc: Encoding, w: Bytes, p: nat, k: nat)
    requires p <= |w|
  {
    var e := NameEnd(enc, w, p);
    p < e <= k && e < |w| && (IsSpaceType(enc.byteType(w[e])) || enc.byteType(w[e]) == BtEquals)
  }

  /** What has been read of the name of an attribute, in its name or behind it. */
  ghost predicate NameRead(enc: Encoding, w: Bytes, p: nat, ph: Phase, a: Attribute)
    requires p <= |w|
  {
    && a.name < p && StartsName(enc, w, a.name)
    && if ph.NamePhase? then NameEnd(enc, w, a.name) == NameEnd(enc, w, p) else p > 0 && NameEnds(enc, w, a.name, p - 1)
  }

  predicate StartsName(enc: Encoding, w: Bytes, p: nat) { p < |w| && KindOf(enc.byteType(w[p])) == NameStart }

  ghost predicate AllGood(enc: Encoding, w: Bytes, s: seq<Attribute>) { forall a :: a in s ==> Good(enc, w, a) }

  /** The step that opens a value. */
  lemma QuoteOpens(enc: Encoding, w: Bytes, p: nat, q: State, a: Attribute)
    requires p < |w| && At(q, p) && Accepting(enc, w, p, q) && PhaseOf(q) == EqualsPhase
    requires KindOf(enc.byteType(w[p])).Quote? || KindOf(enc.byteType(w[p])).Apostrophe?
    ensures var t := enc.byteType(w[p]);
      && Accepting(enc, w, p + 1, AttValue(t))
      && Spans(enc, w, p, q, a) == Spans(enc, w, p + 1, AttValue(t), a.(valuePtr := p + 1))
  {
    hide ScanFrom, Spans, KindOf;
    var t := enc.byteType(w[p]);
    Kinds(t);
    ScanStep(enc, w, p, q);
    SpansMove(enc, w, p, q, a);
    EqualsIsEquals(q);
    assert Next(enc, w, p, AttEquals) == Move(1, AttValue(t));
  }

  lemma EqualsIsEquals(q: State)
    requires PhaseOf(q) == EqualsPhase
    ensures q == AttEquals
  {
  }

  lemma QuotedIsGood(enc: Encoding, w: Bytes, p: nat, e: nat, a: Attribute)
    requires p < e <= |w| && NameRead(enc, w, p, EqualsPhase, a) && a.valuePtr == p + 1
    requires ValueEnds(enc, w, p + 1, e, enc.byteType(w[p]), a)
    requires KindOf(enc.byteType(w[p])).Quote? || KindOf(enc.byteType(w[p])).Apostrophe?
    ensures Good(enc, w, Ended(enc, w, p + 1, e, enc.byteType(w[p]), a))
  {
    hide Spans, Accepting, KindOf;
  }

  /** Outside values: the name read so far is a name, and everything that is still to come is good. */
  lemma {:induction false} SpansAreGood(enc: Encoding, w: Bytes, p: nat, q: State, a: Attribute)
    requires Standard(enc) && p <= |w| && At(q, p) && Accepting(enc, w, p, q) && !PhaseOf(q).ValuePhase?
    requires Named(PhaseOf(q)) ==> NameRead(enc, w, p, PhaseOf(q), a)
    ensures AllGood(enc, w, Spans(enc, w, p, q, a))
    decreases |w| - p
  {
    hide *;
    var q' := SpansStep(enc, w, p, q, a);
    var t := enc.byteType(w[p]);
    if KindOf(t).TagEnd? {
      NoneIsGood(enc, w);
    } else {
      var a' := TrackPhase(enc, w, p, PhaseOf(q), PhaseOf(q'), a);
      if PhaseOf(q').ValuePhase? {
        OpensValue(enc, w, p, PhaseOf(q), PhaseOf(q'), a);
        QuoteOpens(enc, w, p, q, a);
        var e := Closing(enc, w, p + 1, t);
        ValueSpan(enc, w, p + 1, t, a');
        QuotedIsGood(enc, w, p, e, a');
        var a1 := Ended(enc, w, p + 1, e, t, a');
        AfterValue(enc, w, p + 1, e, t, a');
        SpansAreGood(enc, w, e + 1, AttQuoted, a1);
        ConsGood(enc, w, a1, Spans(enc, w, e + 1, AttQuoted, a1));
      } else {
        ClosesNoValue(PhaseOf(q), KindOf(t), PhaseOf(q'));
        NameGoesOn(enc, w, p, q, q', a);
        SpansAreGood(enc, w, p + CharSize(t), q', a');
        NothingBefore(Spans(enc, w, p + CharSize(t), q', a'));
      }
    }
  }

  lemma NoneIsGood(enc: Encoding, w: Bytes)
    ensures AllGood(enc, w, [])
  {
  }

  lemma ConsGood(enc: Encoding, w: Bytes, a: Attribute, s: seq<Attribute>)
    requires Good(enc, w, a) && AllGood(enc, w, s)
    ensures AllGood(enc, w, [a] + s)
  {
  }

  lemma NothingBefore(s: seq<Attribute>)
    ensures [] + s == s
  {
  }

  lemma OpensValue(enc: Encoding, w: Bytes, p: nat, ph: Phase, ph': Phase, a: Attribute)
    requires p < |w| && Follows(ph, KindOf(enc.byteType(w[p])), ph') && !ph.ValuePhase? && ph'.ValuePhase?
    ensures ph == EqualsPhase && (KindOf(enc.byteType(w[p])).Quote? || KindOf(enc.byteType(w[p])).Apostrophe?)
    ensures Named(ph) && TrackPhase(enc, w, p, ph, ph', a) == a.(valuePtr := p + 1)
    ensures NameRead(enc, w, p, ph, a) ==> NameRead(enc, w, p, ph, a.(valuePtr := p + 1))
  {
    hide KindOf, NameEnds, StartsName;
  }

  lemma ClosesNoValue(ph: Phase, k: Kind, ph': Phase)
    requires Follows(ph, k, ph') && !ph.ValuePhase?
    ensures !(ph.ValuePhase? && ph' == GapPhase(false))
  {
  }

  /** The characters of a name are those its length counts. */
  lemma NamePartStep(enc: Encoding, w: Bytes, p: nat, q: State)
    requires p < |w| && At(q, p) && PhaseOf(q) == NamePhase(true)
    requires Next(enc, w, p, q).Move?
    ensures var t := enc.byteType(w[p]);
      match Next(enc, w, p, q)
      case Move(n, q') => p + n <= |w| && n == CharLength(enc, w, p)
        && if PhaseOf(q') == NamePhase(true) then IsNamePart(t)
        else !IsNamePart(t) && (IsSpaceType(t) || t == BtEquals)
      case Halt(_) => false
  {
  }

  lemma NameGoesOn(enc: Encoding, w: Bytes, p: nat, q: State, q': State, a: Attribute)
    requires p < |w| && At(q, p) && Accepting(enc, w, p, q) && !KindOf(enc.byteType(w[p])).TagEnd?
    requires match Next(enc, w, p, q) case Move(_, q1) => q1 == q' case Halt(_) => false
    requires Follows(PhaseOf(q), KindOf(enc.byteType(w[p])), PhaseOf(q')) && !PhaseOf(q).ValuePhase?
    requires !PhaseOf(q').ValuePhase?
    requires Named(PhaseOf(q)) ==> NameRead(enc, w, p, PhaseOf(q), a)
    requires p + CharSize(enc.byteType(w[p])) < |w|
    ensures Named(PhaseOf(q')) ==>
      NameRead(enc, w, p + CharSize(enc.byteType(w[p])), PhaseOf(q'), TrackPhase(enc, w, p, PhaseOf(q), PhaseOf(q'), a))
  {
    hide *;
    if PhaseOf(q) == NamePhase(true) { NamePartStep(enc, w, p, q); }
    NameAtPhase(enc, w, p, PhaseOf(q), PhaseOf(q'), a);
  }

  /** The same on phases; the hypothesis is what `NamePartStep` gives. */
  lemma NameAtPhase(enc: Encoding, w: Bytes, p: nat, ph: Phase, ph': Phase, a: Attribute)
    requires p < |w| && !KindOf(enc.byteType(w[p])).TagEnd? && p + CharSize(enc.byteType(w[p])) < |w|
    requires Follows(ph, KindOf(enc.byteType(w[p])), ph') && !ph.ValuePhase? && !ph'.ValuePhase?
    requires ph == NamePhase(true) ==>
      if ph' == NamePhase(true) then IsNamePart(enc.byteType(w[p]))
      else !IsNamePart(enc.byteType(w[p])) && (IsSpaceType(enc.byteType(w[p])) || enc.byteType(w[p]) == BtEquals)
    requires Named(ph) ==> NameRead(enc, w, p, ph, a)
    ensures Named(ph') ==> NameRead(enc, w, p + CharSize(enc.byteType(w[p])), ph', TrackPhase(enc, w, p, ph, ph', a))
  {
    hide KindOf, LeadLength, IsNamePart, IsSpaceType, NameEnd;
    var t := enc.byteType(w[p]);
    Kinds(t);
    NameEndNext(enc, w, p);
    if Named(ph') && ph' == NamePhase(true) && ph != ph' { NamePartOfStart(t); }
  }

  /** A name goes on as long as there are name characters. */
  lemma NameEndNext(enc: Encoding, w: Bytes, p: nat)
    requires p < |w| && p + CharSize(enc.byteType(w[p])) < |w|
    ensures NameEnd(enc, w, p)
      == if IsNamePart(enc.byteType(w[p])) then NameEnd(enc, w, p + CharSize(enc.byteType(w[p]))) else p
  {
    hide IsNamePart, LeadLength;
  }

  lemma NamePartOfStart(t: ByteType)
    requires KindOf(t).NameStart?
    ensures IsNamePart(t)
  {
  }

  lemma AfterValue(enc: Encoding, w: Bytes, p: nat, e: nat, quote: ByteType, a: Attribute)
    requires p <= e <= |w| && ValueEnds(enc, w, p, e, quote, a)
    ensures e < |w| && PhaseOf(AttQuoted) == GapPhase(false) && !Named(GapPhase(false)) && At(AttQuoted, e + 1)
    ensures Accepting(enc, w, e + 1, AttQuoted)
    ensures var a1 := Ended(enc, w, p, e, quote, a);
      Spans(enc, w, p, AttValue(quote), a) == [a1] + Spans(enc, w, e + 1, AttQuoted, a1)
    ensures At(AttValue(quote), p)
  {
    hide Spans, Accepting;
  }

  /** Every attribute of a tag the scanner accepted is complete, and plain if it is marked as normalized. */
  lemma TagSpansAreGood(enc: Encoding, w: Bytes)
    requires Standard(enc) && w != [] && IsTag(ScanFrom(enc, w, 1, AfterLt).tok)
    ensures AllGood(enc, w, TagSpans(enc, w))
  {
    hide ScanFrom, Spans, Standard, Accepting;
    RescanStart(enc, w);
    SpansAreGood(enc, w, 1, AfterLt, NO_ATTRIBUTE);
  }

  // ----- plain values need no normalization -----

  lemma {:induction false} PlainIsNormal(env: Env, enc: Encoding, open: set<Bytes>, w: Bytes, p: nat, e: nat,
                                         start: nat, closing: Kind)
    requires p <= e <= |w| && Plain(enc, w, p, e, start, closing)
    ensures Normal(env, enc, open, w[p..e]) == Ok(w[p..e])
    decreases e - p
  {
    hide Normal;
    if p == e {
      NothingIsNormal(env, enc, open);
      assert w[p..e] == [];
    } else {
      var n := CharSize(enc.byteType(w[p]));
      PlainIsNormal(env, enc, open, w, p + n, e, start, closing);
      PlainItem(enc, w, p, e, start, closing);
      assert w[p..e][n..] == w[p + n..e] && w[p..p + n] + w[p + n..e] == w[p..e];
      TextIsNormal(env, enc, open, w[p..e], w[p..p + n]);
    }
  }

  lemma NothingIsNormal(env: Env, enc: Encoding, open: set<Bytes>)
    ensures Normal(env, enc, open, []) == Ok([])
  {
  }

  lemma TextIsNormal(env: Env, enc: Encoding, open: set<Bytes>, w: Bytes, v: Bytes)
    requires w != [] && FirstItem(enc, w) == Text(|v|, v) && |v| <= |w|
    ensures Normal(env, enc, open, w) == Prepend(v, Normal(env, enc, open, w[|v|..]))
  {
  }

  lemma PlainItem(enc: Encoding, w: Bytes, p: nat, e: nat, start: nat, closing: Kind)
    requires p < e <= |w| && Plain(enc, w, p, e, start, closing)
    ensures var n := CharSize(enc.byteType(w[p])); FirstItem(enc, w[p..e]) == Text(n, w[p..p + n])
  {
    var n := CharSize(enc.byteType(w[p]));
    SliceOfSlice(w, p, e, p, n);
    assert CharLength(enc, w[p..e], 0) == n;
    assert w[p..e][..n] == w[p..e][0..n];
  }

  /** In a plain value a space stands between two other characters. */
  lemma {:induction false} PlainSpaces(enc: Encoding, w: Bytes, p: nat, e: nat, start: nat, closing: Kind)
    requires Standard(enc) && p <= e < |w| && Plain(enc, w, p, e, start, closing) && Whole(enc, w[p..e])
    requires KindOf(enc.byteType(w[e])) == closing
    ensures forall i :: p <= i < e && w[i] == ASCII_SPACE ==> i != start && i + 1 < e && w[i + 1] != ASCII_SPACE
    decreases e - p
  {
    hide KindOf, Standard, Plain, Whole, CharSize;
    if p < e {
      PlainSpace(enc, w, p, e, start, closing);
      PlainSpaces(enc, w, p + CharSize(enc.byteType(w[p])), e, start, closing);
    }
  }

  lemma PlainSpace(enc: Encoding, w: Bytes, p: nat, e: nat, start: nat, closing: Kind)
    requires Standard(enc) && p < e < |w| && Plain(enc, w, p, e, start, closing) && Whole(enc, w[p..e])
    requires KindOf(enc.byteType(w[e])) == closing
    ensures var n := CharSize(enc.byteType(w[p]));
      && 0 < n && p + n <= e && Plain(enc, w, p + n, e, start, closing) && Whole(enc, w[p + n..e])
      && forall i :: p <= i < p + n && w[i] == ASCII_SPACE ==> i != start && i + 1 < e && w[i + 1] != ASCII_SPACE
  {
    hide KindOf, Standard, Whole;
    WholeNext(enc, w, p, e);
    CharHasNoSpace(enc, w, p, e);
  }

  lemma WholeNext(enc: Encoding, w: Bytes, p: nat, e: nat)
    requires p < e <= |w| && Whole(enc, w[p..e]) && enc.byteType(w[p]) != BtAmp
    requires p + CharSize(enc.byteType(w[p])) <= e
    ensures Whole(enc, w[p + CharSize(enc.byteType(w[p]))..e])
  {
    var n := CharSize(enc.byteType(w[p]));
    assert w[p..e][0] == w[p];
    assert w[p..e][n..] == w[p + n..e] && w[p..e][1..] == w[p + 1..e];
  }

  lemma CharHasNoSpace(enc: Encoding, w: Bytes, p: nat, e: nat)
    requires Standard(enc) && p < e <= |w| && Whole(enc, w[p..e]) && enc.byteType(w[p]) != BtAmp
    requires p + CharSize(enc.byteType(w[p])) <= e
    ensures var n := CharSize(enc.byteType(w[p]));
      forall i :: p <= i < p + n && w[i] == ASCII_SPACE ==> n == 1 && enc.byteType(w[p]) == BtS
  {
    hide Standard;
    var n := CharSize(enc.byteType(w[p]));
    SpaceIsS(enc);
    if LeadLength(enc.byteType(w[p])) > 0 {
      var c := w[p..p + n];
      assert w[p..e][..n] == c && w[p..e][0] == w[p];
      ValidHasNoSpace(enc, c);
      assert forall i :: p <= i < p + n ==> w[i] == c[i - p];
    }
  }

  lemma SpaceIsS(enc: Encoding)
    requires Standard(enc)
    ensures enc.byteType(ASCII_SPACE) == BtS
  {
  }

  lemma ValidHasNoSpace(enc: Encoding, c: Bytes)
    requires Standard(enc) && c != [] && LeadLength(enc.byteType(c[0])) == |c| && !enc.isInvalid(c)
    ensures ASCII_SPACE !in c
  {
  }

  lemma {:induction false} SqueezeKeeps(acc: Bytes, v: Bytes)
    requires v != [] && v[0] == ASCII_SPACE ==> acc != [] && acc[|acc| - 1] != ASCII_SPACE
    requires forall i :: 0 <= i < |v| - 1 && v[i] == ASCII_SPACE ==> v[i + 1] != ASCII_SPACE
    ensures Squeeze(acc, v) == acc + v
    decreases |v|
  {
    if v == [] {
      assert acc + v == acc;
    } else {
      assert forall i :: 0 <= i < |v[1..]| ==> v[1..][i] == v[i + 1];
      SqueezeKeeps(acc + [v[0]], v[1..]);
      assert acc + [v[0]] + v[1..] == acc + v;
    }
  }

  /**
   The fast path agrees with the slow one: a value `getAtts` marks as normalized is what
   normalization makes of it, for CDATA and for tokenized attributes, whatever the entities are.
   */
  lemma NormalizedIsUnchanged(env: Env, enc: Encoding, open: set<Bytes>, w: Bytes, a: Attribute, isCdata: bool)
    requires Standard(enc) && w != [] && IsTag(ScanFrom(enc, w, 1, AfterLt).tok)
    requires a in TagSpans(enc, w) && a.normalized
    ensures a.valuePtr <= a.valueEnd <= |w|
    ensures var v := w[a.valuePtr..a.valueEnd]; Value(env, enc, open, isCdata, v) == Ok(v)
  {
    hide ScanFrom, Spans, Standard, Normal, Plain, Whole, KindOf, Squeeze;
    TagSpansAreGood(enc, w);
    assert Good(enc, w, a);
    var p, e := a.valuePtr, a.valueEnd;
    var v := w[p..e];
    PlainIsNormal(env, enc, open, w, p, e, p, KindOf(enc.byteType(w[e])));
    PlainSpaces(enc, w, p, e, p, KindOf(enc.byteType(w[e])));
    assert forall i :: 0 <= i < |v| ==> v[i] == w[p + i];
    SqueezeKeeps([], v);
    SqueezeIsTokenized(v);
    assert [] + v == v;
  }
}
