/** What is read off a start tag: the names and values of its attributes, in order. */
module StartTags {
  import opened Encodings
  import opened Automaton
  import opened Errors
  import opened Utf8
  import opened AttributeValues
  import opened TagAttributes
  import opened NormalizedValues
  import opened Grammar

  /** From `p` to `k` no attribute ends, and `a` becomes `b`. */
  predicate Tracks(enc: Encoding, w: Bytes, p: nat, q: State, a: Attribute, k: nat, r: State, b: Attribute) {
    p <= |w| && k <= |w| && At(q, p) && At(r, k) && Spans(enc, w, p, q, a) == Spans(enc, w, k, r, b)
  }

  lemma TracksTwice(enc: Encoding, w: Bytes, p: nat, q: State, a: Attribute, k: nat, r: State, b: Attribute, l: nat,
                    t: State, d: Attribute)
    requires Tracks(enc, w, p, q, a, k, r, b) && Tracks(enc, w, k, r, b, l, t, d)
    ensures Tracks(enc, w, p, q, a, l, t, d)
  {
    hide Spans;
  }

  /** A step that ends no value. */
  lemma SpanStep(enc: Encoding, w: Bytes, p: nat, q: State, a: Attribute, n: nat, r: State)
    requires p < |w| && At(q, p) && Next(enc, w, p, q) == Move(n, r) && !(q.AttValue? && r.AttQuoted?)
    ensures Tracks(enc, w, p, q, a, p + n, r, Track(enc, w, p, q, r, a))
  {
    hide Track, Next;
    NextSound(enc, w, p, q);
  }

  // ----- names -----

  lemma NameNext(enc: Encoding, ns: bool, w: Bytes, p: nat, q: State)
    requires p < |w| && p + Size(w[p]) <= |w| && NameChar(enc, ns, w[p..p + Size(w[p])])
    requires (q.TagName? || q.AttName?) && IsUtf8(enc, ns)
    ensures Next(enc, w, p, q) == Move(Size(w[p]), q)
  {
    hide IsUtf8, NameChar, NameClass;
    NameClassIs(enc, ns, w, p);
  }

  lemma {:induction false} TrackName(enc: Encoding, ns: bool, w: Bytes, p: nat, x: Bytes, q: State, a: Attribute)
    requires NameChars(enc, ns, x) && Stands(w, p, x) && (q.TagName? || q.AttName?) && IsUtf8(enc, ns)
    ensures Tracks(enc, w, p, q, a, p + |x|, q, a)
    decreases |x|
  {
    hide IsUtf8, Spans, NameChar, Next;
    if x != [] {
      var n := Size(x[0]);
      NameFits(w, p, x);
      Piece(w, p, x, n);
      NameNext(enc, ns, w, p, q);
      SpanStep(enc, w, p, q, a, n, q);
      TrackName(enc, ns, w, p + n, x[n..], q, a);
    }
  }

  predicate BeginsName(q: State) { q.AfterLt? || q.TagSpace? || q.AttSpace? || q.TagColon? || q.AttColon? }

  lemma OpenNext(enc: Encoding, ns: bool, w: Bytes, p: nat, q: State)
    requires p < |w| && p + Size(w[p]) <= |w| && NameStartChar(enc, ns, w[p..p + Size(w[p])])
    requires BeginsName(q) && IsUtf8(enc, ns)
    ensures Next(enc, w, p, q) == Move(Size(w[p]), Within(q, p))
  {
    hide IsUtf8, NameStartChar, NmstrtClass;
    NmstrtClassIs(enc, ns, w, p);
  }

  /** The attribute that is read behind the first character of a name. */
  function Opened(q: State, p: nat, a: Attribute): Attribute {
    if q.TagSpace? || q.AttSpace? then a.(name := p, normalized := true) else a
  }

  lemma TrackNcName(enc: Encoding, ns: bool, w: Bytes, p: nat, x: Bytes, q: State, a: Attribute)
    requires NcName(enc, ns, x) && Stands(w, p, x) && BeginsName(q) && IsUtf8(enc, ns)
    ensures Tracks(enc, w, p, q, a, p + |x|, Within(q, p), Opened(q, p, a))
  {
    hide IsUtf8, Spans, NameStartChar, NameChars, Next;
    var n := Size(x[0]);
    NameFits(w, p, x);
    Piece(w, p, x, n);
    OpenNext(enc, ns, w, p, q);
    SpanStep(enc, w, p, q, a, n, Within(q, p));
    TrackName(enc, ns, w, p + n, x[n..], Within(q, p), Opened(q, p, a));
  }

  lemma ColonNext(enc: Encoding, ns: bool, w: Bytes, p: nat, q: State)
    requires p < |w| && w[p] == 0x3A && ns && InName(q, false) && IsUtf8(enc, ns)
    ensures Next(enc, w, p, q) == Move(1, if q.TagName? then TagColon else AttColon)
  {
    hide IsUtf8, NameClass;
    TypeAt(enc, ns, w[p]);
    assert !NameChar(enc, ns, [w[p]]);
    NotInName(enc, ns, w, p);
  }

  lemma TrackQName(enc: Encoding, ns: bool, w: Bytes, p: nat, x: Bytes, q: State, a: Attribute) returns (colon: bool)
    requires QName(enc, ns, x) && Stands(w, p, x) && BeforeName(q) && IsUtf8(enc, ns)
    ensures Tracks(enc, w, p, q, a, p + |x|, NameWithin(q, colon), Opened(q, p, a))
  {
    hide IsUtf8, Tracks, NcName;
    colon := false;
    if NcName(enc, ns, x) {
      TrackNcName(enc, ns, w, p, x, q, a);
    } else {
      var k :| 0 < k < |x| - 1 && x[k] == 0x3A && NcName(enc, ns, x[..k]) && NcName(enc, ns, x[k + 1..]);
      colon := true;
      TrackPrefixed(enc, ns, w, p, x, k, q, a);
    }
  }

  lemma TrackPrefixed(enc: Encoding, ns: bool, w: Bytes, p: nat, x: Bytes, k: nat, q: State, a: Attribute)
    requires 0 < k < |x| - 1 && x[k] == 0x3A && NcName(enc, ns, x[..k]) && NcName(enc, ns, x[k + 1..]) && ns
    requires Stands(w, p, x) && BeforeName(q) && IsUtf8(enc, ns)
    ensures Tracks(enc, w, p, q, a, p + |x|, NameWithin(q, true), Opened(q, p, a))
  {
    hide IsUtf8, Tracks, NcName, Next;
    var r, b, m := if q.AfterLt? then TagColon else AttColon, Opened(q, p, a), NameWithin(q, false);
    Piece(w, p, x, k);
    Piece(w, p, x, k + 1);
    assert w[p + k] == w[p..p + |x|][k];
    TrackNcName(enc, ns, w, p, x[..k], q, a);
    ColonNext(enc, ns, w, p + k, m);
    SpanStep(enc, w, p + k, m, b, 1, r);
    TrackNcName(enc, ns, w, p + k + 1, x[k + 1..], r, b);
    TracksTwice(enc, w, p, q, a, p + k, m, b, p + k + 1, r, b);
    TracksTwice(enc, w, p, q, a, p + k + 1, r, b, p + |x|, NameWithin(q, true), b);
  }

  // ----- white space -----

  lemma BlankNext(enc: Encoding, ns: bool, w: Bytes, p: nat, q: State)
    requires p < |w| && IsBlank(w[p]) && SpaceState(q) && IsUtf8(enc, ns)
    ensures Next(enc, w, p, q) == Move(1, q)
  {
    hide IsUtf8;
    TypeAt(enc, ns, w[p]);
  }

  lemma {:induction false} TrackBlanks(enc: Encoding, ns: bool, w: Bytes, p: nat, s: Bytes, q: State, a: Attribute)
    requires Blanks(s) && Stands(w, p, s) && SpaceState(q) && IsUtf8(enc, ns)
    ensures Tracks(enc, w, p, q, a, p + |s|, q, a)
    decreases |s|
  {
    hide IsUtf8, Spans, Next;
    if s != [] {
      Piece(w, p, s, 1);
      BlankNext(enc, ns, w, p, q);
      SpanStep(enc, w, p, q, a, 1, q);
      TrackBlanks(enc, ns, w, p + 1, s[1..], q, a);
    }
  }

  /** The state behind one white space character. */
  function Spaced(q: State): State {
    if q.TagName? then TagSpace else if q.AttName? then AttNameSpace else if q.AttQuoted? then AttSpace else q
  }

  lemma SpacedNext(enc: Encoding, ns: bool, w: Bytes, p: nat, q: State)
    requires p < |w| && IsBlank(w[p]) && (q.TagName? || q.AttName? || q.AttQuoted?) && IsUtf8(enc, ns)
    ensures Next(enc, w, p, q) == Move(1, Spaced(q))
  {
    hide IsUtf8, NameClass;
    TypeAt(enc, ns, w[p]);
    assert !NameChar(enc, ns, [w[p]]);
    NotInName(enc, ns, w, p);
  }

  lemma TrackSpace(enc: Encoding, ns: bool, w: Bytes, p: nat, s: Bytes, q: State, a: Attribute)
    requires s != [] && Blanks(s) && Stands(w, p, s) && (q.TagName? || q.AttName? || q.AttQuoted?) && IsUtf8(enc, ns)
    ensures Tracks(enc, w, p, q, a, p + |s|, Spaced(q), a)
  {
    hide IsUtf8, Tracks, Next;
    Piece(w, p, s, 1);
    SpacedNext(enc, ns, w, p, q);
    SpanStep(enc, w, p, q, a, 1, Spaced(q));
    TrackBlanks(enc, ns, w, p + 1, s[1..], Spaced(q), a);
    TracksTwice(enc, w, p, q, a, p + 1, Spaced(q), a, p + |s|, Spaced(q), a);
  }

  // ----- values -----

  lemma EqualsNext(enc: Encoding, ns: bool, w: Bytes, p: nat, q: State)
    requires p < |w| && w[p] == 0x3D && (q.AttName? || q.AttNameSpace?) && IsUtf8(enc, ns)
    ensures Next(enc, w, p, q) == Move(1, AttEquals)
  {
    hide IsUtf8, NameClass;
    TypeAt(enc, ns, w[p]);
    assert !NameChar(enc, ns, [w[p]]);
    NotInName(enc, ns, w, p);
  }

  lemma QuoteNext(enc: Encoding, ns: bool, w: Bytes, p: nat)
    requires p < |w| && IsQuote(w[p]) && IsUtf8(enc, ns)
    ensures Next(enc, w, p, AttEquals) == Move(1, AttValue(enc.byteType(w[p])))
    ensures Next(enc, w, p, AttValue(enc.byteType(w[p]))) == Move(1, AttQuoted)
  {
    hide IsUtf8;
    TypeAt(enc, ns, w[p]);
  }

  lemma CharNext(enc: Encoding, ns: bool, w: Bytes, p: nat, quote: Byte)
    requires p < |w| && w[p] != quote && w[p] != 0x3C && IsQuote(quote) && IsUtf8(enc, ns)
    ensures w[p] == 0x26 ==>
      Next(enc, w, p, AttValue(enc.byteType(quote))) == Move(1, RefStart(InValue(enc.byteType(quote))))
    ensures w[p] != 0x26 && p + Size(w[p]) <= |w| && IsChar(w[p..p + Size(w[p])]) ==>
      Next(enc, w, p, AttValue(enc.byteType(quote))) == Move(Size(w[p]), AttValue(enc.byteType(quote)))
  {
    hide IsUtf8, CharClass, IsChar;
    TypeAt(enc, ns, w[p]);
    TypeAt(enc, ns, quote);
    CharClassIs(enc, ns, w, p);
    if w[p] == 0x26 { DashIsChar(w, p); }
  }

  /** The attribute but for the mark that its value is normalized. */
  predicate SameSpan(a: Attribute, b: Attribute) { b == a.(normalized := b.normalized) }

  lemma TrackRef(enc: Encoding, ns: bool, w: Bytes, p: nat, n: nat, quote: Byte, a: Attribute) returns (b: Attribute)
    requires p + n <= |w| && IsRef(enc, ns, w[p..p + n]) && IsQuote(quote) && IsUtf8(enc, ns)
    ensures var q := AttValue(enc.byteType(quote)); 0 < n && Tracks(enc, w, p, q, a, p + n, q, b) && SameSpan(a, b)
  {
    hide IsUtf8, Spans, ScanFrom, NcName, Next;
    var x, k, q := w[p..p + n], p + n - 1, AttValue(enc.byteType(quote));
    var r := RefStart(InValue(enc.byteType(quote)));
    assert x[0] == w[p] && x[n - 1] == w[k];
    SubPiece(w, p, p + n, 1, n - 1);
    CharNext(enc, ns, w, p, quote);
    SpanStep(enc, w, p, q, a, 1, r);
    b := Track(enc, w, p, q, r, a);
    if IsEntityRef(enc, ns, x) {
      PassEntityRef(enc, ns, w, p + 1, k);
    } else {
      RefTextAt(w, p, n);
      PassCharRef(enc, ns, w, p + 1, k);
    }
    SpansBehindRef(enc, w, p + 1, RefStart(InContent), enc.byteType(quote), b);
  }

  lemma {:induction false} TrackValue(enc: Encoding, ns: bool, w: Bytes, p: nat, k: nat, quote: Byte, a: Attribute)
    returns (b: Attribute)
    requires p <= k <= |w| && AttText(enc, ns, quote, w[p..k]) && IsQuote(quote) && IsUtf8(enc, ns)
    ensures var q := AttValue(enc.byteType(quote)); Tracks(enc, w, p, q, a, k, q, b) && SameSpan(a, b)
    decreases k - p
  {
    hide IsUtf8, Spans, IsChar, IsRef, Next, Remarkable;
    var q := AttValue(enc.byteType(quote));
    b := a;
    if p < k {
      var x := w[p..k];
      assert x[0] == w[p];
      var n := Size(w[p]);
      if w[p] == 0x26 {
        n :| 0 < n <= |x| && IsRef(enc, ns, x[..n]) && AttText(enc, ns, quote, x[n..]);
        PieceIn(w, p, n, k);
        b := TrackRef(enc, ns, w, p, n, quote, a);
      } else {
        PieceIn(w, p, n, k);
        CharNext(enc, ns, w, p, quote);
        SpanStep(enc, w, p, q, a, n, q);
        b := Track(enc, w, p, q, q, a);
      }
      b := TrackValue(enc, ns, w, p + n, k, quote, b);
    }
  }

  // ----- attributes -----

  /** The places of an attribute whose text begins at `p`. */
  predicate SpanIs(b: Attribute, p: nat, f: AttForm) {
    && b.name == p + |f.space|
    && b.valuePtr == b.name + |f.name| + |f.before| + |f.after| + 2
    && b.valueEnd == b.valuePtr + |f.text|
  }

  /** The name of an attribute, with the `=` behind it. */
  lemma TrackAttName(enc: Encoding, ns: bool, w: Bytes, p: nat, name: Bytes, before: Bytes, q: State, a: Attribute)
    requires QName(enc, ns, name) && Blanks(before) && Stands(w, p, name) && Stands(w, p + |name|, before)
    requires Stands(w, p + |name| + |before|, [0x3D]) && (q.TagSpace? || q.AttSpace?) && IsUtf8(enc, ns)
    ensures Tracks(enc, w, p, q, a, p + |name| + |before| + 1, AttEquals, a.(name := p, normalized := true))
  {
    hide IsUtf8, Tracks, QName, Next;
    var k, l, b := p + |name|, p + |name| + |before|, a.(name := p, normalized := true);
    var colon := TrackQName(enc, ns, w, p, name, q, a);
    var r := AttName(colon);
    StandsOne(w, l, 0x3D);
    if before != [] {
      TrackSpace(enc, ns, w, k, before, r, b);
      TracksTwice(enc, w, p, q, a, k, r, b, l, AttNameSpace, b);
      r := AttNameSpace;
    }
    EqualsNext(enc, ns, w, l, r);
    SpanStep(enc, w, l, r, b, 1, AttEquals);
    TracksTwice(enc, w, p, q, a, l, r, b, l + 1, AttEquals, b);
  }

  /** The value of an attribute, with the white space before it, up to the closing quote. */
  lemma TrackAttValue(enc: Encoding, ns: bool, w: Bytes, p: nat, after: Bytes, quote: Byte, text: Bytes, a: Attribute)
    returns (b: Attribute)
    requires Blanks(after) && IsQuote(quote) && AttText(enc, ns, quote, text) && Stands(w, p, after)
    requires Stands(w, p + |after|, [quote]) && Stands(w, p + |after| + 1, text) && IsUtf8(enc, ns)
    ensures var k := p + |after| + 1;
      Tracks(enc, w, p, AttEquals, a, k + |text|, AttValue(enc.byteType(quote)), b) && SameSpan(a.(valuePtr := k), b)
  {
    hide IsUtf8, Tracks, AttText, Next;
    var k, q, b1 := p + |after|, AttValue(enc.byteType(quote)), a.(valuePtr := p + |after| + 1);
    StandsOne(w, k, quote);
    TrackBlanks(enc, ns, w, p, after, AttEquals, a);
    QuoteNext(enc, ns, w, k);
    SpanStep(enc, w, k, AttEquals, a, 1, q);
    b := TrackValue(enc, ns, w, k + 1, k + 1 + |text|, quote, b1);
    TracksTwice(enc, w, p, AttEquals, a, k, AttEquals, a, k + 1, q, b1);
    TracksTwice(enc, w, p, AttEquals, a, k + 1, q, b1, k + 1 + |text|, q, b);
  }

  lemma CloseSpan(enc: Encoding, ns: bool, w: Bytes, p: nat, a: Attribute)
    requires p < |w| && IsQuote(w[p]) && IsUtf8(enc, ns)
    ensures var b := a.(valueEnd := p);
      Spans(enc, w, p, AttValue(enc.byteType(w[p])), a) == [b] + Spans(enc, w, p + 1, AttQuoted, b)
  {
    hide IsUtf8, Next;
    QuoteNext(enc, ns, w, p);
  }

  lemma SpanOfAtt(enc: Encoding, ns: bool, w: Bytes, p: nat, f: AttForm, q: State, a: Attribute) returns (b: Attribute)
    requires AttOk(enc, ns, f) && Stands(w, p, PrintAtt(f)) && BeforeGap(q) && IsUtf8(enc, ns)
    ensures p + |PrintAtt(f)| <= |w| && SpanIs(b, p, f)
    ensures Spans(enc, w, p, q, a) == [b] + Spans(enc, w, p + |PrintAtt(f)|, AttQuoted, b)
  {
    hide IsUtf8, Spans, Stands, QName, AttText;
    AttIsThere(w, p, f);
    var n := p + |f.space|;
    var k := n + |f.name| + |f.before| + 1;
    var e := k + |f.after| + 1 + |f.text|;
    TrackSpace(enc, ns, w, p, f.space, q, a);
    TrackAttName(enc, ns, w, n, f.name, f.before, Spaced(q), a);
    var b1 := a.(name := n, normalized := true);
    b := TrackAttValue(enc, ns, w, k, f.after, f.quote, f.text, b1);
    StandsOne(w, e, f.quote);
    CloseSpan(enc, ns, w, e, b);
    b := b.(valueEnd := e);
  }

  /** The end of a tag has no attributes. */
  lemma EndHasNoSpans(enc: Encoding, ns: bool, w: Bytes, p: nat, s: Bytes, empty: bool, q: State, a: Attribute)
    requires Blanks(s) && Stands(w, p, s) && Stands(w, p + |s|, Close(empty)) && BeforeGap(q) && IsUtf8(enc, ns)
    requires |w| == p + |s| + |Close(empty)|
    ensures Spans(enc, w, p, q, a) == []
  {
    hide IsUtf8, Tracks;
    var k, r := p + |s|, if s == [] then q else Spaced(q);
    Piece(w, k, Close(empty), 1);
    if s != [] {
      TrackSpace(enc, ns, w, p, s, q, a);
      SpansOfTracks(enc, w, p, q, a, k, r, a);
    }
    LastStep(enc, ns, w, k, r);
    if empty {
      Piece(w, k, Close(empty), 1);
      assert Close(empty)[1..] == [0x3E];
      StandsOne(w, k + 1, 0x3E);
    }
    NoSpans(enc, w, k, r, a);
  }

  lemma SpansOfTracks(enc: Encoding, w: Bytes, p: nat, q: State, a: Attribute, k: nat, r: State, b: Attribute)
    requires Tracks(enc, w, p, q, a, k, r, b)
    ensures p <= |w| && k <= |w| && At(q, p) && At(r, k) && Spans(enc, w, p, q, a) == Spans(enc, w, k, r, b)
  {
  }

  /** The state behind `/`. */
  predicate AtEnd(q: State) { q.TagName? || q.AttQuoted? || q.TagSpace? || q.AttSpace? }

  lemma LastStep(enc: Encoding, ns: bool, w: Bytes, k: nat, q: State)
    requires k < |w| && (w[k] == 0x3E || w[k] == 0x2F) && AtEnd(q) && IsUtf8(enc, ns)
    ensures if w[k] == 0x3E then Next(enc, w, k, q).Halt?
      else Next(enc, w, k, q).Move? && Next(enc, w, k, q).n == 1 && Next(enc, w, k, q).q.TagSlash?
  {
    hide IsUtf8, NameClass, NmstrtClass;
    TypeAt(enc, ns, w[k]);
    assert !NameChar(enc, ns, [w[k]]) && !NameStartChar(enc, ns, [w[k]]);
    NotInName(enc, ns, w, k);
    HashOpensNothing(enc, ns, w, k);
  }

  lemma NoSpans(enc: Encoding, w: Bytes, k: nat, q: State, a: Attribute)
    requires k < |w| && AtEnd(q)
    requires if Next(enc, w, k, q).Halt? then true
      else Next(enc, w, k, q).n == 1 && Next(enc, w, k, q).q.TagSlash? && |w| == k + 2
    ensures Spans(enc, w, k, q, a) == []
  {
    if Next(enc, w, k, q).Move? { SlashSpans(enc, w, k + 1, Next(enc, w, k, q).q); }
  }

  lemma SlashSpans(enc: Encoding, w: Bytes, k: nat, q: State)
    requires |w| == k + 1 && q.TagSlash?
    ensures forall a :: Spans(enc, w, k, q, a) == []
  {
  }

  /** Where the attributes of a tag begin. */
  function Starts(p: nat, atts: seq<AttForm>): (r: seq<nat>)
    ensures |r| == |atts|
    decreases |atts|
  {
    if atts == [] then [] else [p] + Starts(p + |PrintAtt(atts[0])|, atts[1..])
  }

  predicate SpansAre(spans: seq<Attribute>, p: nat, atts: seq<AttForm>) {
    |spans| == |atts| && forall i :: 0 <= i < |atts| ==> SpanIs(spans[i], Starts(p, atts)[i], atts[i])
  }

  lemma {:induction false} SpansOfAtts(enc: Encoding, ns: bool, w: Bytes, p: nat, atts: seq<AttForm>, s: Bytes,
                                       empty: bool, q: State, a: Attribute) returns (spans: seq<Attribute>)
    requires AttsOk(enc, ns, atts) && Stands(w, p, PrintAtts(atts)) && BeforeGap(q) && IsUtf8(enc, ns)
    requires var k := p + |PrintAtts(atts)|;
      Blanks(s) && Stands(w, k, s) && Stands(w, k + |s|, Close(empty)) && |w| == k + |s| + |Close(empty)|
    ensures Spans(enc, w, p, q, a) == spans && SpansAre(spans, p, atts)
    decreases |atts|
  {
    hide IsUtf8, Spans, AttOk, Stands, PrintAtt;
    if atts == [] {
      EndHasNoSpans(enc, ns, w, p, s, empty, q, a);
      spans := [];
    } else {
      var n := |PrintAtt(atts[0])|;
      StandsJoin(w, p, PrintAtt(atts[0]), PrintAtts(atts[1..]));
      var b := SpanOfAtt(enc, ns, w, p, atts[0], q, a);
      var rest := SpansOfAtts(enc, ns, w, p + n, atts[1..], s, empty, AttQuoted, b);
      spans := [b] + rest;
    }
  }

  /** The attributes of a tag are those that are written in it. */
  lemma SpansOfTag(enc: Encoding, ns: bool, t: TagForm) returns (spans: seq<Attribute>)
    requires TagOk(enc, ns, t) && IsUtf8(enc, ns)
    ensures PrintTag(t) != [] && TagSpans(enc, PrintTag(t)) == spans && SpansAre(spans, 1 + |t.name|, t.atts)
  {
    hide IsUtf8, Spans, AttsOk, QName, Stands, PrintAtts, SpansAre;
    var w := PrintTag(t);
    TagOpens(t);
    TagStands(w, t);
    var colon := TrackQName(enc, ns, w, 1, t.name, AfterLt, NO_ATTRIBUTE);
    spans := SpansOfAtts(enc, ns, w, 1 + |t.name|, t.atts, t.space, t.empty, TagName(colon), NO_ATTRIBUTE);
  }
}
