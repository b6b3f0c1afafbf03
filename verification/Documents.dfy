/**
 Documents: what is written is what is reported.

 A tree of elements, text, comments, processing instructions and CDATA sections is printed, in any of the ways
 the grammar allows, and the calls of the handlers for it are defined on the tree alone.
 */
module Documents {
  import opened Encodings
  import opened Utf8
  import opened Automaton
  import opened Errors
  import opened AttributeValues
  import opened TagAttributes
  import opened NormalizedValues
  import opened LineEnds
  import opened Grammar
  import opened StartTags
  import opened Escapes
  import opened WrittenText
  import opened Content
  import opened ChunkIndependence
  import CdataSections

  // ----- trees -----

  /** An attribute as it is written. */
  datatype Att = Att(space: Bytes, name: Bytes, before: Bytes, after: Bytes, quote: Byte, value: seq<Written>)

  datatype Node =
    | Text(text: seq<Written>)
    | Cdata(data: Bytes)
    | CommentNode(comment: Bytes)
    | Pi(target: Bytes, space: Bytes, instruction: Bytes)
    | Empty(name: Bytes, atts: seq<Att>, tagSpace: Bytes)
    | Element(name: Bytes, atts: seq<Att>, tagSpace: Bytes, children: seq<Node>, endSpace: Bytes)

  function FormOf(a: Att): AttForm { AttForm(a.space, a.name, a.before, a.after, a.quote, Print(a.value)) }

  function FormsOf(atts: seq<Att>): (r: seq<AttForm>)
    ensures |r| == |atts| && forall i :: 0 <= i < |atts| ==> r[i] == FormOf(atts[i])
  {
    seq(|atts|, i requires 0 <= i < |atts| => FormOf(atts[i]))
  }

  ghost predicate AttFits(enc: Encoding, ns: bool, a: Att) {
    && a.space != [] && Blanks(a.space) && QName(enc, ns, a.name) && Blanks(a.before) && Blanks(a.after)
    && IsQuote(a.quote) && AllAttWritten(a.value)
    && forall i :: 0 <= i < |a.value| && a.value[i].Literal? ==> a.value[i].c != a.quote
  }

  ghost predicate EachFits(enc: Encoding, ns: bool, atts: seq<Att>) {
    forall i :: 0 <= i < |atts| ==> AttFits(enc, ns, atts[i])
  }

  ghost predicate AttsFit(enc: Encoding, ns: bool, atts: seq<Att>) {
    && EachFits(enc, ns, atts)
    && (forall i, j :: 0 <= i < j < |atts| ==> atts[i].name != atts[j].name)
  }

  /** What the start handler is given: names with the characters that are written in their values. */
  function Given(atts: seq<Att>): (r: seq<(Bytes, Bytes)>)
    ensures |r| == |atts| && forall i :: 0 <= i < |atts| ==> r[i] == (atts[i].name, AttValueOf(true, atts[i].value))
  {
    seq(|atts|, i requires 0 <= i < |atts| => (atts[i].name, AttValueOf(true, atts[i].value)))
  }

  // ----- start tags -----

  lemma {:induction false} PrintIsAttText(enc: Encoding, ns: bool, quote: Byte, ps: seq<Written>)
    requires AllAttWritten(ps) && IsQuote(quote)
    requires forall i :: 0 <= i < |ps| && ps[i].Literal? ==> ps[i].c != quote
    ensures AttText(enc, ns, quote, Print(ps))
    decreases |ps|
  {
    hide IsRef, IsChar, IsXmlChar, NamedRef, NumericRef, Encode;
    if ps != [] {
      var e, y := PrintOne(ps[0]), Print(ps[1..]);
      PrintIsAttText(enc, ns, quote, ps[1..]);
      assert AttWritten(ps[0]);
      if ps[0].Literal? {
        EncodeIsChar(ps[0].c);
      } else {
        RefOfOne(enc, ns, ps[0]);
      }
      assert (e + y)[..|e|] == e && (e + y)[|e|..] == y;
    }
  }

  lemma RefOfOne(enc: Encoding, ns: bool, p: Written)
    requires AttWritten(p) && !p.Literal?
    ensures IsRef(enc, ns, PrintOne(p)) && PrintOne(p) != [] && PrintOne(p)[0] == 0x26
  {
    hide NcName;
    if p.Named? { NamedIs(enc, ns, p.c); } else { NumericIs(p.c, p.radix); }
  }

  lemma FormFits(enc: Encoding, ns: bool, a: Att)
    requires AttFits(enc, ns, a)
    ensures AttOk(enc, ns, FormOf(a))
  {
    hide QName, AttText, AttWritten;
    PrintIsAttText(enc, ns, a.quote, a.value);
  }

  /** Not part of a name: what may stand behind one in a tag. */
  predicate BehindName(b: Byte) { IsBlank(b) || b == 0x3D || b == 0x3E || b == 0x2F }

  lemma NameEndStep(enc: Encoding, ns: bool, w: Bytes, p: nat)
    requires p < |w| && IsUtf8(enc, ns)
    ensures BehindName(w[p]) ==> NameEnd(enc, w, p) == p
    ensures p + Size(w[p]) <= |w| && (w[p] == 0x3A || NameChar(enc, ns, w[p..p + Size(w[p])])
                                      || NameStartChar(enc, ns, w[p..p + Size(w[p])])) ==>
      NameEnd(enc, w, p) == NameEnd(enc, w, p + Size(w[p]))
  {
    hide IsUtf8;
    TypeAt(enc, ns, w[p]);
    if p + Size(w[p]) <= |w| { assert w[p..p + Size(w[p])][0] == w[p]; }
  }

  lemma {:induction false} NameEndParts(enc: Encoding, ns: bool, w: Bytes, p: nat, x: Bytes)
    requires NameChars(enc, ns, x) && Stands(w, p, x) && IsUtf8(enc, ns)
    ensures NameEnd(enc, w, p) == NameEnd(enc, w, p + |x|)
    decreases |x|
  {
    hide IsUtf8, NameChar, NameEnd;
    if x != [] {
      NameFits(w, p, x);
      Piece(w, p, x, Size(x[0]));
      NameEndStep(enc, ns, w, p);
      NameEndParts(enc, ns, w, p + Size(x[0]), x[Size(x[0])..]);
    }
  }

  lemma NameEndNcName(enc: Encoding, ns: bool, w: Bytes, p: nat, x: Bytes)
    requires NcName(enc, ns, x) && Stands(w, p, x) && IsUtf8(enc, ns)
    ensures NameEnd(enc, w, p) == NameEnd(enc, w, p + |x|)
  {
    hide IsUtf8, NameStartChar, NameChars, NameEnd;
    NameFits(w, p, x);
    Piece(w, p, x, Size(x[0]));
    NameEndStep(enc, ns, w, p);
    NameEndParts(enc, ns, w, p + Size(x[0]), x[Size(x[0])..]);
  }

  /** The length of a name is that of the name. */
  lemma NameEndIs(enc: Encoding, ns: bool, w: Bytes, p: nat, x: Bytes)
    requires QName(enc, ns, x) && Stands(w, p, x) && p + |x| < |w| && BehindName(w[p + |x|]) && IsUtf8(enc, ns)
    ensures NameEnd(enc, w, p) == p + |x|
  {
    hide IsUtf8, NcName, NameEnd, BehindName, NameChar, NameStartChar, Stands;
    NameEndStep(enc, ns, w, p + |x|);
    if NcName(enc, ns, x) {
      NameEndNcName(enc, ns, w, p, x);
    } else {
      var k :| 0 < k < |x| - 1 && x[k] == 0x3A && NcName(enc, ns, x[..k]) && NcName(enc, ns, x[k + 1..]);
      NameEndPrefixed(enc, ns, w, p, x, k);
    }
  }

  lemma NameEndPrefixed(enc: Encoding, ns: bool, w: Bytes, p: nat, x: Bytes, k: nat)
    requires 0 < k < |x| - 1 && x[k] == 0x3A && NcName(enc, ns, x[..k]) && NcName(enc, ns, x[k + 1..])
    requires Stands(w, p, x) && IsUtf8(enc, ns)
    ensures NameEnd(enc, w, p) == NameEnd(enc, w, p + |x|)
  {
    hide IsUtf8, NcName, NameEnd, BehindName, NameChar, NameStartChar;
    Piece(w, p, x, k);
    Piece(w, p, x, k + 1);
    assert w[p + k] == w[p..p + |x|][k];
    NameEndNcName(enc, ns, w, p, x[..k]);
    NameEndStep(enc, ns, w, p + k);
    NameEndNcName(enc, ns, w, p + k + 1, x[k + 1..]);
  }

  /** The name and the value of an attribute, where it stands. */
  lemma AttRead(env: Env, enc: Encoding, ns: bool, w: Bytes, p: nat, a: Att, span: Attribute)
    requires AttFits(enc, ns, a) && Stands(w, p, PrintAtt(FormOf(a))) && SpanIs(span, p, FormOf(a))
    requires IsUtf8(enc, ns) && External(enc)
    ensures AttributeName(enc, w, span) == a.name && AttributeValue(env, enc, w, span) == Ok(AttValueOf(true, a.value))
  {
    hide IsUtf8, QName, AttWritten, NameEnd, Normal, Stands;
    var f := FormOf(a);
    AttIsThere(w, p, f);
    var n := p + |f.space|;
    BehindAttName(w, n + |a.name|, a.before);
    NameEndIs(enc, ns, w, n, a.name);
    StandsIs(w, n, a.name);
    StandsIs(w, span.valuePtr, f.text);
    NormalOfWritten(env, enc, ns, {}, a.value);
  }

  lemma StandsIs(w: Bytes, p: nat, x: Bytes)
    requires Stands(w, p, x)
    ensures p + |x| <= |w| && w[p..p + |x|] == x
  {
  }

  lemma BehindAttName(w: Bytes, k: nat, before: Bytes)
    requires Blanks(before) && Stands(w, k, before) && Stands(w, k + |before|, [0x3D])
    ensures k < |w| && BehindName(w[k])
  {
    StandsOne(w, k + |before|, 0x3D);
    if before != [] { Piece(w, k, before, 0); }
  }

  lemma {:induction false} StoreIs(env: Env, enc: Encoding, ns: bool, w: Bytes, p: nat, atts: seq<Att>,
                                   spans: seq<Attribute>, done: seq<(Bytes, Bytes)>)
    requires AttsFit(enc, ns, atts) && Stands(w, p, PrintAtts(FormsOf(atts))) && SpansAre(spans, p, FormsOf(atts))
    requires forall i, j :: 0 <= i < |done| && 0 <= j < |atts| ==> done[i].0 != atts[j].name
    requires IsUtf8(enc, ns) && External(enc)
    ensures StoreAtts(env, enc, w, spans, done) == Ok(done + Given(atts))
    decreases |atts|
  {
    hide IsUtf8, AttFits, Stands, PrintAtt, PrintAtts, AttributeName, AttributeValue, StoreAtts, SpansAre, Given;
    hide AttValueOf, FormsOf;
    if atts == [] {
      NothingGiven(done);
      NothingStored(env, enc, w, spans, p, done);
    } else {
      var n := FirstStored(env, enc, ns, w, p, atts, spans);
      var more := done + [(atts[0].name, AttValueOf(true, atts[0].value))];
      StoreNext(env, enc, w, spans, done, atts[0].name, AttValueOf(true, atts[0].value));
      StoreIs(env, enc, ns, w, p + n, atts[1..], spans[1..], more);
      GivenNext(atts, done);
    }
  }

  /** The first attribute is read, and the others stand behind it. */
  lemma FirstStored(env: Env, enc: Encoding, ns: bool, w: Bytes, p: nat, atts: seq<Att>, spans: seq<Attribute>)
    returns (n: nat)
    requires EachFits(enc, ns, atts) && Stands(w, p, PrintAtts(FormsOf(atts))) && SpansAre(spans, p, FormsOf(atts))
    requires atts != [] && IsUtf8(enc, ns) && External(enc)
    ensures n == |PrintAtt(FormOf(atts[0]))| && spans != [] && AttributeName(enc, w, spans[0]) == atts[0].name
    ensures spans[0].name == p + |atts[0].space|
    ensures AttributeValue(env, enc, w, spans[0]) == Ok(AttValueOf(true, atts[0].value))
    ensures Stands(w, p + n, PrintAtts(FormsOf(atts[1..]))) && SpansAre(spans[1..], p + n, FormsOf(atts[1..]))
  {
    hide IsUtf8, AttFits, Stands, PrintAtt, AttributeName, AttributeValue, SpansAre, AttValueOf;
    var forms := FormsOf(atts);
    n := |PrintAtt(forms[0])|;
    assert forms[1..] == FormsOf(atts[1..]);
    StandsJoin(w, p, PrintAtt(forms[0]), PrintAtts(forms[1..]));
    SpansRest(spans, p, forms);
    AttRead(env, enc, ns, w, p, atts[0], spans[0]);
  }

  lemma NothingGiven(done: seq<(Bytes, Bytes)>)
    ensures done + Given([]) == done && FormsOf([]) == []
  {
  }

  lemma GivenNext(atts: seq<Att>, done: seq<(Bytes, Bytes)>)
    requires atts != []
    ensures done + [(atts[0].name, AttValueOf(true, atts[0].value))] + Given(atts[1..]) == done + Given(atts)
  {
    hide AttValueOf;
  }

  lemma NothingStored(env: Env, enc: Encoding, w: Bytes, spans: seq<Attribute>, p: nat, done: seq<(Bytes, Bytes)>)
    requires SpansAre(spans, p, [])
    ensures StoreAtts(env, enc, w, spans, done) == Ok(done)
  {
  }

  lemma StoreNext(env: Env, enc: Encoding, w: Bytes, spans: seq<Attribute>, done: seq<(Bytes, Bytes)>, name: Bytes,
                  value: Bytes)
    requires spans != [] && AttributeName(enc, w, spans[0]) == name
    requires AttributeValue(env, enc, w, spans[0]) == Ok(value)
    requires forall i :: 0 <= i < |done| ==> done[i].0 != name
    ensures StoreAtts(env, enc, w, spans, done) == StoreAtts(env, enc, w, spans[1..], done + [(name, value)])
  {
    hide AttributeName, AttributeValue;
  }

  lemma SpansRest(spans: seq<Attribute>, p: nat, atts: seq<AttForm>)
    requires SpansAre(spans, p, atts) && atts != []
    ensures |spans| == |atts| && SpanIs(spans[0], p, atts[0])
    ensures SpansAre(spans[1..], p + |PrintAtt(atts[0])|, atts[1..])
  {
    hide SpanIs, PrintAtt;
    var rest := Starts(p + |PrintAtt(atts[0])|, atts[1..]);
    forall i | 0 <= i < |atts[1..]|
      ensures SpanIs(spans[1..][i], rest[i], atts[1..][i])
    {
      assert SpanIs(spans[i + 1], Starts(p, atts)[i + 1], atts[i + 1]);
    }
  }

  function TagOf(name: Bytes, atts: seq<Att>, space: Bytes, empty: bool): TagForm {
    TagForm(name, FormsOf(atts), space, empty)
  }

  /** A tag of well-formed parts. */
  ghost predicate TagFits(enc: Encoding, ns: bool, name: Bytes, atts: seq<Att>, space: Bytes) {
    QName(enc, ns, name) && AttsFit(enc, ns, atts) && Blanks(space)
  }

  /** The step over a tag: its name, and its attributes with their values. */
  lemma TagStep(env: Env, enc: Encoding, ns: bool, stack: seq<Bytes>, name: Bytes, atts: seq<Att>, space: Bytes,
                empty: bool, rest: Bytes)
    requires TagFits(enc, ns, name, atts, space) && IsUtf8(enc, ns) && External(enc)
    ensures var tag := PrintTag(TagOf(name, atts, space, empty));
      var start := Call(StartElement(name, Given(atts)), 0);
      ContentStep(env, enc, stack, tag + rest, true) ==
        if !empty then Go(|tag|, [start], Position(false, stack + [name]))
        else
          var calls := [start, Call(EndElement(name), |tag|)];
          if stack == [] then Finish(|tag|, calls) else Go(|tag|, calls, Position(false, stack))
  {
    hide IsUtf8, ContentTok, AttFits, QName, PrintTag, StoreAtts, AttsErrorPlace, TagSpans, NameEnd, Given, PrintAtts;
    var t := TagOf(name, atts, space, empty);
    var tag := PrintTag(t);
    var w := tag + rest;
    assert w[..|tag|] == tag;
    TagFormFits(enc, ns, name, atts, space, empty);
    assert Production(enc, ns, TagToken(t.atts != [], empty), tag);
    FormIsToken(enc, ns, w, TagToken(t.atts != [], empty), |tag|);
    TagOpens(t);
    TagNameIs(enc, ns, t);
    TagStores(env, enc, ns, name, atts, space, empty);
  }

  lemma TagFormFits(enc: Encoding, ns: bool, name: Bytes, atts: seq<Att>, space: Bytes, empty: bool)
    requires QName(enc, ns, name) && EachFits(enc, ns, atts) && Blanks(space)
    ensures TagOk(enc, ns, TagOf(name, atts, space, empty))
  {
    hide AttFits, AttOk, QName;
    forall i | 0 <= i < |atts|
      ensures AttOk(enc, ns, FormOf(atts[i]))
    {
      FormFits(enc, ns, atts[i]);
    }
  }

  lemma TagNameIs(enc: Encoding, ns: bool, t: TagForm)
    requires TagOk(enc, ns, t) && IsUtf8(enc, ns)
    ensures var tag := PrintTag(t); |tag| > 1 && tag[1..NameEnd(enc, tag, 1)] == t.name
  {
    hide IsUtf8, QName, NameEnd, PrintTag, Stands;
    var tag := PrintTag(t);
    var k := 1 + |t.name|;
    TagStands(tag, t);
    StandsIs(tag, 1, t.name);
    BehindTagName(enc, ns, tag, k, t.atts, t.space, t.empty);
    NameEndIs(enc, ns, tag, 1, t.name);
  }

  lemma BehindTagName(enc: Encoding, ns: bool, w: Bytes, k: nat, atts: seq<AttForm>, space: Bytes, empty: bool)
    requires Stands(w, k, PrintAtts(atts)) && Stands(w, k + |PrintAtts(atts)|, space)
    requires Stands(w, k + |PrintAtts(atts)| + |space|, Close(empty)) && AttsOk(enc, ns, atts) && Blanks(space)
    ensures k < |w| && BehindName(w[k])
  {
    hide QName, AttText, Stands;
    if atts != [] {
      StandsJoin(w, k, PrintAtt(atts[0]), PrintAtts(atts[1..]));
      assert AttOk(enc, ns, atts[0]);
      AttIsThere(w, k, atts[0]);
      Piece(w, k, atts[0].space, 1);
      StandsOne(w, k, atts[0].space[0]);
      assert atts[0].space[..1] == [atts[0].space[0]];
    } else if space != [] {
      Piece(w, k, space, 1);
      StandsOne(w, k, space[0]);
      assert space[..1] == [space[0]];
    } else {
      Piece(w, k, Close(empty), 1);
      StandsOne(w, k, Close(empty)[0]);
      assert Close(empty)[..1] == [Close(empty)[0]];
    }
  }

  lemma TagStores(env: Env, enc: Encoding, ns: bool, name: Bytes, atts: seq<Att>, space: Bytes, empty: bool)
    requires TagFits(enc, ns, name, atts, space) && IsUtf8(enc, ns) && External(enc)
    ensures var tag := PrintTag(TagOf(name, atts, space, empty));
      tag != [] && StoreAtts(env, enc, tag, TagSpans(enc, tag), []) == Ok(Given(atts))
  {
    hide IsUtf8, AttFits, QName, PrintTag, StoreAtts, TagSpans, SpansAre, Stands, Given, TagOk, PrintAtts, FormsOf;
    var t := TagOf(name, atts, space, empty);
    TagFormFits(enc, ns, name, atts, space, empty);
    TagStands(PrintTag(t), t);
    var spans := SpansOfTag(enc, ns, t);
    StoreIs(env, enc, ns, PrintTag(t), 1 + |name|, atts, spans, []);
    assert [] + Given(atts) == Given(atts);
  }

  // ----- CDATA sections -----

  /** Line ends are single line feeds, everything else is itself. */
  function LineAtoms(x: Bytes): seq<Atom>
    decreases |x|
  {
    if x == [] then []
    else if x[0] == 0x0D then
      var n := if |x| > 1 && x[1] == 0x0A then 2 else 1;
      [Datum(0x0A, 0)] + LaterAtoms(n, LineAtoms(x[n..]))
    else
      var n := if Size(x[0]) <= |x| then Size(x[0]) else |x|;
      DataAtoms(x[..n], 0) + LaterAtoms(n, LineAtoms(x[n..]))
  }

  const CDATA_END: Bytes := [0x5D, 0x5D, 0x3E]

  /** How many bytes of a section are its first character or line end. */
  function PieceSize(x: Bytes): nat
    requires x != []
  {
    if x[0] != 0x0D then Size(x[0]) else if |x| > 1 && x[1] == 0x0A then 2 else 1
  }

  lemma PieceIs(enc: Encoding, ns: bool, x: Bytes, rest: Bytes)
    requires x != [] && Chars(x) && NoCdataEnd(x) && External(enc) && IsUtf8(enc, ns)
    ensures var n := PieceSize(x);
      && n <= |x| && NoCdataEnd(x[n..])
      && CdataSections.FirstPiece(enc, x + CDATA_END + rest)
        == CdataSections.Character(n, if x[0] == 0x0D then [0x0A] else x[..n])
  {
    hide IsUtf8, IsMultibyte, Decode, CdataSections.FirstPiece;
    var n, w := PieceSize(x), x + CDATA_END + rest;
    NoEndBehind(x, n);
    assert w[0] == x[0] && w[1] == (if |x| > 1 then x[1] else 0x5D);
    assert w[2] == if |x| > 2 then x[2] else 0x5D;
    assert w[..n] == x[..n];
    PieceAt(enc, ns, w);
  }

  lemma PieceAt(enc: Encoding, ns: bool, w: Bytes)
    requires |w| >= 3 && External(enc) && IsUtf8(enc, ns) && !(w[0] == 0x5D && w[1] == 0x5D && w[2] == 0x3E)
    requires PieceSize(w) <= |w| && (w[0] != 0x0D ==> IsChar(w[..PieceSize(w)]))
    ensures CdataSections.FirstPiece(enc, w)
      == CdataSections.Character(PieceSize(w), if w[0] == 0x0D then [0x0A] else w[..PieceSize(w)])
  {
    hide IsUtf8, IsMultibyte, Decode;
    TypeAt(enc, ns, w[0]);
    TypeAt(enc, ns, w[1]);
    assert w[1..][0] == w[1] && w[1..][1] == w[2];
    var n := PieceSize(w);
    if Announced(w[0]) > 0 { CharIsValid(enc, ns, w[..n]); } else { assert w[..1] == [w[0]]; }
  }

  lemma PieceChars(x: Bytes)
    requires x != [] && Chars(x)
    ensures PieceSize(x) <= |x| && Chars(x[PieceSize(x)..])
    ensures LineAtoms(x) == DataAtoms(if x[0] == 0x0D then [0x0A] else x[..PieceSize(x)], 0)
      + LaterAtoms(PieceSize(x), LineAtoms(x[PieceSize(x)..]))
  {
    hide IsMultibyte, Decode;
    LineFeedAtom();
    if x[0] == 0x0D && |x| > 1 && x[1] == 0x0A {
      assert Chars(x[1..]) && x[1..][1..] == x[2..];
    }
  }

  lemma {:induction false} SectionIs(enc: Encoding, ns: bool, x: Bytes, rest: Bytes)
    requires Chars(x) && NoCdataEnd(x) && External(enc) && IsUtf8(enc, ns)
    ensures CdataSections.SectionOf(enc, x + CDATA_END + rest, true)
      == CdataSections.Section(LineAtoms(x), CdataSections.Ends(|x| + 3))
    decreases |x|
  {
    hide IsUtf8, CdataSections.FirstPiece, DataAtoms, Chars, NoCdataEnd, LineAtoms;
    var w := x + CDATA_END + rest;
    if x == [] {
      DelimiterIs(enc, ns, rest);
      assert [] + CDATA_END + rest == CDATA_END + rest;
      NoLines();
    } else {
      var n := PieceSize(x);
      PieceIs(enc, ns, x, rest);
      PieceChars(x);
      assert w[n..] == x[n..] + CDATA_END + rest;
      SectionIs(enc, ns, x[n..], rest);
      CdataSections.CharacterIs(enc, w, true);
    }
  }

  lemma NoLines()
    ensures LineAtoms([]) == []
  {
  }

  lemma DelimiterIs(enc: Encoding, ns: bool, rest: Bytes)
    requires IsUtf8(enc, ns)
    ensures CdataSections.FirstPiece(enc, CDATA_END + rest).Delimiter?
  {
    hide IsUtf8;
    var w := CDATA_END + rest;
    TypeAt(enc, ns, w[0]);
    assert w[1..][0] == 0x5D && w[1..][1] == 0x3E && w[1..][..2] == [0x5D, 0x3E];
  }

  /** The data of a section and its end. */
  function SectionAtoms(x: Bytes): seq<Atom> { LineAtoms(x) + [Mark(EndCdataSection, |x|)] }

  lemma SectionReads(env: Env, enc: Encoding, ns: bool, stack: seq<Bytes>, x: Bytes, rest: Bytes)
    requires Chars(x) && NoCdataEnd(x) && External(enc) && IsUtf8(enc, ns)
    ensures Reads(env, enc, Position(true, stack), x + CDATA_END, SectionAtoms(x), Position(false, stack), rest)
  {
    hide IsUtf8, Parse, Atoms, CdataSections.SectionOf, LineAtoms, Chars;
    var w, n := x + CDATA_END + rest, |x| + 3;
    SectionIs(enc, ns, x, rest);
    CdataSections.SectionIsReported(env, enc, stack, w, true);
    CdataSections.BehindIs(env, enc, stack, w, true);
    assert w[n..] == rest && |x + CDATA_END| == n;
  }

  // ----- the parts of a document -----

  const CDATA_START: Bytes := [0x3C, 0x21, 0x5B, 0x43, 0x44, 0x41, 0x54, 0x41, 0x5B]

  function PrintPi(target: Bytes, space: Bytes, instruction: Bytes): Bytes {
    [0x3C, 0x3F] + target + space + instruction + [0x3F, 0x3E]
  }

  function PrintComment(x: Bytes): Bytes { [0x3C, 0x21, 0x2D, 0x2D] + x + [0x2D, 0x2D, 0x3E] }

  function PrintEnd(name: Bytes, space: Bytes): Bytes { [0x3C, 0x2F] + name + space + [0x3E] }

  /** No `--` in a comment, and no `-` at its end. */
  predicate CommentFits(x: Bytes) {
    Chars(x) && forall i :: 0 <= i < |x| && x[i] == 0x2D ==> i + 1 < |x| && x[i + 1] != 0x2D
  }

  /** A target but `xml`, white space if anything follows, and text without `?>`. */
  predicate PiFits(enc: Encoding, ns: bool, target: Bytes, space: Bytes, x: Bytes) {
    && NcName(enc, ns, target) && !IsXml(target) && Blanks(space) && (space == [] ==> x == [])
    && Chars(x) && (x != [] ==> !IsBlank(x[0]))
    && forall i :: 0 <= i < |x| - 1 && x[i] == 0x3F ==> x[i + 1] != 0x3E
  }

  lemma CommentReads(env: Env, enc: Encoding, ns: bool, stack: seq<Bytes>, x: Bytes, rest: Bytes)
    requires CommentFits(x) && IsUtf8(enc, ns)
    ensures var at := Position(false, stack);
      Reads(env, enc, at, PrintComment(x), [Mark(Comment(NormalizedLines(x)), 0)], at, rest)
  {
    hide IsUtf8, ContentTok, Reads, Chars, NormalizedLines;
    var u, at := PrintComment(x), Position(false, stack);
    var w := u + rest;
    assert w[..|u|] == u;
    CommentIs(x);
    CommentIsToken(enc, ns, w, |u|);
    StepReads(env, enc, at, u, Now(CommentEvent(u)), at, rest);
    OneMark(CommentEvent(u), 0);
  }

  lemma CommentIs(x: Bytes)
    requires CommentFits(x)
    ensures IsComment(PrintComment(x)) && CommentEvent(PrintComment(x)) == Comment(NormalizedLines(x))
  {
    hide Chars, NormalizedLines;
    var u := PrintComment(x);
    assert u[..4] == [0x3C, 0x21, 0x2D, 0x2D] && u[|u| - 3..] == [0x2D, 0x2D, 0x3E] && u[4..|u| - 3] == x;
    forall i | 4 <= i < |u| - 3 && u[i] == 0x2D
      ensures u[i + 1] != 0x2D
    {
      assert u[i] == x[i - 4];
      assert u[i + 1] == x[i - 4 + 1];
    }
  }

  lemma OneMark(e: Event, at: nat)
    requires !e.CharacterData?
    ensures Atoms([Call(e, at)]) == [Mark(e, at)]
  {
    assert [Call(e, at)][1..] == [];
  }

  lemma PiReads(env: Env, enc: Encoding, ns: bool, stack: seq<Bytes>, target: Bytes, space: Bytes, x: Bytes,
                rest: Bytes)
    requires PiFits(enc, ns, target, space, x) && IsUtf8(enc, ns)
    ensures var at := Position(false, stack);
      Reads(env, enc, at, PrintPi(target, space, x), [Mark(ProcessingInstruction(target, NormalizedLines(x)), 0)], at,
            rest)
  {
    hide IsUtf8, ContentTok, Reads, PiFits, NormalizedLines, PrintPi, IsPi, PiEvent;
    var u, at := PrintPi(target, space, x), Position(false, stack);
    var w := u + rest;
    assert w[..|u|] == u;
    PiIs(enc, ns, target, space, x);
    PiIsToken(enc, ns, w, |u|, TokPi);
    StepReads(env, enc, at, u, Now(PiEvent(enc, u)), at, rest);
    OneMark(PiEvent(enc, u), 0);
  }

  lemma PiIs(enc: Encoding, ns: bool, target: Bytes, space: Bytes, x: Bytes)
    requires PiFits(enc, ns, target, space, x) && IsUtf8(enc, ns)
    ensures var u := PrintPi(target, space, x);
      IsPi(enc, ns, u, TokPi) && PiEvent(enc, u) == ProcessingInstruction(target, NormalizedLines(x))
  {
    hide IsUtf8, Chars, NormalizedLines, NcName, NameEnd;
    var u, k := PrintPi(target, space, x), 2 + |target|;
    var l := |u| - 2;
    assert u[..2] == [0x3C, 0x3F] && u[l..] == [0x3F, 0x3E] && u[2..k] == target;
    NotEmpty(enc, ns, target);
    PiRestIs(enc, ns, target, space, x);
    PiEventIs(enc, ns, target, space, x);
  }

  lemma NotEmpty(enc: Encoding, ns: bool, x: Bytes)
    requires NcName(enc, ns, x)
    ensures x != []
  {
  }

  lemma PiEventIs(enc: Encoding, ns: bool, target: Bytes, space: Bytes, x: Bytes)
    requires PiFits(enc, ns, target, space, x) && IsUtf8(enc, ns)
    ensures PiEvent(enc, PrintPi(target, space, x)) == ProcessingInstruction(target, NormalizedLines(x))
  {
    hide IsUtf8, Chars, NormalizedLines, NcName, NameEnd, IsXml;
    var u, k := PrintPi(target, space, x), 2 + |target|;
    var l := |u| - 2;
    PiNameEnd(enc, ns, target, space, x);
    assert u[2..k] == target && u[k..k + |space|] == space && u[k + |space|..l] == x;
    if x != [] { assert u[k + |space|] == x[0]; }
    SkipIs(enc, ns, u, k, k + |space|, l);
  }

  lemma PiRestIs(enc: Encoding, ns: bool, target: Bytes, space: Bytes, x: Bytes)
    requires PiFits(enc, ns, target, space, x)
    ensures var u, k := PrintPi(target, space, x), 2 + |target|; 2 <= k <= |u| - 2 && PiRest(u, k)
  {
    hide NcName, Chars, IsXml, NoPiEnd;
    var u, k := PrintPi(target, space, x), 2 + |target|;
    var l := |u| - 2;
    if space != [] {
      assert u[k] == space[0] && u[k + 1..l] == space[1..] + x;
      BlankChars(space[1..], x);
      NoEndInPi([0x3C, 0x3F] + target, space, x);
    }
  }

  lemma NoEndInPi(start: Bytes, space: Bytes, x: Bytes)
    requires Blanks(space) && space != [] && forall i :: 0 <= i < |x| - 1 && x[i] == 0x3F ==> x[i + 1] != 0x3E
    ensures var u := start + space + x + [0x3F, 0x3E]; NoPiEnd(u, |start| + 1, |u| - 2)
  {
    var u, s := start + space + x + [0x3F, 0x3E], |start| + |space|;
    var l := |u| - 2;
    assert forall i :: |start| <= i < s ==> u[i] == space[i - |start|];
    assert forall i :: s <= i < l ==> u[i] == x[i - s];
    assert u[l] == 0x3F;
    forall i | s <= i < l && u[i] == 0x3F
      ensures u[i + 1] != 0x3E
    {
      if i + 1 < l { assert u[i + 1] == x[i - s + 1]; }
    }
  }

  lemma {:induction false} BlankChars(s: Bytes, x: Bytes)
    requires Blanks(s) && Chars(x)
    ensures Chars(s + x)
    decreases |s|
  {
    hide IsMultibyte, Decode;
    if s == [] {
      assert s + x == x;
    } else {
      BlankChars(s[1..], x);
      assert (s + x)[..1] == [s[0]] && (s + x)[1..] == s[1..] + x;
    }
  }

  lemma PiNameEnd(enc: Encoding, ns: bool, target: Bytes, space: Bytes, x: Bytes)
    requires PiFits(enc, ns, target, space, x) && IsUtf8(enc, ns)
    ensures var u := PrintPi(target, space, x); NameEnd(enc, u, 2) == 2 + |target|
  {
    hide IsUtf8, NcName, NameEnd, Chars;
    var u, k := PrintPi(target, space, x), 2 + |target|;
    assert u[2..2 + |target|] == target;
    NameEndNcName(enc, ns, u, 2, target);
    if space == [] { assert u[k] == 0x3F; } else { assert u[k] == space[0]; }
    NameStops(enc, ns, u, k);
  }

  lemma NameStops(enc: Encoding, ns: bool, w: Bytes, p: nat)
    requires p < |w| && (IsBlank(w[p]) || w[p] == 0x3F) && IsUtf8(enc, ns)
    ensures NameEnd(enc, w, p) == p
  {
    hide IsUtf8;
    TypeAt(enc, ns, w[p]);
  }

  lemma {:induction false} SkipIs(enc: Encoding, ns: bool, w: Bytes, p: nat, k: nat, end: nat)
    requires p <= k <= end <= |w| && Blanks(w[p..k]) && (k < end ==> !IsBlank(w[k])) && IsUtf8(enc, ns)
    ensures SkipSpace(enc, w, p, end) == k
    decreases k - p
  {
    hide IsUtf8;
    if p < end { TypeAt(enc, ns, w[p]); }
    if p < k {
      assert w[p..k][0] == w[p] && w[p..k][1..] == w[p + 1..k];
      SkipIs(enc, ns, w, p + 1, k, end);
    }
  }

  // ----- trees -----

  function PrintNode(n: Node): Bytes
    decreases n, 0
  {
    match n
    case Text(ps) => Print(ps)
    case Cdata(x) => CDATA_START + (x + CDATA_END)
    case CommentNode(x) => PrintComment(x)
    case Pi(target, space, x) => PrintPi(target, space, x)
    case Empty(name, atts, space) => PrintTag(TagOf(name, atts, space, true))
    case Element(name, atts, space, children, endSpace) =>
      PrintTag(TagOf(name, atts, space, false)) + (PrintNodes(children, |children|) + PrintEnd(name, endSpace))
  }

  /** The first `n` of the nodes. */
  function PrintNodes(nodes: seq<Node>, n: nat): Bytes
    requires n <= |nodes|
    decreases nodes, n
  {
    if n == 0 then [] else PrintNodes(nodes, n - 1) + PrintNode(nodes[n - 1])
  }

  /** What the handlers are called with, at which offsets; data byte by byte. */
  function Events(n: Node): seq<Atom>
    decreases n, 0
  {
    match n
    case Text(ps) => TextAtoms(ps)
    case Cdata(x) => [Mark(StartCdataSection, 0)] + LaterAtoms(9, SectionAtoms(x))
    case CommentNode(x) => [Mark(Comment(NormalizedLines(x)), 0)]
    case Pi(target, _, x) => [Mark(ProcessingInstruction(target, NormalizedLines(x)), 0)]
    case Empty(name, atts, _) =>
      [Mark(StartElement(name, Given(atts)), 0), Mark(EndElement(name), |PrintNode(n)|)]
    case Element(name, atts, space, children, _) =>
      var tag := |PrintTag(TagOf(name, atts, space, false))|;
      [Mark(StartElement(name, Given(atts)), 0)]
      + LaterAtoms(tag, EventsOf(children, |children|) + [Mark(EndElement(name), |PrintNodes(children, |children|)|)])
  }

  function EventsOf(nodes: seq<Node>, n: nat): seq<Atom>
    requires n <= |nodes|
    decreases nodes, n
  {
    if n == 0 then []
    else EventsOf(nodes, n - 1) + LaterAtoms(|PrintNodes(nodes, n - 1)|, Events(nodes[n - 1]))
  }

  /** Well-formed parts; no text is empty or next to another one. */
  ghost predicate Fits(enc: Encoding, ns: bool, n: Node)
    decreases n
  {
    match n
    case Text(ps) => TextOk(ps) && ps != []
    case Cdata(x) => Chars(x) && NoCdataEnd(x)
    case CommentNode(x) => CommentFits(x)
    case Pi(target, space, x) => PiFits(enc, ns, target, space, x)
    case Empty(name, atts, space) => TagFits(enc, ns, name, atts, space)
    case Element(name, atts, space, children, endSpace) =>
      && TagFits(enc, ns, name, atts, space) && Blanks(endSpace)
      && (forall i :: 0 <= i < |children| ==> Fits(enc, ns, children[i]))
      && (forall i :: 0 <= i < |children| - 1 ==> !(children[i].Text? && children[i + 1].Text?))
  }

  // ----- end tags -----

  lemma {:induction false} PartsOfEnd(enc: Encoding, ns: bool, x: Bytes)
    requires NameChars(enc, ns, x)
    ensures EndParts(enc, ns, x)
    decreases |x|
  {
    hide NameChar;
    if x != [] { PartsOfEnd(enc, ns, x[Size(x[0])..]); }
  }

  lemma {:induction false} PartsJoin(enc: Encoding, ns: bool, x: Bytes, y: Bytes)
    requires EndParts(enc, ns, x) && EndParts(enc, ns, y)
    ensures EndParts(enc, ns, x + y)
    decreases |x|
  {
    hide NameChar, Size;
    if x == [] {
      assert x + y == y;
    } else {
      var n := Size(x[0]);
      PartsJoin(enc, ns, x[n..], y);
      JoinedParts(x, y, n);
    }
  }

  lemma JoinedParts(x: Bytes, y: Bytes, n: nat)
    requires 0 < n <= |x|
    ensures (x + y)[..n] == x[..n] && (x + y)[n..] == x[n..] + y && (x + y)[0] == x[0]
  {
  }

  /** The name of a start tag may stand in an end tag. */
  lemma NameOfEnd(enc: Encoding, ns: bool, x: Bytes)
    requires QName(enc, ns, x) && NameTables(enc)
    ensures EndName(enc, ns, x)
  {
    hide NameChar, NameStartChar, EndParts, NameChars, NcName;
    if NcName(enc, ns, x) {
      StartOfEnd(enc, ns, x, []);
      assert x + [] == x;
    } else {
      var k :| 0 < k < |x| - 1 && x[k] == 0x3A && NcName(enc, ns, x[..k]) && NcName(enc, ns, x[k + 1..]);
      StartOfParts(enc, ns, x[k + 1..]);
      StartOfEnd(enc, ns, x[..k], [0x3A] + x[k + 1..]);
      assert x[..k] + ([0x3A] + x[k + 1..]) == x;
    }
  }

  lemma StartOfEnd(enc: Encoding, ns: bool, x: Bytes, y: Bytes)
    requires NcName(enc, ns, x) && (y == [] || EndParts(enc, ns, y))
    ensures EndName(enc, ns, x + y)
  {
    hide NameChar, NameStartChar, EndParts, NameChars;
    var n := Size(x[0]);
    PartsOfEnd(enc, ns, x[n..]);
    NoParts(enc, ns);
    PartsJoin(enc, ns, x[n..], y);
    assert (x + y)[..n] == x[..n] && (x + y)[n..] == x[n..] + y;
  }

  lemma NoParts(enc: Encoding, ns: bool)
    ensures EndParts(enc, ns, [])
  {
  }

  /** As in XML, every character that may begin a name may stand in one. */
  ghost predicate NameTables(enc: Encoding) { forall c: Bytes :: enc.isNmstrt(c) ==> enc.isName(c) }

  lemma StartOfParts(enc: Encoding, ns: bool, x: Bytes)
    requires NcName(enc, ns, x) && NameTables(enc)
    ensures EndParts(enc, ns, [0x3A] + x)
  {
    hide NameChar, NameStartChar, NameChars, EndParts;
    var n := Size(x[0]);
    StartIsChar(enc, ns, x[..n]);
    PartsOfEnd(enc, ns, x[n..]);
    FirstPart(enc, ns, x);
    assert ([0x3A] + x)[1..] == x;
    ColonFirst(enc, ns, [0x3A] + x);
  }

  lemma StartIsChar(enc: Encoding, ns: bool, c: Bytes)
    requires NameStartChar(enc, ns, c) && NameTables(enc)
    ensures NameChar(enc, ns, c)
  {
  }

  lemma FirstPart(enc: Encoding, ns: bool, x: Bytes)
    requires x != [] && Size(x[0]) <= |x| && NameChar(enc, ns, x[..Size(x[0])]) && EndParts(enc, ns, x[Size(x[0])..])
    ensures EndParts(enc, ns, x)
  {
    hide NameChar;
  }

  lemma ColonFirst(enc: Encoding, ns: bool, x: Bytes)
    requires x != [] && x[0] == 0x3A && EndParts(enc, ns, x[1..])
    ensures EndParts(enc, ns, x)
  {
    hide NameChar;
  }

  lemma EndIs(enc: Encoding, ns: bool, name: Bytes, space: Bytes)
    requires QName(enc, ns, name) && Blanks(space) && NameTables(enc) && IsUtf8(enc, ns)
    ensures var u := PrintEnd(name, space); IsEndTag(enc, ns, u) && u[2..NameEnd(enc, u, 2)] == name
  {
    hide IsUtf8, QName, EndName, NameEnd;
    var u, k := PrintEnd(name, space), 2 + |name|;
    assert u[..2] == [0x3C, 0x2F] && u[2..k] == name && u[k..|u| - 1] == space;
    assert u[2..2 + |name|] == name;
    NameOfEnd(enc, ns, name);
    SomeName(enc, ns, name);
    if space == [] { assert u[k] == 0x3E; } else { assert u[k] == space[0]; }
    NameEndIs(enc, ns, u, 2, name);
  }

  lemma SomeName(enc: Encoding, ns: bool, x: Bytes)
    requires QName(enc, ns, x)
    ensures x != []
  {
    hide NcName;
    if NcName(enc, ns, x) { NotEmpty(enc, ns, x); }
  }

  /** The step over the end tag of the innermost element. */
  lemma EndStep(env: Env, enc: Encoding, ns: bool, stack: seq<Bytes>, name: Bytes, space: Bytes, rest: Bytes)
    requires QName(enc, ns, name) && Blanks(space) && stack != [] && stack[|stack| - 1] == name
    requires NameTables(enc) && IsUtf8(enc, ns)
    ensures var u := PrintEnd(name, space);
      ContentStep(env, enc, stack, u + rest, true) ==
        if |stack| == 1 then Finish(|u|, Now(EndElement(name)))
        else Go(|u|, Now(EndElement(name)), Position(false, stack[..|stack| - 1]))
  {
    hide IsUtf8, QName, ContentTok, NameEnd, IsEndTag, PrintEnd;
    var u := PrintEnd(name, space);
    var w := u + rest;
    assert w[..|u|] == u;
    EndIs(enc, ns, name, space);
    EndTagIsToken(enc, ns, w, |u|);
  }

  // ----- reading a tree -----

  /** What no text stands before: every node but text begins with `<`. */
  lemma NodeOpens(n: Node)
    requires !n.Text?
    ensures PrintNode(n) != [] && PrintNode(n)[0] == 0x3C
  {
    hide PrintTag, PrintNodes, Print;
    match n
    case Cdata(_) =>
    case CommentNode(_) =>
    case Pi(_, _, _) =>
    case Empty(name, atts, space) => TagOpens(TagOf(name, atts, space, true));
    case Element(name, atts, space, _, _) => TagOpens(TagOf(name, atts, space, false));
  }

  /** Text may only stand before markup. */
  predicate MayFollow(n: Node, rest: Bytes) { n.Text? ==> rest != [] && rest[0] == 0x3C }

  lemma CdataReads(env: Env, enc: Encoding, ns: bool, stack: seq<Bytes>, x: Bytes, rest: Bytes)
    requires Chars(x) && NoCdataEnd(x) && External(enc) && IsUtf8(enc, ns)
    ensures var at := Position(false, stack); Reads(env, enc, at, PrintNode(Cdata(x)), Events(Cdata(x)), at, rest)
  {
    hide IsUtf8, ContentTok, Reads, SectionAtoms, Chars;
    var at, within := Position(false, stack), Position(true, stack);
    var v := x + CDATA_END + rest;
    var w := CDATA_START + v;
    assert w[..9] == CDATA_START;
    CdataIsToken(enc, ns, w);
    StepReads(env, enc, at, CDATA_START, Now(StartCdataSection), within, v);
    OneMark(StartCdataSection, 0);
    SectionReads(env, enc, ns, stack, x, rest);
    ReadsTwice(env, enc, at, CDATA_START, [Mark(StartCdataSection, 0)], within, x + CDATA_END, SectionAtoms(x), at,
               rest);
  }

  lemma EmptyReads(env: Env, enc: Encoding, ns: bool, stack: seq<Bytes>, n: Node, rest: Bytes)
    requires n.Empty? && Fits(enc, ns, n) && stack != [] && IsUtf8(enc, ns) && External(enc)
    ensures var at := Position(false, stack); Reads(env, enc, at, PrintNode(n), Events(n), at, rest)
  {
    hide IsUtf8, ContentStep, Reads, TagFits, Given;
    var at, u := Position(false, stack), PrintNode(n);
    TagStep(env, enc, ns, stack, n.name, n.atts, n.tagSpace, true, rest);
    var calls := [Call(StartElement(n.name, Given(n.atts)), 0), Call(EndElement(n.name), |u|)];
    StepReads(env, enc, at, u, calls, at, rest);
    TwoMarks(calls[0], calls[1]);
  }

  lemma TwoMarks(c: Call, d: Call)
    requires !c.event.CharacterData? && !d.event.CharacterData?
    ensures Atoms([c, d]) == [Mark(c.event, c.at), Mark(d.event, d.at)]
  {
    hide Atoms;
    AtomsAppend([c], [d]);
    OneMark(c.event, c.at);
    OneMark(d.event, d.at);
    assert [c, d] == [c] + [d];
  }

  /** A start tag, up to the children. */
  lemma StartReads(env: Env, enc: Encoding, ns: bool, stack: seq<Bytes>, n: Node, rest: Bytes)
    requires n.Element? && Fits(enc, ns, n) && IsUtf8(enc, ns) && External(enc)
    ensures Reads(env, enc, Position(false, stack), PrintTag(TagOf(n.name, n.atts, n.tagSpace, false)),
                  [Mark(StartElement(n.name, Given(n.atts)), 0)], Position(false, stack + [n.name]), rest)
  {
    hide IsUtf8, ContentStep, Reads, TagFits, Given, PrintTag;
    var start := Call(StartElement(n.name, Given(n.atts)), 0);
    TagStep(env, enc, ns, stack, n.name, n.atts, n.tagSpace, false, rest);
    StepReads(env, enc, Position(false, stack), PrintTag(TagOf(n.name, n.atts, n.tagSpace, false)), [start],
              Position(false, stack + [n.name]), rest);
    OneMark(start.event, 0);
  }

  /** The end tag of an element in another one. */
  lemma EndReads(env: Env, enc: Encoding, ns: bool, stack: seq<Bytes>, name: Bytes, space: Bytes, rest: Bytes)
    requires QName(enc, ns, name) && Blanks(space) && stack != [] && NameTables(enc) && IsUtf8(enc, ns)
    ensures Reads(env, enc, Position(false, stack + [name]), PrintEnd(name, space), [Mark(EndElement(name), 0)],
                  Position(false, stack), rest)
  {
    hide IsUtf8, ContentStep, Reads, QName, PrintEnd;
    EndStep(env, enc, ns, stack + [name], name, space, rest);
    assert (stack + [name])[..|stack|] == stack;
    StepReads(env, enc, Position(false, stack + [name]), PrintEnd(name, space), Now(EndElement(name)),
              Position(false, stack), rest);
    OneMark(EndElement(name), 0);
  }

  lemma {:induction false} NodeReads(env: Env, enc: Encoding, ns: bool, stack: seq<Bytes>, n: Node, rest: Bytes)
    requires Fits(enc, ns, n) && stack != [] && MayFollow(n, rest)
    requires External(enc) && NameTables(enc) && IsUtf8(enc, ns)
    ensures var at := Position(false, stack); Reads(env, enc, at, PrintNode(n), Events(n), at, rest)
    decreases n, 2
  {
    hide IsUtf8, Reads, TagFits, External, NameTables;
    match n
    case Text(ps) => TextReads(env, enc, ns, stack, ps, rest);
    case Cdata(x) => CdataReads(env, enc, ns, stack, x, rest);
    case CommentNode(x) => CommentReads(env, enc, ns, stack, x, rest);
    case Pi(target, space, x) => PiReads(env, enc, ns, stack, target, space, x, rest);
    case Empty(_, _, _) => EmptyReads(env, enc, ns, stack, n, rest);
    case Element(_, _, _, _, _) => ElementReads(env, enc, ns, stack, n, rest);
  }

  /** An element, without its end tag. */
  function WithoutEnd(n: Node): Bytes
    requires n.Element?
  {
    PrintTag(TagOf(n.name, n.atts, n.tagSpace, false)) + PrintNodes(n.children, |n.children|)
  }

  function EventsBefore(n: Node): seq<Atom>
    requires n.Element?
  {
    [Mark(StartElement(n.name, Given(n.atts)), 0)]
    + LaterAtoms(|PrintTag(TagOf(n.name, n.atts, n.tagSpace, false))|, EventsOf(n.children, |n.children|))
  }

  lemma {:induction false} ReadsToEnd(env: Env, enc: Encoding, ns: bool, stack: seq<Bytes>, n: Node, rest: Bytes)
    requires n.Element? && Fits(enc, ns, n) && rest != [] && rest[0] == 0x3C
    requires External(enc) && NameTables(enc) && IsUtf8(enc, ns)
    ensures Reads(env, enc, Position(false, stack), WithoutEnd(n), EventsBefore(n),
                  Position(false, stack + [n.name]), rest)
    decreases n, 0
  {
    hide IsUtf8, Reads, TagFits, External, NameTables, PrintTag, Given;
    var tag, children := PrintTag(TagOf(n.name, n.atts, n.tagSpace, false)), PrintNodes(n.children, |n.children|);
    var within := Position(false, stack + [n.name]);
    StartReads(env, enc, ns, stack, n, children + rest);
    ChildrenRead(env, enc, ns, stack + [n.name], n.children, |n.children|, rest);
    ReadsTwice(env, enc, Position(false, stack), tag, [Mark(StartElement(n.name, Given(n.atts)), 0)], within, children,
               EventsOf(n.children, |n.children|), within, rest);
  }

  lemma {:induction false} ElementReads(env: Env, enc: Encoding, ns: bool, stack: seq<Bytes>, n: Node, rest: Bytes)
    requires n.Element? && Fits(enc, ns, n) && stack != []
    requires External(enc) && NameTables(enc) && IsUtf8(enc, ns)
    ensures var at := Position(false, stack); Reads(env, enc, at, PrintNode(n), Events(n), at, rest)
    decreases n, 1
  {
    hide IsUtf8, Reads, AttsFit, External, NameTables, WithoutEnd, EventsBefore, QName;
    var end := PrintEnd(n.name, n.endSpace);
    ReadsToEnd(env, enc, ns, stack, n, end + rest);
    EndReads(env, enc, ns, stack, n.name, n.endSpace, rest);
    ReadsTwice(env, enc, Position(false, stack), WithoutEnd(n), EventsBefore(n), Position(false, stack + [n.name]), end,
               [Mark(EndElement(n.name), 0)], Position(false, stack), rest);
    WholeElement(n);
  }

  lemma WholeElement(n: Node)
    requires n.Element?
    ensures PrintNode(n) == WithoutEnd(n) + PrintEnd(n.name, n.endSpace)
    ensures Events(n) == EventsBefore(n) + LaterAtoms(|WithoutEnd(n)|, [Mark(EndElement(n.name), 0)])
  {
    hide PrintTag, PrintEnd, Given;
    var tag, children := PrintTag(TagOf(n.name, n.atts, n.tagSpace, false)), PrintNodes(n.children, |n.children|);
    var events := EventsOf(n.children, |n.children|);
    LaterAtomsAppend(|tag|, events, [Mark(EndElement(n.name), |children|)]);
    assert tag + (children + PrintEnd(n.name, n.endSpace)) == tag + children + PrintEnd(n.name, n.endSpace);
    assert LaterAtoms(|tag|, [Mark(EndElement(n.name), |children|)])
      == LaterAtoms(|tag| + |children|, [Mark(EndElement(n.name), 0)]);
    var start := [Mark(StartElement(n.name, Given(n.atts)), 0)];
    var last := LaterAtoms(|tag|, [Mark(EndElement(n.name), |children|)]);
    assert start + (LaterAtoms(|tag|, events) + last) == start + LaterAtoms(|tag|, events) + last;
  }

  lemma {:induction false} ChildrenRead(env: Env, enc: Encoding, ns: bool, stack: seq<Bytes>, nodes: seq<Node>, n: nat,
                                        rest: Bytes)
    requires n <= |nodes| && stack != [] && (n > 0 ==> MayFollow(nodes[n - 1], rest))
    requires forall i :: 0 <= i < |nodes| ==> Fits(enc, ns, nodes[i])
    requires forall i :: 0 <= i < |nodes| - 1 ==> !(nodes[i].Text? && nodes[i + 1].Text?)
    requires External(enc) && NameTables(enc) && IsUtf8(enc, ns)
    ensures var at := Position(false, stack); Reads(env, enc, at, PrintNodes(nodes, n), EventsOf(nodes, n), at, rest)
    decreases nodes, n
  {
    hide IsUtf8, Reads, Fits, External, NameTables, PrintNode, Events;
    var at := Position(false, stack);
    if n == 0 {
      ReadsNothing(env, enc, at, rest);
    } else {
      var last := nodes[n - 1];
      if !last.Text? { NodeOpens(last); }
      ChildrenRead(env, enc, ns, stack, nodes, n - 1, PrintNode(last) + rest);
      NodeReads(env, enc, ns, stack, last, rest);
      ReadsTwice(env, enc, at, PrintNodes(nodes, n - 1), EventsOf(nodes, n - 1), at, PrintNode(last), Events(last), at,
                 rest);
    }
  }

  // ----- documents -----

  /** The root is read to its end, whatever stands behind it. */
  lemma RootIsRead(env: Env, enc: Encoding, ns: bool, n: Node, rest: Bytes)
    requires (n.Element? || n.Empty?) && Fits(enc, ns, n) && External(enc) && NameTables(enc) && IsUtf8(enc, ns)
    ensures var r := Parse(env, enc, Position(false, []), PrintNode(n) + rest, true);
      r.end == Closed(|PrintNode(n)|) && Atoms(r.calls) == Events(n)
  {
    hide IsUtf8, AttsFit, External, NameTables, QName, ContentStep, Parse, Events, Given, PrintTag, Atoms;
    var root := Position(false, []);
    if n.Empty? {
      var u := PrintNode(n);
      var calls := [Call(StartElement(n.name, Given(n.atts)), 0), Call(EndElement(n.name), |u|)];
      TagStep(env, enc, ns, [], n.name, n.atts, n.tagSpace, true, rest);
      RunEndsHere(env, enc, root, u + rest, |u|, calls);
      TwoMarks(calls[0], calls[1]);
      EmptyEvents(n);
    } else {
      var u, end := WithoutEnd(n), PrintEnd(n.name, n.endSpace);
      ReadsToEnd(env, enc, ns, [], n, end + rest);
      EndStep(env, enc, ns, [n.name], n.name, n.endSpace, rest);
      RunEndsHere(env, enc, Position(false, [n.name]), end + rest, |end|, Now(EndElement(n.name)));
      OneMark(EndElement(n.name), 0);
      WholeElement(n);
      assert [] + [n.name] == [n.name];
      assert u + (end + rest) == PrintNode(n) + rest;
    }
  }

  lemma EmptyEvents(n: Node)
    requires n.Empty?
    ensures Events(n) == [Mark(StartElement(n.name, Given(n.atts)), 0), Mark(EndElement(n.name), |PrintNode(n)|)]
  {
  }

  lemma RunEndsHere(env: Env, enc: Encoding, at: Position, w: Bytes, k: nat, calls: seq<Call>)
    requires NextStep(env, enc, at, w, true) == Finish(k, calls)
    ensures Parse(env, enc, at, w, true) == Report(calls, Closed(k))
  {
    hide NextStep;
  }

  lemma {:induction false} NothingHeld(env: Env, enc: Encoding, at: Position, w: Bytes)
    requires Parse(env, enc, at, w, true).end.Closed?
    ensures HeldBack(env, enc, at, w, true) == []
    decreases |w|
  {
    hide NextStep, DataFails;
    StepAdvances(env, enc, at, w, true);
    match NextStep(env, enc, at, w, true)
    case Go(n, _, next) => NothingHeld(env, enc, next, w[n..]);
    case _ =>
  }

  /** Every report of a printed tree has its events. */
  lemma TreeIsReported(env: Env, enc: Encoding, ns: bool, n: Node, rest: Bytes, r: Report)
    requires (n.Element? || n.Empty?) && Fits(enc, ns, n) && External(enc) && NameTables(enc) && IsUtf8(enc, ns)
    requires IsReportOf(env, enc, Position(false, []), PrintNode(n) + rest, true, r)
    ensures r.end == Closed(|PrintNode(n)|) && Atoms(r.calls) == Events(n)
  {
    hide IsUtf8, Fits, Parse, HeldBack, Atoms, Events, PrintNode, External, NameTables;
    RootIsRead(env, enc, ns, n, rest);
    NothingHeld(env, enc, Position(false, []), PrintNode(n) + rest);
  }

  /**
   The round trip of documents: however a printed tree is cut into buffers, the handlers are called with exactly
   the events of the tree, at its offsets, and the root is closed at its end.
   */
  lemma DocumentIsReported(env: Env, ns: bool, isName: Bytes -> bool, isNmstrt: Bytes -> bool, n: Node,
                           chunks: seq<Bytes>, rest: Bytes)
    requires (forall c: Bytes :: isNmstrt(c) ==> isName(c))
    requires var enc := Utf8Encoding(ns, false, isName, isNmstrt); (n.Element? || n.Empty?) && Fits(enc, ns, n)
    requires chunks != [] && Concat(chunks) == PrintNode(n) + rest
    ensures var enc := Utf8Encoding(ns, false, isName, isNmstrt);
      var r := ParseChunks(env, enc, Position(false, []), [], chunks);
      r.end == Closed(|PrintNode(n)|) && Atoms(r.calls) == Events(n)
  {
    hide IsUtf8, Fits, Parse, ParseChunks, Atoms, Events, PrintNode, IsReportOf;
    var enc, root := Utf8Encoding(ns, false, isName, isNmstrt), Position(false, []);
    Utf8IsUtf8(ns, false, isName, isNmstrt);
    assert External(enc) && NameTables(enc);
    hide Utf8Encoding;
    assert [] + Concat(chunks) == PrintNode(n) + rest;
    ChunksDoNotMatter(env, enc, root, [], chunks);
    TreeIsReported(env, enc, ns, n, rest, ParseChunks(env, enc, root, [], chunks));
  }

  // ----- what is no document -----

  /** An end tag that does not have the name of the innermost element is an error at its name. */
  lemma MismatchIsError(env: Env, enc: Encoding, ns: bool, stack: seq<Bytes>, n: Node, name: Bytes, space: Bytes,
                        rest: Bytes)
    requires n.Element? && Fits(enc, ns, n) && QName(enc, ns, name) && Blanks(space) && name != n.name
    requires External(enc) && NameTables(enc) && IsUtf8(enc, ns)
    ensures var r := Parse(env, enc, Position(false, stack), WithoutEnd(n) + (PrintEnd(name, space) + rest), true);
      r.end == Failed(TagMismatch, |WithoutEnd(n)| + 2) && Atoms(r.calls) == EventsBefore(n)
  {
    hide IsUtf8, AttsFit, QName, Parse, External, NameTables, WithoutEnd, EventsBefore, PrintEnd, Atoms, ContentStep;
    var end, within := PrintEnd(name, space) + rest, stack + [n.name];
    EndOpens(name, space, rest);
    ReadsToEnd(env, enc, ns, stack, n, end);
    OtherEndStep(env, enc, ns, within, name, space, rest);
    RunFails(env, enc, Position(false, within), end, true, TagMismatch, 2);
    EmptyAtoms();
    assert EventsBefore(n) + [] == EventsBefore(n);
  }

  lemma EndOpens(name: Bytes, space: Bytes, rest: Bytes)
    ensures var w := PrintEnd(name, space) + rest; w != [] && w[0] == 0x3C
  {
  }

  lemma OtherEndStep(env: Env, enc: Encoding, ns: bool, stack: seq<Bytes>, name: Bytes, space: Bytes, rest: Bytes)
    requires QName(enc, ns, name) && Blanks(space) && stack != [] && stack[|stack| - 1] != name
    requires NameTables(enc) && IsUtf8(enc, ns)
    ensures ContentStep(env, enc, stack, PrintEnd(name, space) + rest, true) == Fail(TagMismatch, 2, [])
  {
    hide IsUtf8, QName, ContentTok, NameEnd, IsEndTag, PrintEnd;
    var u := PrintEnd(name, space);
    var w := u + rest;
    assert w[..|u|] == u;
    EndIs(enc, ns, name, space);
    EndTagIsToken(enc, ns, w, |u|);
  }

  /** The errors of a document that stops too early. */
  predicate Unfinished(e: Error) { e.NoElements? || e.UnclosedToken? || e.PartialChar? || e.UnclosedCdataSection? }

  /** If a run waits for more input, without any it fails for want of it. */
  lemma {:induction false} WaitsOrFails(env: Env, enc: Encoding, at: Position, w: Bytes)
    requires Parse(env, enc, at, w, false).end.NeedMore?
    ensures var r := Parse(env, enc, at, w, true); r.end.Failed? && Unfinished(r.end.error)
    decreases |w|
  {
    hide NextStep;
    StepAdvances(env, enc, at, w, false);
    LastStepOr(env, enc, at, w);
    match NextStep(env, enc, at, w, false)
    case Go(n, _, next) => WaitsOrFails(env, enc, next, w[n..]);
    case Wait =>
  }

  /** Without more input a step is the same, or it fails for want of it. */
  lemma LastStepOr(env: Env, enc: Encoding, at: Position, w: Bytes)
    ensures var s, last := NextStep(env, enc, at, w, false), NextStep(env, enc, at, w, true);
      if s.Wait? then last.Fail? && Unfinished(last.error) else last == s
  {
    if at.inCdata { LastOfSection(enc, at.stack, w); } else { LastOfContent(env, enc, at.stack, w); }
  }

  lemma LastOfContent(env: Env, enc: Encoding, stack: seq<Bytes>, w: Bytes)
    ensures var s, last := ContentStep(env, enc, stack, w, false), ContentStep(env, enc, stack, w, true);
      if s.Wait? then last.Fail? && Unfinished(last.error) else last == s
  {
    hide ContentTok, PredefinedEntity, TagSpans, NameEnd, StoreAtts;
    var t := ContentTok(enc, w);
    if t.tok.TokStartTagNoAtts? || t.tok.TokStartTagWithAtts? {
      TagNeverWaits(env, enc, w[..t.next], false, stack);
    } else if t.tok.TokEmptyElementNoAtts? || t.tok.TokEmptyElementWithAtts? {
      TagNeverWaits(env, enc, w[..t.next], true, stack);
    }
  }

  lemma TagNeverWaits(env: Env, enc: Encoding, tag: Bytes, empty: bool, stack: seq<Bytes>)
    requires tag != []
    ensures !StartTagStep(env, enc, tag, empty, stack).Wait?
  {
    hide StoreAtts, TagSpans, NameEnd;
  }

  lemma LastOfSection(enc: Encoding, stack: seq<Bytes>, w: Bytes)
    ensures var s, last := CdataSectionStep(enc, stack, w, false), CdataSectionStep(enc, stack, w, true);
      if s.Wait? then last.Fail? && Unfinished(last.error) else last == s
  {
    hide CdataSectionTok;
  }

  /** No document is the beginning of another one: what stops before the end of the root is unfinished. */
  lemma BeginningIsUnfinished(env: Env, enc: Encoding, ns: bool, n: Node, k: nat)
    requires (n.Element? || n.Empty?) && Fits(enc, ns, n) && k < |PrintNode(n)|
    requires External(enc) && NameTables(enc) && IsUtf8(enc, ns)
    ensures var r := Parse(env, enc, Position(false, []), PrintNode(n)[..k], true);
      r.end.Failed? && Unfinished(r.end.error)
  {
    hide IsUtf8, Fits, Parse, HeldBack, Atoms, Events, PrintNode, External, NameTables, Splits;
    var w, root := PrintNode(n), Position(false, []);
    var u, more := w[..k], w[k..];
    assert u + more == w == w + [];
    RootIsRead(env, enc, ns, n, []);
    RunCut(env, enc, root, u, more, true);
    ClosedWithin(env, enc, root, u, false);
    WaitsOrFails(env, enc, root, u);
  }

  lemma {:induction false} ClosedWithin(env: Env, enc: Encoding, at: Position, w: Bytes, final: bool)
    ensures var r := Parse(env, enc, at, w, final); r.end.Closed? ==> r.end.pos <= |w|
    decreases |w|
  {
    hide NextStep;
    StepAdvances(env, enc, at, w, final);
    match NextStep(env, enc, at, w, final)
    case Go(n, _, next) => ClosedWithin(env, enc, next, w[n..], final);
    case _ =>
  }
}
