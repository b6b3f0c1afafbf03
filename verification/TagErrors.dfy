/** Tags that are not well-formed although they are tokens: a name that is given twice. */
module TagErrors {
  import opened Encodings
  import opened Utf8
  import opened Automaton
  import opened Errors
  import opened AttributeValues
  import opened TagAttributes
  import opened NormalizedValues
  import opened Grammar
  import opened StartTags
  import opened Escapes
  import opened Content
  import opened Documents

  /** The attribute at `j` is the first one whose name has been given before. */
  predicate Repeats(done: seq<(Bytes, Bytes)>, atts: seq<Att>, j: nat) {
    && j < |atts| && Given(done, atts[..j], atts[j].name)
    && forall i :: 0 <= i < j ==> !Given(done, atts[..i], atts[i].name)
  }

  predicate Given(done: seq<(Bytes, Bytes)>, atts: seq<Att>, name: Bytes) {
    (exists i :: 0 <= i < |done| && done[i].0 == name) || exists i :: 0 <= i < |atts| && atts[i].name == name
  }

  lemma GivenNext(done: seq<(Bytes, Bytes)>, atts: seq<Att>, v: Bytes, i: nat, name: Bytes)
    requires 0 < i <= |atts|
    ensures Given(done, atts[..i], name) <==> Given(done + [(atts[0].name, v)], atts[1..][..i - 1], name)
  {
    var more, rest := done + [(atts[0].name, v)], atts[1..][..i - 1];
    if Given(done, atts[..i], name) {
      if k :| 0 <= k < |done| && done[k].0 == name {
        assert more[k].0 == name;
      } else {
        var k :| 0 <= k < |atts[..i]| && atts[..i][k].name == name;
        if k == 0 { assert more[|done|].0 == name; } else { assert rest[k - 1].name == name; }
      }
    }
    if Given(more, rest, name) {
      if k :| 0 <= k < |more| && more[k].0 == name {
        if k < |done| { assert done[k].0 == name; } else { assert atts[..i][0].name == name; }
      } else {
        var k :| 0 <= k < |rest| && rest[k].name == name;
        assert atts[..i][k + 1].name == name;
      }
    }
  }

  lemma RepeatsNext(done: seq<(Bytes, Bytes)>, atts: seq<Att>, j: nat, v: Bytes)
    requires Repeats(done, atts, j) && j > 0
    ensures Repeats(done + [(atts[0].name, v)], atts[1..], j - 1) && !HasName(done, atts[0].name)
  {
    hide Given;
    GivenNext(done, atts, v, j, atts[j].name);
    forall i | 0 <= i < j - 1
      ensures !Given(done + [(atts[0].name, v)], atts[1..][..i], atts[1..][i].name)
    {
      GivenNext(done, atts, v, i + 1, atts[i + 1].name);
    }
    NotGiven(done, atts[..0], atts[0].name);
  }

  lemma NotGiven(done: seq<(Bytes, Bytes)>, atts: seq<Att>, name: Bytes)
    ensures HasName(done, name) ==> Given(done, atts, name)
    ensures Given(done, [], name) ==> HasName(done, name)
  {
  }

  lemma StoreFails(env: Env, enc: Encoding, w: Bytes, spans: seq<Attribute>, done: seq<(Bytes, Bytes)>, name: Bytes,
                   value: Bytes)
    requires spans != [] && AttributeName(enc, w, spans[0]) == name
    requires AttributeValue(env, enc, w, spans[0]) == Ok(value)
    ensures HasName(done, name) ==>
      && StoreAtts(env, enc, w, spans, done) == Err(DuplicateAttribute)
      && AttsErrorPlace(env, enc, w, spans, done) == spans[0].name
    ensures !HasName(done, name) ==>
      && StoreAtts(env, enc, w, spans, done) == StoreAtts(env, enc, w, spans[1..], done + [(name, value)])
      && AttsErrorPlace(env, enc, w, spans, done) == AttsErrorPlace(env, enc, w, spans[1..], done + [(name, value)])
  {
    hide AttributeName, AttributeValue, HasName;
  }

  lemma {:induction false} StoreFailsAt(env: Env, enc: Encoding, ns: bool, w: Bytes, p: nat, atts: seq<Att>,
                                        spans: seq<Attribute>, done: seq<(Bytes, Bytes)>, j: nat)
    requires EachFits(enc, ns, atts) && Stands(w, p, PrintAtts(FormsOf(atts))) && SpansAre(spans, p, FormsOf(atts))
    requires Repeats(done, atts, j) && IsUtf8(enc, ns) && External(enc)
    ensures StoreAtts(env, enc, w, spans, done) == Err(DuplicateAttribute)
    ensures AttsErrorPlace(env, enc, w, spans, done) == p + |PrintAtts(FormsOf(atts[..j]))| + |atts[j].space|
    decreases |atts|
  {
    hide IsUtf8, AttFits, Stands, PrintAtt, PrintAtts, AttributeName, AttributeValue, StoreAtts, AttsErrorPlace;
    hide SpansAre, AttValueOf, FormsOf, Repeats, HasName;
    RepeatsIs(done, atts, j);
    var value := AttValueOf(true, atts[0].value);
    var n := FirstStored(env, enc, ns, w, p, atts, spans);
    StoreFails(env, enc, w, spans, done, atts[0].name, value);
    PrintedBefore(atts, j);
    if j > 0 {
      RepeatsNext(done, atts, j, value);
      StoreFailsAt(env, enc, ns, w, p + n, atts[1..], spans[1..], done + [(atts[0].name, value)], j - 1);
    }
  }

  lemma RepeatsIs(done: seq<(Bytes, Bytes)>, atts: seq<Att>, j: nat)
    requires Repeats(done, atts, j)
    ensures j < |atts| && (j == 0 ==> HasName(done, atts[0].name))
  {
    hide Given;
    assert atts[..0] == [];
    NotGiven(done, [], atts[0].name);
  }

  lemma PrintedBefore(atts: seq<Att>, j: nat)
    requires j < |atts|
    ensures |PrintAtts(FormsOf(atts[..j]))|
      == if j == 0 then 0 else |PrintAtt(FormOf(atts[0]))| + |PrintAtts(FormsOf(atts[1..][..j - 1]))|
  {
    hide PrintAtt;
    if j > 0 { assert FormsOf(atts[..j])[1..] == FormsOf(atts[1..][..j - 1]); }
  }

  /** Section 3.1 of XML 1.0: no name may be given twice in a tag; the error is at the second one. */
  lemma RepeatedIsError(env: Env, enc: Encoding, ns: bool, stack: seq<Bytes>, name: Bytes, atts: seq<Att>,
                        space: Bytes, empty: bool, rest: Bytes, j: nat)
    requires QName(enc, ns, name) && EachFits(enc, ns, atts) && Blanks(space) && Repeats([], atts, j)
    requires IsUtf8(enc, ns) && External(enc)
    ensures ContentStep(env, enc, stack, PrintTag(TagOf(name, atts, space, empty)) + rest, true)
      == Fail(DuplicateAttribute, 1 + |name| + |PrintAtts(FormsOf(atts[..j]))| + |atts[j].space|, [])
  {
    hide IsUtf8, ContentTok, EachFits, QName, PrintTag, StoreAtts, AttsErrorPlace, TagSpans, NameEnd, PrintAtts,
         SpansAre, FormsOf, Repeats, Stands;
    var t := TagOf(name, atts, space, empty);
    var tag := PrintTag(t);
    var w := tag + rest;
    assert w[..|tag|] == tag;
    TagFormFits(enc, ns, name, atts, space, empty);
    assert Production(enc, ns, TagToken(t.atts != [], empty), tag);
    FormIsToken(enc, ns, w, TagToken(t.atts != [], empty), |tag|);
    TagStands(tag, t);
    var spans := SpansOfTag(enc, ns, t);
    StoreFailsAt(env, enc, ns, tag, 1 + |name|, atts, spans, [], j);
  }

  /** The names of a tag are distinct exactly if none is repeated. */
  lemma FitsExactlyIf(enc: Encoding, ns: bool, atts: seq<Att>)
    requires EachFits(enc, ns, atts)
    ensures AttsFit(enc, ns, atts) <==> forall j: nat :: !Repeats([], atts, j)
  {
    hide EachFits;
    if forall j: nat :: !Repeats([], atts, j) { FirstRepeated(atts, |atts|); }
    forall j: nat | AttsFit(enc, ns, atts)
      ensures !Repeats([], atts, j)
    {
    }
    if forall j: nat :: !Repeats([], atts, j) {
      forall i, j | 0 <= i < j < |atts|
        ensures atts[i].name != atts[j].name
      {
        assert !Given([], atts[..j], atts[j].name);
        assert atts[..j][i] == atts[i];
      }
    }
  }

  lemma {:induction false} FirstRepeated(atts: seq<Att>, n: nat)
    requires n <= |atts| && forall j: nat :: j < n ==> !Repeats([], atts, j)
    ensures forall i :: 0 <= i < n ==> !Given([], atts[..i], atts[i].name)
  {
    hide Given;
    if n > 0 {
      FirstRepeated(atts, n - 1);
      assert !Repeats([], atts, n - 1);
    }
  }
}
