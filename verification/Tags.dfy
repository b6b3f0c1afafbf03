/** Start tags: the attributes of a tag as the start handler gets them. */
module Tags {
  import opened Encodings
  import opened Automaton
  import opened Errors
  import opened AttributeValues
  import opened ValueReaders
  import opened TagAttributes
  import opened NormalizedValues
  import opened Content

  const INIT_ATTS_SIZE := 16

  lemma HasNameAppend(done: seq<(Bytes, Bytes)>, name: Bytes, v: Bytes, other: Bytes)
    ensures HasName(done + [(name, v)], other) <==> HasName(done, other) || other == name
  {
    var more := done + [(name, v)];
    if HasName(done, other) {
      var i :| 0 <= i < |done| && done[i].0 == other;
      assert more[i].0 == other;
    }
    if other == name { assert more[|done|].0 == other; }
  }

  /** The value of an attribute, by the short cut if it is normalized already. */
  method ReadValue(env: Env, enc: Encoding, tag: Bytes, a: Attribute) returns (r: Result<Bytes>, place: nat)
    requires ValidEnv(env) && Standard(enc) && tag != [] && IsTag(ScanFrom(enc, tag, 1, AfterLt).tok)
    requires a in TagSpans(enc, tag)
    ensures r == AttributeValue(env, enc, tag, a)
    ensures r.Err? ==> place == ValueErrorPlace(env, enc, tag, a)
  {
    hide ScanFrom, Spans, Standard, Normal, ErrorPlace;
    TagSpansAreGood(enc, tag);
    assert Good(enc, tag, a);
    var text := tag[a.valuePtr..a.valueEnd];
    if a.normalized {
      NormalizedIsUnchanged(env, enc, {}, tag, a, true);
      return Ok(text), 0;
    }
    var reader := new ValueReader(env);
    var e := reader.StoreAttributeValue(enc, true, text);
    if e.Some? {
      return Err(e.value), if reader.eventPtr.Some? then a.valuePtr + reader.eventPtr.value else 0;
    }
    return Ok(reader.pool), 0;
  }

  /** The attributes of the tag; the table is replaced if there are too many for it. */
  method ReadSpans(enc: Encoding, tag: Bytes) returns (atts: array<Attribute>, n: nat)
    requires Standard(enc) && tag != [] && IsTag(ScanFrom(enc, tag, 1, AfterLt).tok)
    ensures n <= atts.Length && atts[..n] == TagSpans(enc, tag)
  {
    hide ScanFrom, Spans, Standard, IsTag, TagSpans;
    atts := new Attribute[INIT_ATTS_SIZE](_ => NO_ATTRIBUTE);
    n := GetAtts(enc, tag, INIT_ATTS_SIZE, atts);
    if n > INIT_ATTS_SIZE {
      atts := new Attribute[n + INIT_ATTS_SIZE](_ => NO_ATTRIBUTE);
      n := GetAtts(enc, tag, n, atts);
    }
  }

  /** All attributes; a name that was specified already is an error. */
  method ReadAttributes(env: Env, enc: Encoding, tag: Bytes) returns (r: Result<seq<(Bytes, Bytes)>>, place: nat)
    requires ValidEnv(env) && Standard(enc) && tag != [] && IsTag(ScanFrom(enc, tag, 1, AfterLt).tok)
    ensures r == StoreAtts(env, enc, tag, TagSpans(enc, tag), [])
    ensures r.Err? ==> place == AttsErrorPlace(env, enc, tag, TagSpans(enc, tag), [])
  {
    hide ScanFrom, Spans, Standard, Good, HasName, AttributeValue, ValueErrorPlace, NameEnd, AllGood, IsTag, TagSpans;
    var atts, n := ReadSpans(enc, tag);
    ghost var spans := TagSpans(enc, tag);
    TagSpansAreGood(enc, tag);
    NoName();
    var specified: set<Bytes> := {};
    var appAtts: seq<(Bytes, Bytes)> := [];
    var i := 0;
    assert spans[0..] == spans && atts[..n] == spans;
    while i < n
      invariant 0 <= i <= n == |spans| && n <= atts.Length && atts[..n] == spans
      invariant forall name :: name in specified <==> HasName(appAtts, name)
      invariant StoreAtts(env, enc, tag, spans, []) == StoreAtts(env, enc, tag, spans[i..], appAtts)
      invariant AttsErrorPlace(env, enc, tag, spans, []) == AttsErrorPlace(env, enc, tag, spans[i..], appAtts)
    {
      var a := atts[i];
      assert a == atts[..n][i] == spans[i] == spans[i..][0] && a in spans;
      GoodName(enc, tag, a);
      var len := NameLength(enc, tag, a.name);
      var name := tag[a.name..a.name + len];
      assert spans[i..][1..] == spans[i + 1..];
      if name in specified { return Err(DuplicateAttribute), a.name; }
      var value, at := ReadValue(env, enc, tag, a);
      if value.Err? { return Err(value.error), at; }
      forall other { HasNameAppend(appAtts, name, value.value, other); }
      specified := specified + {name};
      appAtts := appAtts + [(name, value.value)];
      i := i + 1;
    }
    assert spans[i..] == [];
    return Ok(appAtts), 0;
  }

  lemma NoName()
    ensures forall name :: !HasName([], name)
  {
  }

  lemma GoodName(enc: Encoding, w: Bytes, a: Attribute)
    requires w != [] && AllGood(enc, w, TagSpans(enc, w)) && a in TagSpans(enc, w)
    ensures a.name <= |w|
  {
    hide Spans;
    assert Good(enc, w, a);
  }
}
