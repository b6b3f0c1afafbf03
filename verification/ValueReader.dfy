/** The normalization of attribute values, token by token on one growing string. */
module ValueReaders {
  import opened Encodings
  import opened Automaton
  import opened Scanners
  import opened Errors
  import opened Utf8
  import opened AttributeValues

  method ReadAttributeValueTok(enc: Encoding, w: Bytes) returns (r: Scan)
    ensures r == AttributeValueTok(enc, w)
  {
    hide ScanFrom;
    if w == [] { return Scan(TokNone, 0); }
    var p := 0;
    ghost var start := CharLength(enc, w, 0);
    while p != |w|
      invariant 0 <= p <= |w|
      invariant p > 0 ==> !EndsRun(enc.byteType(w[0])) && start <= p && ValueRun(enc, w, p) == ValueRun(enc, w, start)
      decreases |w| - p
    {
      var t := enc.byteType(w[p]);
      if LeadLength(t) > 0 {
        p := p + CharLength(enc, w, p);
      } else if t == BtAmp {
        if p != 0 { return Scan(TokDataChars, p); }
        r := ScanRef(enc, w, 1);
        return;
      } else if t == BtLt {
        return Invalid(p);
      } else if IsSpaceType(t) {
        if p != 0 { return Scan(TokDataChars, p); }
        r := ReadSpaceTok(enc, w);
        return;
      } else {
        p := p + 1;
      }
    }
    return Scan(TokDataChars, p);
  }

  /** White space at the start of the token. */
  method ReadSpaceTok(enc: Encoding, w: Bytes) returns (r: Scan)
    requires w != [] && IsSpaceType(enc.byteType(w[0]))
    ensures r == AttributeValueTok(enc, w)
  {
    hide ScanFrom, ValueRun;
    var t := enc.byteType(w[0]);
    if t == BtLf { return Scan(TokDataNewline, 1); }
    if t == BtS { return Scan(TokAttributeValueS, 1); }
    if |w| == 1 { return Scan(TokTrailingCr, 0); }
    return Scan(TokDataNewline, if enc.byteType(w[1]) == BtLf then 2 else 1);
  }

  /** The first item of the text, read off its first token; a run of data is not one item. */
  function ItemOfToken(w: Bytes, r: Scan): Item
    requires !r.tok.Open() && r.tok != TokInvalid ==> 0 < r.next <= |w|
    requires r.tok == TokEntityRef ==> 1 < r.next
  {
    match r.tok
    case TokCharRef =>
      var c := CharRefNumber(w[..r.next]);
      if c < 0 then Malformed(BadCharRef) else Text(r.next, Encode(c))
    case TokEntityRef =>
      var name := w[1..r.next - 1];
      if PredefinedEntity(name) != 0 then Text(r.next, [PredefinedEntity(name)]) else EntityRef(r.next, name)
    case TokTrailingCr => Text(1, [ASCII_SPACE])
    case TokAttributeValueS => Text(r.next, [ASCII_SPACE])
    case TokDataNewline => Text(r.next, [ASCII_SPACE])
    case TokPartial => Malformed(InvalidToken)
    case _ => Malformed(UnexpectedState)
  }

  lemma TokenIsItem(enc: Encoding, w: Bytes)
    requires w != []
    ensures var r := AttributeValueTok(enc, w);
      (r.tok == TokEntityRef ==> 1 < r.next) &&
      match r.tok
      case TokDataChars => r.next == ValueRun(enc, w, 0) && !EndsRun(enc.byteType(w[0]))
      case TokInvalid => true
      case _ => FirstItem(enc, w) == ItemOfToken(w, r) && EndsRun(enc.byteType(w[0]))
  {
    hide ScanFrom;
    if enc.byteType(w[0]) == BtAmp {
      RefInValue(enc, w, 1, RefStart(InContent), BtQuot);
    }
  }

  /** An invalid token ends the value with the same error, at once or after the run of data before it. */
  lemma InvalidIsError(env: Env, enc: Encoding, open: set<Bytes>, w: Bytes)
    requires w != [] && AttributeValueTok(enc, w).tok == TokInvalid
    ensures Normal(env, enc, open, w) == Err(InvalidToken)
  {
    hide ScanFrom;
    var t := enc.byteType(w[0]);
    if t != BtAmp && t != BtLt {
      var p := ValueRun(enc, w, 0);
      NormalRun(env, enc, open, w, 0);
      assert w[0..] == w && w[p..] != [] && w[p..][0] == w[p];
      assert FirstItem(enc, w[p..]) == Malformed(InvalidToken);
    }
  }

  /** The place of the error is where the tokenizer stops. */
  lemma InvalidPlace(env: Env, enc: Encoding, open: set<Bytes>, w: Bytes)
    requires w != [] && AttributeValueTok(enc, w).tok == TokInvalid
    ensures ErrorPlace(env, enc, open, w) == Some(AttributeValueTok(enc, w).next)
  {
    hide ScanFrom, ErrorPlace;
    var t := enc.byteType(w[0]);
    if t == BtAmp {
      InvalidHere(env, enc, open, w);
    } else {
      InvalidBehindRun(env, enc, open, w);
    }
  }

  lemma InvalidBehindRun(env: Env, enc: Encoding, open: set<Bytes>, w: Bytes)
    requires w != [] && AttributeValueTok(enc, w).tok == TokInvalid && enc.byteType(w[0]) != BtAmp
    ensures ErrorPlace(env, enc, open, w) == Some(AttributeValueTok(enc, w).next)
  {
    hide ErrorPlace, AttributeValueTok, ValueRun;
    var p := ValueRun(enc, w, 0);
    InvalidAtLt(enc, w);
    PlaceBehindRun(env, enc, open, w, 0);
    assert w[0..] == w && w[p..] != [] && w[p..][0] == w[p];
    InvalidHere(env, enc, open, w[p..]);
  }

  lemma InvalidAtLt(enc: Encoding, w: Bytes)
    requires w != [] && AttributeValueTok(enc, w).tok == TokInvalid && enc.byteType(w[0]) != BtAmp
    ensures var p := ValueRun(enc, w, 0); p < |w| && enc.byteType(w[p]) == BtLt && AttributeValueTok(enc, w).next == p
  {
    hide ScanFrom;
  }

  lemma InvalidHere(env: Env, enc: Encoding, open: set<Bytes>, w: Bytes)
    requires w != []
    requires (enc.byteType(w[0]) == BtLt
              || (enc.byteType(w[0]) == BtAmp && AttributeValueTok(enc, w).tok == TokInvalid))
    ensures ErrorPlace(env, enc, open, w)
      == Some(if enc.byteType(w[0]) == BtLt then 0 else AttributeValueTok(enc, w).next)
  {
    hide ScanFrom, Normal;
    assert FirstItem(enc, w).Malformed?;
  }

  /** What a reference to the entity stands for. */
  ghost function TextOf(env: Env, open: set<Bytes>, name: Bytes): Bytes {
    match Expandable(env, open, name)
    case Ok(Some(text)) => (match Normal(env, env.internal, open + {name}, text) case Ok(v) => v case Err(_) => [])
    case _ => []
  }

  /** There is an error in the text of the entity. */
  predicate FailsInside(env: Env, open: set<Bytes>, name: Bytes) {
    match Expandable(env, open, name)
    case Ok(Some(text)) => ExpandableIsNew(env, open, name); Normal(env, env.internal, open + {name}, text).Err?
    case _ => false
  }

  /** How the place of an error goes on behind the first item of the rest. */
  lemma PlaceOfItem(env: Env, enc: Encoding, open: set<Bytes>, w: Bytes, p: nat)
    requires p < |w|
    ensures var i := FirstItem(enc, w[p..]);
      i.Malformed? ==> ErrorPlace(env, enc, open, w[p..]) == Some(MalformedPlace(enc, w[p..]))
    ensures var i := FirstItem(enc, w[p..]); i.EntityRef? && Expandable(env, open, i.name).Err? ==>
      ErrorPlace(env, enc, open, w[p..]) == RefPlace(Expandable(env, open, i.name).error)
    ensures var i := FirstItem(enc, w[p..]);
      i.EntityRef? && FailsInside(env, open, i.name) ==> ErrorPlace(env, enc, open, w[p..]) == None
    ensures var i := FirstItem(enc, w[p..]);
      i.Text? || (i.EntityRef? && Expandable(env, open, i.name).Ok? && !FailsInside(env, open, i.name)) ==>
        Further(p, ErrorPlace(env, enc, open, w[p..])) == Further(p + i.n, ErrorPlace(env, enc, open, w[p + i.n..]))
  {
    hide Normal, FirstItem, Expandable, MalformedPlace;
    var i := FirstItem(enc, w[p..]);
    if !i.Malformed? {
      assert w[p..][i.n..] == w[p + i.n..];
    }
  }

  /** Where a malformed item is an error: only an invalid token is not one at its start. */
  lemma PlaceOfMalformed(enc: Encoding, w: Bytes)
    requires w != [] && AttributeValueTok(enc, w).tok != TokInvalid
    ensures MalformedPlace(enc, w) == 0
  {
    hide ScanFrom;
  }

  lemma PlaceOfData(env: Env, enc: Encoding, open: set<Bytes>, w: Bytes, p: nat)
    requires p < |w| && AttributeValueTok(enc, w[p..]).tok == TokDataChars
    ensures var n := AttributeValueTok(enc, w[p..]).next;
      0 < n <= |w| - p
        && Further(p, ErrorPlace(env, enc, open, w[p..])) == Further(p + n, ErrorPlace(env, enc, open, w[p + n..]))
  {
    hide ScanFrom, Normal, AttributeValueTok, ErrorPlace, FirstItem, ValueRun, EndsRun;
    var v := w[p..];
    var n := AttributeValueTok(enc, v).next;
    TokenIsItem(enc, v);
    PlaceBehindRun(env, enc, open, v, 0);
    assert v[0..] == v && v[n..] == w[p + n..];
  }

  /** What follows an item of a whole text is whole. */
  lemma ItemKeepsWhole(enc: Encoding, w: Bytes, p: nat)
    requires Standard(enc) && p < |w| && Whole(enc, w[p..]) && EndsRun(enc.byteType(w[p]))
    requires !FirstItem(enc, w[p..]).Malformed?
    ensures var n := FirstItem(enc, w[p..]).n; Whole(enc, w[p + n..])
  {
    hide FirstItem, Whole;
    var v := w[p..];
    var n := FirstItem(enc, v).n;
    assert v[n..] == w[p + n..];
    if enc.byteType(w[p]) == BtAmp {
      RefKeepsWhole(enc, v);
    } else {
      SpaceKeepsWhole(enc, v);
    }
  }

  lemma RefKeepsWhole(enc: Encoding, v: Bytes)
    requires v != [] && Whole(enc, v) && enc.byteType(v[0]) == BtAmp && !FirstItem(enc, v).Malformed?
    ensures Whole(enc, v[FirstItem(enc, v).n..])
  {
    hide ScanFrom, Standard;
    RefInValue(enc, v, 1, RefStart(InContent), BtQuot);
  }

  lemma SpaceKeepsWhole(enc: Encoding, v: Bytes)
    requires v != [] && Whole(enc, v) && EndsRun(enc.byteType(v[0])) && enc.byteType(v[0]) != BtAmp
    requires !FirstItem(enc, v).Malformed?
    ensures Whole(enc, v[FirstItem(enc, v).n..])
  {
    hide ScanFrom, Standard;
    if |v| > 1 { assert v[1..][1..] == v[2..]; }
  }

  /** A growing string: `v` added as it is, or without superfluous spaces. */
  function Appended(isCdata: bool, acc: Bytes, v: Bytes): Bytes {
    if isCdata then acc + v else Squeeze(acc, v)
  }

  lemma AppendedTwice(isCdata: bool, acc: Bytes, u: Bytes, v: Bytes)
    ensures Appended(isCdata, acc, u + v) == Appended(isCdata, Appended(isCdata, acc, u), v)
    ensures ASCII_SPACE !in v ==> Appended(isCdata, acc, v) == acc + v
  {
    SqueezeAppend(acc, u, v);
    if ASCII_SPACE !in v { SqueezeNoSpace(acc, v); }
    assert acc + (u + v) == acc + u + v;
  }

  lemma EncodeHasNoSpace(c: int)
    requires IsXmlChar(c) && c != 0x20
    ensures ASCII_SPACE !in Encode(c) && Encode(c) != []
  {
    EncodeDecodes(c);
  }

  /** The rest of a value after its first item. */
  lemma NormalItem(env: Env, enc: Encoding, open: set<Bytes>, w: Bytes, p: nat, done: Bytes)
    requires p < |w| && FirstItem(enc, w[p..]).Text?
    ensures var i := FirstItem(enc, w[p..]);
      Prepend(done, Normal(env, enc, open, w[p..])) == Prepend(done + i.v, Normal(env, enc, open, w[p + i.n..]))
  {
    var i := FirstItem(enc, w[p..]);
    assert w[p..][i.n..] == w[p + i.n..];
    PrependTwice(done, i.v, Normal(env, enc, open, w[p + i.n..]));
  }

  lemma NormalRef(env: Env, enc: Encoding, open: set<Bytes>, w: Bytes, p: nat, done: Bytes)
    requires p < |w| && FirstItem(enc, w[p..]).EntityRef?
    ensures var i := FirstItem(enc, w[p..]);
      Prepend(done, Normal(env, enc, open, w[p..])) ==
        match Expandable(env, open, i.name)
        case Err(e) => Err(e)
        case Ok(None) => Prepend(done, Normal(env, enc, open, w[p + i.n..]))
        case Ok(Some(text)) =>
          match Normal(env, env.internal, open + {i.name}, text)
          case Err(e) => Err(e)
          case Ok(v) => Prepend(done + v, Normal(env, enc, open, w[p + i.n..]))
  {
    hide FirstItem, Expandable;
    var i := FirstItem(enc, w[p..]);
    assert w[p..][i.n..] == w[p + i.n..];
    var rest := Normal(env, enc, open, w[p + i.n..]);
    match Expandable(env, open, i.name)
    case Err(_) =>
    case Ok(None) =>
    case Ok(Some(text)) =>
      ExpandableIsNew(env, open, i.name);
      match Normal(env, env.internal, open + {i.name}, text)
      case Err(_) =>
      case Ok(v) => PrependTwice(done, v, rest);
  }

  lemma ExpandableIsNew(env: Env, open: set<Bytes>, name: Bytes)
    requires Expandable(env, open, name).Ok? && Expandable(env, open, name).value.Some?
    ensures name in env.entities.Keys - open && name !in env.entities.Keys - (open + {name})
    ensures env.entities[name].text == Expandable(env, open, name).value
  {
  }

  lemma NormalOfNothing(env: Env, enc: Encoding, open: set<Bytes>, done: Bytes)
    ensures Prepend(done, Normal(env, enc, open, [])) == Ok(done)
  {
    assert done + [] == done;
  }

  lemma ErrorStays(v: Bytes, r: Result<Bytes>)
    requires r.Err?
    ensures Prepend(v, r) == r
  {
  }

  lemma NothingAppended(isCdata: bool, acc: Bytes)
    ensures Appended(isCdata, acc, []) == acc
  {
    assert acc + [] == acc;
  }

  lemma CharRefOfToken(enc: Encoding, w: Bytes)
    requires Standard(enc) && w != [] && AttributeValueTok(enc, w).tok == TokCharRef
    ensures var v := w[..AttributeValueTok(enc, w).next];
      IsCharRef(v) && (CharRefNumber(v) >= 0 ==> IsXmlChar(CharRefNumber(v)))
  {
    hide ScanFrom;
    CharRefIsNumeral(enc, w);
  }

  lemma AppendedChar(isCdata: bool, acc: Bytes, c: int)
    requires IsXmlChar(c)
    ensures Appended(isCdata, acc, Encode(c)) ==
      if !isCdata && c == 0x20 && (acc == [] || acc[|acc| - 1] == ASCII_SPACE) then acc else acc + Encode(c)
    ensures Encode(0x20) == [ASCII_SPACE]
  {
    if c == 0x20 {
      var v: Bytes := [ASCII_SPACE];
      assert Encode(c) == v && v[1..] == [];
      assert Squeeze(acc, []) == acc && Squeeze(acc + v, []) == acc + v;
    } else {
      EncodeHasNoSpace(c);
      AppendedTwice(isCdata, acc, [], Encode(c));
    }
  }

  /** A token of data: it stands for itself, has no space in it, and what follows is whole. */
  lemma DataIsNormal(env: Env, enc: Encoding, open: set<Bytes>, w: Bytes, p: nat, done: Bytes)
    requires Standard(enc) && p < |w| && Whole(enc, w[p..]) && AttributeValueTok(enc, w[p..]).tok == TokDataChars
    ensures var n := AttributeValueTok(enc, w[p..]).next;
      && 0 < n <= |w| - p && Whole(enc, w[p + n..]) && ASCII_SPACE !in w[p..][..n]
      && Prepend(done, Normal(env, enc, open, w[p..]))
        == Prepend(done + w[p..][..n], Normal(env, enc, open, w[p + n..]))
  {
    hide ScanFrom, Normal, Standard, AttributeValueTok, Prepend, Whole;
    var v := w[p..];
    var n := AttributeValueTok(enc, v).next;
    TokenIsItem(enc, v);
    NormalRun(env, enc, open, v, 0);
    RunIsClean(enc, v, 0);
    assert v[0..] == v && v[0..n] == v[..n] && v[n..] == w[p + n..];
    PrependTwice(done, v[..n], Normal(env, enc, open, v[n..]));
  }

  /** An item at the start of the rest: an error, or what it stands for followed by the value of the rest. */
  lemma ItemOfRest(env: Env, enc: Encoding, open: set<Bytes>, w: Bytes, p: nat, done: Bytes)
    requires Standard(enc) && p < |w| && Whole(enc, w[p..]) && EndsRun(enc.byteType(w[p]))
    ensures match FirstItem(enc, w[p..])
      case Malformed(e) => Prepend(done, Normal(env, enc, open, w[p..])) == Err(e)
      case EntityRef(n, _) => Whole(enc, w[p + n..])
      case Text(n, v) =>
        && Whole(enc, w[p + n..])
        && Prepend(done, Normal(env, enc, open, w[p..])) == Prepend(done + v, Normal(env, enc, open, w[p + n..]))
  {
    hide FirstItem, Whole;
    match FirstItem(enc, w[p..])
    case Malformed(_) =>
    case EntityRef(_, _) => ItemKeepsWhole(enc, w, p);
    case Text(_, _) =>
      ItemKeepsWhole(enc, w, p);
      NormalItem(env, enc, open, w, p, done);
  }

  function Recorded(outer: bool, place: Option<nat>, was: Option<nat>): Option<nat> {
    if outer && place.Some? then place else was
  }

  class ValueReader {
    const env: Env
    /** The entities that are being expanded: those whose `open` flag is set. */
    var open: set<Bytes>
    /** The unfinished string of the pool the value is built in. */
    var pool: Bytes
    /** Where an error was found: set for the text of the attribute, not for that of entities. */
    var eventPtr: Option<nat>

    constructor (env: Env)
      ensures this.env == env && open == {} && pool == [] && eventPtr == None
    {
      this.env := env;
      open := {};
      pool := [];
      eventPtr := None;
    }

    /** The place of an error, if the text is that of the attribute itself. */
    method Blame(outer: bool, at: nat)
      modifies this`eventPtr
      ensures eventPtr == if outer then Some(at) else old(eventPtr)
    {
      if outer { eventPtr := Some(at); }
    }

    /** The string is empty or ends with a space. */
    predicate AtSpace()
      reads this
    {
      pool == [] || pool[|pool| - 1] == ASCII_SPACE
    }

    /** One character; no superfluous space in a value that is not CDATA. */
    method AppendChar(isCdata: bool, c: int)
      requires IsXmlChar(c)
      modifies this`pool
      ensures pool == Appended(isCdata, old(pool), Encode(c))
    {
      AppendedChar(isCdata, pool, c);
      if !isCdata && c == 0x20 && AtSpace() { return; }
      pool := pool + Encode(c);
    }

    /** What becomes of a reference to an entity. */
    ghost predicate DidEntity(outer: bool, isCdata: bool, name: Bytes, ptr: nat, r: Option<Error>, poolWas: Bytes,
                              ptrWas: Option<nat>)
      reads this
    {
      match Expandable(env, open, name)
      case Err(e) => r == Some(e) && eventPtr == Recorded(outer, Further(ptr, RefPlace(e)), ptrWas)
      case Ok(None) => r == None && pool == poolWas && eventPtr == ptrWas
      case Ok(Some(text)) =>
        ExpandableIsNew(env, open, name);
        eventPtr == ptrWas &&
        match Normal(env, env.internal, open + {name}, text)
        case Err(e) => r == Some(e)
        case Ok(v) => r == None && pool == Appended(isCdata, poolWas, v)
    }

    /** The replacement text of an entity, which is marked as open meanwhile. */
    method AppendEntity(outer: bool, isCdata: bool, name: Bytes, ptr: nat) returns (r: Option<Error>)
      requires ValidEnv(env)
      modifies this
      ensures open == old(open)
      ensures DidEntity(outer, isCdata, name, ptr, r, old(pool), old(eventPtr))
      decreases env.entities.Keys - open, 0
    {
      hide Normal, Standard, Whole, Squeeze;
      if name !in env.entities { return if env.checkDecl then Some(UndefinedEntity) else None; }
      var entity := env.entities[name];
      if env.checkDecl && !entity.isInternal { return Some(EntityDeclaredInPe); }
      if name in open {
        Blame(outer, ptr);
        return Some(RecursiveEntityRef);
      }
      if entity.notation {
        Blame(outer, ptr);
        return Some(BinaryEntityRef);
      }
      if entity.text.None? {
        Blame(outer, ptr);
        return Some(AttributeExternalEntityRef);
      }
      ghost var before := open;
      assert name in env.entities.Keys - before && name !in env.entities.Keys - (before + {name});
      open := open + {name};
      r := AppendAttributeValue(env.internal, false, isCdata, entity.text.value);
      open := open - {name};
      assert open == before;
    }

    /** One item of the text at `p`: it ends at `next`, unless there is an error. */
    method AppendItem(enc: Encoding, outer: bool, isCdata: bool, w: Bytes, p: nat, t: Scan)
      returns (r: Option<Error>, next: nat)
      requires ValidEnv(env) && Standard(enc) && p < |w| && t == AttributeValueTok(enc, w[p..])
      requires !t.tok.TokDataChars? && !t.tok.TokInvalid?
      modifies this
      ensures open == old(open)
      ensures match FirstItem(enc, w[p..])
        case Malformed(e) => r == Some(e) && eventPtr == Recorded(outer, Some(p), old(eventPtr))
        case Text(n, v) => r == None && next == p + n && pool == Appended(isCdata, old(pool), v)
          && eventPtr == old(eventPtr)
        case EntityRef(n, name) => next == p + n && DidEntity(outer, isCdata, name, p, r, old(pool), old(eventPtr))
      decreases env.entities.Keys - open, 1
    {
      hide Normal, FirstItem, AttributeValueTok, ScanFrom, Standard, CharRefNumber, Encode, Squeeze, EndsRun, ValueRun,
           DidEntity;
      var rest := w[p..];
      TokenIsItem(enc, rest);
      r, next := None, p + t.next;
      match t.tok {
        case TokCharRef =>
          CharRefOfToken(enc, rest);
          var n := ReadCharRefNumber(rest[..t.next]);
          if n < 0 {
            r := Some(BadCharRef);
          } else {
            AppendChar(isCdata, n);
          }
        case TokTrailingCr =>
          AppendedChar(isCdata, pool, 0x20);
          AppendChar(isCdata, 0x20);
          next := p + 1;
        case TokAttributeValueS =>
          AppendedChar(isCdata, pool, 0x20);
          AppendChar(isCdata, 0x20);
        case TokDataNewline =>
          AppendedChar(isCdata, pool, 0x20);
          AppendChar(isCdata, 0x20);
        case TokEntityRef =>
          var name := rest[1..t.next - 1];
          var ch := PredefinedEntity(name);
          if ch != 0 {
            AppendedTwice(isCdata, pool, [], [ch]);
            pool := pool + [ch];
          } else {
            r := AppendEntity(outer, isCdata, name, p);
            return;
          }
        case _ =>
          r := Some(if t.tok == TokPartial then InvalidToken else UnexpectedState);
      }
      if r.Some? {
        Blame(outer, p);
      }
    }

    /**
     Appends the normalized text.  Every `open` flag is as before afterwards, also after an error;
     termination: entities that are not open.  `outer` says that the text is that of the attribute.
     */
    method AppendAttributeValue(enc: Encoding, outer: bool, isCdata: bool, w: Bytes) returns (r: Option<Error>)
      requires ValidEnv(env) && Standard(enc) && Whole(enc, w)
      modifies this
      ensures open == old(open)
      ensures match Normal(env, enc, open, w)
        case Err(e) => r == Some(e) && eventPtr == Recorded(outer, ErrorPlace(env, enc, open, w), old(eventPtr))
        case Ok(v) => r == None && pool == Appended(isCdata, old(pool), v) && eventPtr == old(eventPtr)
      decreases env.entities.Keys - open, 3
    {
      hide Normal, Standard, Whole, ErrorPlace, Appended, Prepend, Further;
      var p := 0;
      ghost var done: Bytes := [];
      ghost var acc := pool;
      assert w[0..] == w;
      PrependTwice([], [], Normal(env, enc, open, w));
      NothingAppended(isCdata, pool);
      FurtherTwice(0, 0, ErrorPlace(env, enc, open, w));
      while p < |w|
        invariant 0 <= p <= |w| && Whole(enc, w[p..]) && open == old(open)
        invariant Normal(env, enc, open, w) == Prepend(done, Normal(env, enc, open, w[p..]))
        invariant pool == Appended(isCdata, acc, done) && eventPtr == old(eventPtr)
        invariant ErrorPlace(env, enc, open, w) == Further(p, ErrorPlace(env, enc, open, w[p..]))
      {
        ghost var rest := Normal(env, enc, open, w[p..]);
        ghost var v;
        r, p, v := AppendToken(enc, outer, isCdata, w, p);
        if r.Some? {
          ErrorStays(done, rest);
          return;
        }
        PrependTwice(done, v, Normal(env, enc, open, w[p..]));
        AppendedTwice(isCdata, acc, done, v);
        done := done + v;
      }
      assert w[p..] == [];
      NormalOfNothing(env, enc, open, done);
      r := None;
    }

    /** One token of the text, at `p`, has been taken in: up to `next`, and `v` is what it stands for. */
    ghost predicate Took(enc: Encoding, outer: bool, isCdata: bool, w: Bytes, p: nat, r: Option<Error>, next: nat,
                         v: Bytes, poolWas: Bytes, ptrWas: Option<nat>)
      requires p <= |w|
      reads this
    {
      var value, place := Normal(env, enc, open, w[p..]), ErrorPlace(env, enc, open, w[p..]);
      match r
      case Some(e) => value == Err(e) && eventPtr == Recorded(outer, Further(p, place), ptrWas)
      case None =>
        && p < next <= |w| && Whole(enc, w[next..]) && value == Prepend(v, Normal(env, enc, open, w[next..]))
        && pool == Appended(isCdata, poolWas, v) && eventPtr == ptrWas
        && Further(p, place) == Further(next, ErrorPlace(env, enc, open, w[next..]))
    }

    /** One token of the text, at `p`. */
    method AppendToken(enc: Encoding, outer: bool, isCdata: bool, w: Bytes, p: nat)
      returns (r: Option<Error>, next: nat, ghost v: Bytes)
      requires ValidEnv(env) && Standard(enc) && p < |w| && Whole(enc, w[p..])
      modifies this
      ensures open == old(open) && Took(enc, outer, isCdata, w, p, r, next, v, old(pool), old(eventPtr))
      decreases env.entities.Keys - open, 2
    {
      hide FirstItem, AttributeValueTok, Standard, Whole, Took;
      ghost var poolWas, ptrWas := pool, eventPtr;
      var rest := w[p..];
      var t := ReadAttributeValueTok(enc, rest);
      TokenIsItem(enc, rest);
      r, next := None, p + t.next;
      if t.tok == TokDataChars {
        v := rest[..t.next];
        pool := pool + rest[..t.next];
        DataIsTaken(enc, outer, isCdata, w, p, poolWas);
      } else if t.tok == TokInvalid {
        Blame(outer, p + t.next);
        r, v := Some(InvalidToken), [];
        InvalidIsTaken(enc, outer, isCdata, w, p, poolWas, ptrWas);
      } else {
        r, next := AppendItem(enc, outer, isCdata, w, p, t);
        v := ItemIsTaken(enc, outer, isCdata, w, p, r, next, poolWas, ptrWas);
      }
    }

    lemma DataIsTaken(enc: Encoding, outer: bool, isCdata: bool, w: Bytes, p: nat, poolWas: Bytes)
      requires Standard(enc) && p < |w| && Whole(enc, w[p..]) && AttributeValueTok(enc, w[p..]).tok == TokDataChars
      requires pool == poolWas + w[p..][..AttributeValueTok(enc, w[p..]).next]
      ensures var n := AttributeValueTok(enc, w[p..]).next;
        Took(enc, outer, isCdata, w, p, None, p + n, w[p..][..n], poolWas, eventPtr)
    {
      hide Normal, AttributeValueTok, Standard, Whole, Squeeze, ErrorPlace;
      var v := w[p..][..AttributeValueTok(enc, w[p..]).next];
      PrependTwice([], [], Normal(env, enc, open, w[p..]));
      DataIsNormal(env, enc, open, w, p, []);
      PlaceOfData(env, enc, open, w, p);
      assert [] + v == v;
      AppendedTwice(isCdata, poolWas, [], v);
    }

    lemma InvalidIsTaken(enc: Encoding, outer: bool, isCdata: bool, w: Bytes, p: nat, poolWas: Bytes,
                         ptrWas: Option<nat>)
      requires p < |w| && AttributeValueTok(enc, w[p..]).tok == TokInvalid
      requires eventPtr == Recorded(outer, Some(p + AttributeValueTok(enc, w[p..]).next), ptrWas)
      ensures Took(enc, outer, isCdata, w, p, Some(InvalidToken), p + AttributeValueTok(enc, w[p..]).next, [], poolWas,
                   ptrWas)
    {
      hide Normal, AttributeValueTok, ErrorPlace;
      InvalidIsError(env, enc, open, w[p..]);
      InvalidPlace(env, enc, open, w[p..]);
    }

    lemma ItemIsTaken(enc: Encoding, outer: bool, isCdata: bool, w: Bytes, p: nat, r: Option<Error>, next: nat,
                      poolWas: Bytes, ptrWas: Option<nat>) returns (v: Bytes)
      requires Standard(enc) && p < |w| && Whole(enc, w[p..])
      requires var t := AttributeValueTok(enc, w[p..]).tok; !t.TokDataChars? && !t.TokInvalid?
      requires match FirstItem(enc, w[p..])
        case Malformed(e) => r == Some(e) && eventPtr == Recorded(outer, Some(p), ptrWas)
        case Text(n, v) => r == None && next == p + n && pool == Appended(isCdata, poolWas, v) && eventPtr == ptrWas
        case EntityRef(n, name) => next == p + n && DidEntity(outer, isCdata, name, p, r, poolWas, ptrWas)
      ensures Took(enc, outer, isCdata, w, p, r, next, v, poolWas, ptrWas)
    {
      hide Normal, FirstItem, AttributeValueTok, ScanFrom, Standard, Whole, Squeeze, EndsRun, ValueRun, ErrorPlace,
           MalformedPlace, RefPlace;
      var rest := w[p..];
      TokenIsItem(enc, rest);
      PrependTwice([], [], Normal(env, enc, open, rest));
      ItemOfRest(env, enc, open, w, p, []);
      PlaceOfItem(env, enc, open, w, p);
      PlaceOfMalformed(enc, rest);
      NothingAppended(isCdata, poolWas);
      var i := FirstItem(enc, rest);
      if i.EntityRef? { NormalRef(env, enc, open, w, p, []); }
      v := if i.Text? then i.v else if i.EntityRef? then TextOf(env, open, i.name) else [];
      assert [] + v == v;
    }

    /** The value as the application gets it, in a string of its own. */
    method StoreAttributeValue(enc: Encoding, isCdata: bool, w: Bytes) returns (r: Option<Error>)
      requires ValidEnv(env) && Standard(enc) && Whole(enc, w) && pool == []
      modifies this
      ensures open == old(open)
      ensures match Value(env, enc, open, isCdata, w)
        case Err(e) => r == Some(e) && eventPtr == Recorded(true, ErrorPlace(env, enc, open, w), old(eventPtr))
        case Ok(v) => r == None && pool == v && eventPtr == old(eventPtr)
    {
      hide Normal, Whole, Standard;
      r := AppendAttributeValue(enc, true, isCdata, w);
      if r.Some? { return; }
      ghost var v := Normal(env, enc, open, w).value;
      SqueezeIsTokenized(v);
      if !isCdata && pool != [] && pool[|pool| - 1] == ASCII_SPACE {
        pool := pool[..|pool| - 1];
      }
      assert [] + v == v;
    }
  }

  // ----- entities that refer to each other -----

  /** The entities a text refers to, up to the first malformed item. */
  function Refs(enc: Encoding, w: Bytes): seq<Bytes>
    decreases |w|
  {
    if w == [] then []
    else
      match FirstItem(enc, w)
      case Malformed(_) => []
      case Text(n, _) => Refs(enc, w[n..])
      case EntityRef(n, name) => [name] + Refs(enc, w[n..])
  }

  /** Each name is a declared internal entity that the text of the one before refers to, the first is in `w`. */
  predicate Chain(env: Env, enc: Encoding, w: Bytes, names: seq<Bytes>)
    decreases |names|
  {
    names != [] ==>
      && names[0] in Refs(enc, w)
      && names[0] in env.entities && env.entities[names[0]].text.Some?
      && Chain(env, env.internal, env.entities[names[0]].text.value, names[1..])
  }

  predicate Distinct(names: seq<Bytes>) { forall i, j :: 0 <= i < j < |names| ==> names[i] != names[j] }

  lemma {:induction false} RefSucceeds(env: Env, enc: Encoding, open: set<Bytes>, w: Bytes, name: Bytes)
    requires Normal(env, enc, open, w).Ok? && name in Refs(enc, w)
    requires name in env.entities && env.entities[name].text.Some?
    ensures name !in open && Normal(env, env.internal, open + {name}, env.entities[name].text.value).Ok?
    decreases |w|
  {
    hide FirstItem;
    match FirstItem(enc, w)
    case Text(n, v) =>
      RefSucceeds(env, enc, open, w[n..], name);
    case EntityRef(n, first) =>
      if first == name {
        ExpandableIsNew(env, open, name);
      } else {
        RefSucceeds(env, enc, open, w[n..], name);
      }
  }

  /**
   If a value is normalized successfully, no chain of references it starts meets an entity twice, or
   one that was open already: re-entering an open entity is always an error.
   */
  lemma {:induction false} SuccessHasNoCycle(env: Env, enc: Encoding, open: set<Bytes>, w: Bytes, names: seq<Bytes>)
    requires Normal(env, enc, open, w).Ok? && Chain(env, enc, w, names)
    ensures Distinct(names) && forall n :: n in names ==> n !in open
    decreases |names|
  {
    hide Normal, Refs;
    if names != [] {
      var text := env.entities[names[0]].text.value;
      RefSucceeds(env, enc, open, w, names[0]);
      SuccessHasNoCycle(env, env.internal, open + {names[0]}, text, names[1..]);
      assert names == [names[0]] + names[1..];
    }
  }

  /** Every item is well-formed, and every reference is to an entity that may be expanded here, or is skipped. */
  predicate RefsOk(env: Env, enc: Encoding, open: set<Bytes>, w: Bytes)
    decreases |w|
  {
    w == [] ||
    match FirstItem(enc, w)
    case Malformed(_) => false
    case Text(n, _) => RefsOk(env, enc, open, w[n..])
    case EntityRef(n, name) => Expandable(env, open, name).Ok? && RefsOk(env, enc, open, w[n..])
  }

  /** So are the items of the text at the end of the chain, where the entities of the chain are open. */
  predicate ChainOk(env: Env, enc: Encoding, open: set<Bytes>, w: Bytes, names: seq<Bytes>)
    requires Chain(env, enc, w, names)
    decreases |names|
  {
    if names == [] then RefsOk(env, enc, open, w)
    else ChainOk(env, env.internal, open + {names[0]}, env.entities[names[0]].text.value, names[1..])
  }

  ghost predicate AllChainsOk(env: Env, enc: Encoding, open: set<Bytes>, w: Bytes) {
    forall names: seq<Bytes> :: Chain(env, enc, w, names) ==> ChainOk(env, enc, open, w, names)
  }

  lemma {:induction false} OkHasRefs(env: Env, enc: Encoding, open: set<Bytes>, w: Bytes)
    requires Normal(env, enc, open, w).Ok?
    ensures RefsOk(env, enc, open, w)
    decreases |w|
  {
    hide FirstItem, Expandable;
    if w != [] {
      match FirstItem(enc, w)
      case Text(n, _) => OkHasRefs(env, enc, open, w[n..]);
      case EntityRef(n, _) => OkHasRefs(env, enc, open, w[n..]);
    }
  }

  lemma {:induction false} ChainOfOk(env: Env, enc: Encoding, open: set<Bytes>, w: Bytes, names: seq<Bytes>)
    requires Normal(env, enc, open, w).Ok? && Chain(env, enc, w, names)
    ensures ChainOk(env, enc, open, w, names)
    decreases |names|
  {
    hide Normal, Refs, RefsOk;
    if names == [] {
      OkHasRefs(env, enc, open, w);
    } else {
      RefSucceeds(env, enc, open, w, names[0]);
      ChainOfOk(env, env.internal, open + {names[0]}, env.entities[names[0]].text.value, names[1..]);
    }
  }

  /** The chains of the text behind the first item are chains of the text. */
  lemma ChainsBehind(env: Env, enc: Encoding, open: set<Bytes>, w: Bytes)
    requires w != [] && AllChainsOk(env, enc, open, w)
    ensures var i := FirstItem(enc, w); !i.Malformed? && AllChainsOk(env, enc, open, w[i.n..])
    ensures var i := FirstItem(enc, w); i.EntityRef? ==> Expandable(env, open, i.name).Ok?
  {
    hide FirstItem, Expandable;
    assert Chain(env, enc, w, []);
    assert ChainOk(env, enc, open, w, []);
    var i := FirstItem(enc, w);
    var v := w[i.n..];
    forall names: seq<Bytes> | Chain(env, enc, v, names)
      ensures ChainOk(env, enc, open, v, names)
    {
      assert Chain(env, enc, w, names);
      assert ChainOk(env, enc, open, w, names);
    }
  }

  lemma ChainsWithin(env: Env, enc: Encoding, open: set<Bytes>, w: Bytes, name: Bytes)
    requires AllChainsOk(env, enc, open, w) && name in Refs(enc, w)
    requires name in env.entities && env.entities[name].text.Some?
    ensures AllChainsOk(env, env.internal, open + {name}, env.entities[name].text.value)
  {
    hide Refs, RefsOk;
    var text := env.entities[name].text.value;
    forall names: seq<Bytes> | Chain(env, env.internal, text, names)
      ensures ChainOk(env, env.internal, open + {name}, text, names)
    {
      var more := [name] + names;
      assert more[1..] == names;
      assert Chain(env, enc, w, more);
      assert ChainOk(env, enc, open, w, more);
    }
  }

  lemma {:induction false} ExpandsIf(env: Env, enc: Encoding, open: set<Bytes>, w: Bytes)
    requires AllChainsOk(env, enc, open, w)
    ensures Normal(env, enc, open, w).Ok?
    decreases env.entities.Keys - open, |w|
  {
    hide FirstItem, Expandable, AllChainsOk;
    if w != [] {
      ChainsBehind(env, enc, open, w);
      var i := FirstItem(enc, w);
      if i.EntityRef? && Expandable(env, open, i.name).value.Some? {
        ExpandableIsNew(env, open, i.name);
        ChainsWithin(env, enc, open, w, i.name);
        ExpandsIf(env, env.internal, open + {i.name}, Expandable(env, open, i.name).value.value);
      }
      ExpandsIf(env, enc, open, w[i.n..]);
    }
  }

  /**
   A value is normalized successfully if and only if, along every chain of references that starts in it, every
   item is well-formed and every reference may be expanded where the entities of the chain are open.
   */
  lemma SucceedsExactlyIf(env: Env, enc: Encoding, open: set<Bytes>, w: Bytes)
    ensures Normal(env, enc, open, w).Ok? <==> AllChainsOk(env, enc, open, w)
  {
    hide Normal, Refs, RefsOk, ChainOk;
    if Normal(env, enc, open, w).Ok? {
      forall names: seq<Bytes> | Chain(env, enc, w, names)
        ensures ChainOk(env, enc, open, w, names)
      {
        ChainOfOk(env, enc, open, w, names);
      }
    }
    if AllChainsOk(env, enc, open, w) {
      ExpandsIf(env, enc, open, w);
    }
  }
}
