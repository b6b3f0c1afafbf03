/** Attribute values with references to declared entities: what they stand for, and when they are errors. */
module EntityValues {
  import opened Encodings
  import opened Utf8
  import opened Automaton
  import opened Errors
  import opened AttributeValues
  import opened Grammar
  import opened Escapes

  /** Characters, a reference to an entity and what is written in its text, or one that need not be declared. */
  datatype Part = Chars(text: seq<Written>) | Ref(name: Bytes, parts: seq<Part>) | Undeclared(name: Bytes)

  function PrintPart(p: Part): Bytes { if p.Chars? then Print(p.text) else [0x26] + p.name + [0x3B] }

  function PrintParts(parts: seq<Part>): Bytes {
    if parts == [] then [] else PrintPart(parts[0]) + PrintParts(parts[1..])
  }

  /** A reference is replaced by what the text of its entity stands for. */
  function ValueOf(document: bool, parts: seq<Part>): Bytes
    decreases parts
  {
    if parts == [] then []
    else
      var p := parts[0];
      (if p.Chars? then AttValueOf(document, p.text) else if p.Ref? then ValueOf(false, p.parts) else [])
      + ValueOf(document, parts[1..])
  }

  const AMP: Bytes := [0x61, 0x6D, 0x70]
  const LT: Bytes := [0x6C, 0x74]
  const GT: Bytes := [0x67, 0x74]
  const QUOT: Bytes := [0x71, 0x75, 0x6F, 0x74]
  const APOS: Bytes := [0x61, 0x70, 0x6F, 0x73]

  /** The name of a general entity that is not predefined. */
  predicate EntityName(enc: Encoding, ns: bool, name: Bytes) {
    NcName(enc, ns, name) && name != AMP && name != LT && name != GT && name != QUOT && name != APOS
  }

  /**
   The constraints of section 4.1 of XML 1.0: an entity is declared, and not in a parameter entity where it must be
   declared in the document; it is parsed, it is not external, and it is not within its own text.
   */
  ghost predicate Fits(env: Env, enc: Encoding, ns: bool, open: set<Bytes>, parts: seq<Part>)
    decreases parts
  {
    parts != [] ==>
      && (match parts[0]
          case Chars(text) => AllAttWritten(text) && (|parts| > 1 ==> !parts[1].Chars?)
          case Undeclared(name) => EntityName(enc, ns, name) && name !in env.entities && !env.checkDecl
          case Ref(name, within) =>
            && EntityName(enc, ns, name) && name !in open && name in env.entities
            && env.entities[name].text == Some(PrintParts(within)) && !env.entities[name].notation
            && (env.checkDecl ==> env.entities[name].isInternal)
            && Fits(env, env.internal, ns, open + {name}, within))
      && Fits(env, enc, ns, open, parts[1..])
  }

  lemma RefItemIs(enc: Encoding, ns: bool, name: Bytes, rest: Bytes)
    requires EntityName(enc, ns, name) && IsUtf8(enc, ns)
    ensures FirstItem(enc, [0x26] + name + [0x3B] + rest) == EntityRef(|name| + 2, name)
  {
    hide IsUtf8, ScanFrom, CharRefNumber;
    var x := [0x26] + name + [0x3B];
    assert x[1..|x| - 1] == name;
    RefScan(enc, ns, x, rest);
    assert (x + rest)[1..|x| - 1] == name;
    TypeAt(enc, ns, 0x26);
  }

  /** A reference and what follows it. */
  lemma NormalOfRef(env: Env, enc: Encoding, ns: bool, open: set<Bytes>, name: Bytes, rest: Bytes)
    requires EntityName(enc, ns, name) && IsUtf8(enc, ns)
    ensures var r, t := Normal(env, enc, open, [0x26] + name + [0x3B] + rest), Expandable(env, open, name);
      if t.Err? then r == Err(t.error)
      else if t.value.None? then r == Normal(env, enc, open, rest)
      else
        var v := Normal(env, env.internal, open + {name}, t.value.value);
        r == if v.Err? then v else Prepend(v.value, Normal(env, enc, open, rest))
  {
    hide IsUtf8, FirstItem, Expandable, EntityName;
    var x := [0x26] + name + [0x3B];
    RefItemIs(enc, ns, name, rest);
    assert (x + rest)[|x|..] == rest;
  }

  lemma ReferencesOpen(env: Env, enc: Encoding, ns: bool, open: set<Bytes>, parts: seq<Part>, rest: Bytes)
    requires Fits(env, enc, ns, open, parts) && parts != [] && parts[0].Chars? && (rest == [] || rest[0] == 0x26)
    ensures PrintParts(parts[1..]) + rest == [] || (PrintParts(parts[1..]) + rest)[0] == 0x26
  {
    if |parts| > 1 { assert parts[1..] != []; }
  }

  /** A value is what its parts stand for, up to a reference or its end, whatever entities are open around it. */
  lemma {:induction false} NormalOfPartsThen(env: Env, enc: Encoding, ns: bool, open: set<Bytes>, parts: seq<Part>,
                                             rest: Bytes)
    requires Fits(env, enc, ns, open, parts) && IsUtf8(enc, ns) && IsUtf8(env.internal, ns) && !External(env.internal)
    requires rest == [] || rest[0] == 0x26
    ensures Normal(env, enc, open, PrintParts(parts) + rest)
      == Prepend(ValueOf(External(enc), parts), Normal(env, enc, open, rest))
    decreases parts
  {
    hide IsUtf8, Normal, EntityName, AllAttWritten, Print, AttValueOf, External;
    var r := Normal(env, enc, open, rest);
    if parts == [] {
      assert [] + rest == rest;
      PrependTwice([], [], r);
    } else {
      var p, more, v := parts[0], PrintParts(parts[1..]) + rest, ValueOf(External(enc), parts[1..]);
      NormalOfPartsThen(env, enc, ns, open, parts[1..], rest);
      assert PrintParts(parts) + rest == PrintPart(p) + more;
      if p.Chars? {
        ReferencesOpen(env, enc, ns, open, parts, rest);
        NormalOfText(env, enc, ns, open, p.text, more);
        PrependTwice(AttValueOf(External(enc), p.text), v, r);
      } else {
        NormalOfRef(env, enc, ns, open, p.name, more);
        if p.Ref? {
          NormalOfPartsThen(env, env.internal, ns, open + {p.name}, p.parts, []);
          NormalAlone(env, env.internal, open + {p.name}, p.parts);
          PrependTwice(ValueOf(false, p.parts), v, r);
        } else {
          assert [] + v == v;
        }
      }
    }
  }

  lemma NormalAlone(env: Env, enc: Encoding, open: set<Bytes>, parts: seq<Part>)
    ensures PrintParts(parts) + [] == PrintParts(parts)
    ensures Prepend(ValueOf(External(enc), parts), Normal(env, enc, open, [])) == Ok(ValueOf(External(enc), parts))
  {
    hide PrintParts, ValueOf;
    assert ValueOf(External(enc), parts) + [] == ValueOf(External(enc), parts);
  }

  /** References within references: a value is the characters of all of them. */
  lemma NormalOfParts(env: Env, enc: Encoding, ns: bool, open: set<Bytes>, parts: seq<Part>)
    requires Fits(env, enc, ns, open, parts) && IsUtf8(enc, ns) && IsUtf8(env.internal, ns) && !External(env.internal)
    ensures Normal(env, enc, open, PrintParts(parts)) == Ok(ValueOf(External(enc), parts))
  {
    hide IsUtf8, Normal, Fits;
    NormalOfPartsThen(env, enc, ns, open, parts, []);
    NormalAlone(env, enc, open, parts);
  }

  /** So is the first reference to a number that is no character. */
  lemma NumberErrors(env: Env, enc: Encoding, ns: bool, open: set<Bytes>, parts: seq<Part>, n: nat, radix: Radix,
                     rest: Bytes)
    requires Fits(env, enc, ns, open, parts) && IsUtf8(enc, ns) && IsUtf8(env.internal, ns) && !External(env.internal)
    ensures Normal(env, enc, open, PrintParts(parts) + (NumericRef(n, radix) + rest)) ==
      if IsXmlChar(n) then Prepend(ValueOf(External(enc), parts) + Encode(n), Normal(env, enc, open, rest))
      else Err(BadCharRef)
  {
    hide IsUtf8, Normal, Fits, FirstItem, PrintParts, ValueOf, IsXmlChar, Encode;
    var ref := NumericRef(n, radix);
    NumericOpens(n, radix);
    NormalOfPartsThen(env, enc, ns, open, parts, ref + rest);
    NumericItem(enc, ns, n, radix, rest);
    if IsXmlChar(n) {
      NormalNext(env, enc, open, ref, rest, Encode(n));
      PrependTwice(ValueOf(External(enc), parts), Encode(n), Normal(env, enc, open, rest));
    } else {
      NormalFails(env, enc, open, ref + rest, BadCharRef);
    }
  }

  lemma NumericOpens(n: nat, radix: Radix)
    ensures NumericRef(n, radix) != [] && NumericRef(n, radix)[0] == 0x26
  {
  }

  lemma NormalFails(env: Env, enc: Encoding, open: set<Bytes>, w: Bytes, e: Error)
    requires w != [] && FirstItem(enc, w) == Malformed(e)
    ensures Normal(env, enc, open, w) == Err(e)
  {
    hide FirstItem;
  }

  /** The first reference of a value that may not be expanded is its error. */
  lemma ReferenceErrors(env: Env, enc: Encoding, ns: bool, open: set<Bytes>, parts: seq<Part>, name: Bytes, rest: Bytes)
    requires Fits(env, enc, ns, open, parts) && IsUtf8(enc, ns) && IsUtf8(env.internal, ns) && !External(env.internal)
    requires EntityName(enc, ns, name)
    ensures var r := Normal(env, enc, open, PrintParts(parts) + ([0x26] + name + [0x3B] + rest));
      if name !in env.entities then env.checkDecl ==> r == Err(UndefinedEntity)
      else
        var e := env.entities[name];
        && (env.checkDecl && !e.isInternal ==> r == Err(EntityDeclaredInPe))
        && (!(env.checkDecl && !e.isInternal) && name in open ==> r == Err(RecursiveEntityRef))
        && (!(env.checkDecl && !e.isInternal) && name !in open && e.notation ==> r == Err(BinaryEntityRef))
        && (!(env.checkDecl && !e.isInternal) && name !in open && !e.notation && e.text == None ==>
              r == Err(AttributeExternalEntityRef))
  {
    hide IsUtf8, Normal, Fits, EntityName, PrintParts, ValueOf;
    var ref := [0x26] + name + [0x3B] + rest;
    NormalOfPartsThen(env, enc, ns, open, parts, ref);
    NormalOfRef(env, enc, ns, open, name, rest);
  }
}
