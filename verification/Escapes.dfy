/**
 Text as it can be written in a document, characters as themselves or as references, and what becomes of it in
 attribute values and in content.
 */
module Escapes {
  import opened Encodings
  import opened Utf8
  import opened Automaton
  import opened Errors
  import opened AttributeValues
  import opened Grammar
  import Transcoding

  /** How a number is written: in decimal, or in hexadecimal with letters of either case. */
  datatype Radix = Ten | Sixteen(upper: bool)

  /** A character as itself, by the name of a predefined entity, or by its number. */
  datatype Written = Literal(c: Scalar) | Named(c: Scalar) | Numeric(c: Scalar, radix: Radix)

  /** Section 4.6 of XML 1.0: `amp`, `lt`, `gt`, `quot` and `apos`. */
  function NamedRef(c: Scalar): Bytes {
    if c == 0x26 then [0x26, 0x61, 0x6D, 0x70, 0x3B]
    else if c == 0x3C then [0x26, 0x6C, 0x74, 0x3B]
    else if c == 0x3E then [0x26, 0x67, 0x74, 0x3B]
    else if c == 0x22 then [0x26, 0x71, 0x75, 0x6F, 0x74, 0x3B]
    else if c == 0x27 then [0x26, 0x61, 0x70, 0x6F, 0x73, 0x3B]
    else []
  }

  predicate HasNamed(c: Scalar) { c == 0x26 || c == 0x3C || c == 0x3E || c == 0x22 || c == 0x27 }

  function Decimal(n: nat): Bytes {
    if n < 10 then [0x30 + n] else Decimal(n / 10) + [0x30 + n % 10]
  }

  function Hexadecimal(n: nat, upper: bool): Bytes {
    var d := n % 16;
    var digit: Byte := if d < 10 then 0x30 + d else (if upper then 0x41 else 0x61) + (d - 10);
    if n < 16 then [digit] else Hexadecimal(n / 16, upper) + [digit]
  }

  function NumericRef(n: nat, radix: Radix): Bytes {
    match radix
    case Ten => [0x26, 0x23] + Decimal(n) + [0x3B]
    case Sixteen(upper) => [0x26, 0x23, 0x78] + Hexadecimal(n, upper) + [0x3B]
  }

  function PrintOne(p: Written): Bytes {
    match p
    case Literal(c) => Encode(c)
    case Named(c) => NamedRef(c)
    case Numeric(c, radix) => NumericRef(c, radix)
  }

  function Print(ps: seq<Written>): Bytes { if ps == [] then [] else PrintOne(ps[0]) + Print(ps[1..]) }

  /** An escaped character: markup by name, white space by number, everything else as itself. */
  function EscapeChar(c: Scalar): Written {
    if HasNamed(c) then Named(c)
    else if c == 0x20 || c == 0x09 || c == 0x0A || c == 0x0D then Numeric(c, Ten)
    else Literal(c)
  }

  function Escaped(v: seq<Scalar>): (r: seq<Written>)
    ensures |r| == |v|
  {
    seq(|v|, i requires 0 <= i < |v| => EscapeChar(v[i]))
  }

  /** The text `v` in references wherever it might be taken for something else. */
  function Escape(v: seq<Scalar>): Bytes { Print(Escaped(v)) }

  predicate AllXml(v: seq<Scalar>) { forall i :: 0 <= i < |v| ==> IsXmlChar(v[i]) }

  // ----- characters as bytes -----

  /** The encoding of a character is one character of the grammar. */
  lemma EncodeIsChar(c: Scalar)
    requires IsXmlChar(c)
    ensures var e := Encode(c); e != [] && IsChar(e) && Size(e[0]) == |e| && (c < 0x80 ==> e == [c])
    ensures c >= 0x80 ==> forall i :: 0 <= i < |Encode(c)| ==> Encode(c)[i] >= 0x80
  {
    EncodeDecodes(c);
  }

  lemma CharsJoin(e: Bytes, x: Bytes)
    requires e != [] && IsChar(e) && Size(e[0]) == |e| && Chars(x)
    ensures Chars(e + x)
  {
    assert (e + x)[..|e|] == e && (e + x)[|e|..] == x;
  }

  // ----- numbers -----

  lemma {:induction false} DecimalIs(n: nat)
    ensures Digits(Decimal(n)) && Numeral(Decimal(n), 10) == n
  {
    var ds := Decimal(n);
    if n >= 10 {
      DecimalIs(n / 10);
      assert ds[..|ds| - 1] == Decimal(n / 10);
    } else {
      assert ds[..0] == [];
    }
  }

  lemma {:induction false} HexadecimalIs(n: nat, upper: bool)
    ensures HexDigits(Hexadecimal(n, upper)) && Numeral(Hexadecimal(n, upper), 16) == n
  {
    var ds := Hexadecimal(n, upper);
    if n >= 16 {
      HexadecimalIs(n / 16, upper);
      assert ds[..|ds| - 1] == Hexadecimal(n / 16, upper);
    } else {
      assert ds[..0] == [];
    }
  }

  /** A reference by number is the character with the number, if there is one. */
  lemma NumericIs(n: nat, radix: Radix)
    ensures IsCharRefText(NumericRef(n, radix))
    ensures CharRefNumber(NumericRef(n, radix)) == if IsXmlChar(n) then n else -1
  {
    hide IsXmlChar;
    var w := NumericRef(n, radix);
    if radix.Ten? {
      DecimalIs(n);
      assert w[2..|w| - 1] == Decimal(n) && w[2] == Decimal(n)[0];
    } else {
      HexadecimalIs(n, radix.upper);
      assert w[3..|w| - 1] == Hexadecimal(n, radix.upper);
    }
  }

  /** A predefined entity has a name, and is the character it names. */
  lemma NamedIs(enc: Encoding, ns: bool, c: Scalar)
    requires HasNamed(c)
    ensures var x := NamedRef(c);
      IsEntityRef(enc, ns, x) && PredefinedEntity(x[1..|x| - 1]) == c
  {
    var x := NamedRef(c);
    var name := x[1..|x| - 1];
    if c == 0x26 {
      assert name == [0x61, 0x6D, 0x70];
    } else if c == 0x3C {
      assert name == [0x6C, 0x74];
    } else if c == 0x3E {
      assert name == [0x67, 0x74];
    } else if c == 0x22 {
      assert name == [0x71, 0x75, 0x6F, 0x74];
    } else {
      assert name == [0x61, 0x70, 0x6F, 0x73];
    }
    LettersAreName(enc, ns, name);
  }

  lemma LettersAreName(enc: Encoding, ns: bool, x: Bytes)
    requires x != [] && forall i :: 0 <= i < |x| ==> IsLetter(x[i])
    ensures NcName(enc, ns, x)
  {
    LettersAreParts(enc, ns, x[1..]);
    assert x[..1] == [x[0]];
  }

  lemma {:induction false} LettersAreParts(enc: Encoding, ns: bool, x: Bytes)
    requires forall i :: 0 <= i < |x| ==> IsLetter(x[i])
    ensures NameChars(enc, ns, x)
  {
    if x != [] {
      LettersAreParts(enc, ns, x[1..]);
      assert x[..1] == [x[0]];
    }
  }

  // ----- attribute values -----

  /** A character of an attribute value: `<` and `&` only as references. */
  predicate AttWritten(p: Written) {
    && IsXmlChar(p.c) && (p.Literal? ==> p.c != 0x26 && p.c != 0x3C) && (p.Named? ==> HasNamed(p.c))
  }

  predicate AllAttWritten(ps: seq<Written>) { forall i :: 0 <= i < |ps| ==> AttWritten(ps[i]) }

  /** The table for text whose line ends are not normalized yet. */
  predicate External(enc: Encoding) { enc.byteType(0x0D) == BtCr }

  predicate IsCr(p: Written) { p == Literal(0x0D) }

  predicate IsLf(p: Written) { p == Literal(0x0A) }

  /** White space that is not written as a reference is a space. */
  function AttChar(p: Written): Scalar {
    if p.Literal? && (p.c == 0x09 || p.c == 0x0A || p.c == 0x0D) then 0x20 else p.c
  }

  /**
   Section 3.3.3 of XML 1.0: the characters, white space as spaces.  In a document, but not in the text of an
   entity, a carriage return and the line feed behind it are one line end.
   */
  function AttValueOf(document: bool, ps: seq<Written>): Bytes
    decreases |ps|
  {
    if ps == [] then []
    else if document && IsCr(ps[0]) && |ps| > 1 && IsLf(ps[1]) then Encode(0x20) + AttValueOf(document, ps[2..])
    else Encode(AttChar(ps[0])) + AttValueOf(document, ps[1..])
  }

  lemma RefScan(enc: Encoding, ns: bool, x: Bytes, rest: Bytes)
    requires IsRef(enc, ns, x) && IsUtf8(enc, ns)
    ensures var w := x + rest;
      && 0 < |x| && w[..|x|] == x && w[0] == 0x26
      && Gives(enc, w, 1, RefStart(InContent), Scan(if IsEntityRef(enc, ns, x) then TokEntityRef else TokCharRef, |x|))
  {
    hide IsUtf8, ScanFrom, NcName;
    var w, n := x + rest, |x|;
    assert w[..n] == x && w[0] == x[0] && w[n - 1] == x[n - 1] && w[1..n - 1] == x[1..n - 1];
    if IsEntityRef(enc, ns, x) {
      PassEntityRef(enc, ns, w, 1, n - 1);
    } else {
      assert w[0..0 + n] == x;
      RefTextAt(w, 0, n);
      PassCharRef(enc, ns, w, 1, n - 1);
    }
  }

  /** What an attribute value begins with. */
  lemma ItemIs(enc: Encoding, ns: bool, p: Written, rest: Bytes)
    requires AttWritten(p) && IsUtf8(enc, ns)
    requires IsCr(p) && External(enc) ==> rest == [] || rest[0] != 0x0A
    ensures PrintOne(p) != []
    ensures FirstItem(enc, PrintOne(p) + rest) == Text(|PrintOne(p)|, Encode(AttChar(p)))
  {
    hide IsUtf8, ScanFrom, NumericRef, NamedRef, CharRefNumber, PredefinedEntity, Encode, IsXmlChar;
    match p
    case Literal(c) =>
      LiteralItem(enc, ns, c, rest);
    case Named(c) =>
      NamedItem(enc, ns, c, rest);
    case Numeric(c, radix) =>
      NumericItem(enc, ns, c, radix, rest);
  }

  lemma NamedItem(enc: Encoding, ns: bool, c: Scalar, rest: Bytes)
    requires HasNamed(c) && IsUtf8(enc, ns)
    ensures FirstItem(enc, NamedRef(c) + rest) == Text(|NamedRef(c)|, Encode(c))
  {
    hide IsUtf8, ScanFrom, NamedRef, CharRefNumber, PredefinedEntity, Encode, IsXmlChar;
    var x := NamedRef(c);
    NamedIs(enc, ns, c);
    RefScan(enc, ns, x, rest);
    assert (x + rest)[1..|x| - 1] == x[1..|x| - 1];
    TypeAt(enc, ns, 0x26);
    AsciiEncode(c);
  }

  lemma NumericItem(enc: Encoding, ns: bool, n: nat, radix: Radix, rest: Bytes)
    requires IsUtf8(enc, ns)
    ensures var x := NumericRef(n, radix);
      FirstItem(enc, x + rest) == if IsXmlChar(n) then Item.Text(|x|, Encode(n)) else Malformed(BadCharRef)
  {
    hide IsUtf8, ScanFrom, NumericRef, CharRefNumber, PredefinedEntity, Encode, IsXmlChar;
    var x := NumericRef(n, radix);
    NumericIs(n, radix);
    NoNameHasHash(enc, ns, x);
    RefScan(enc, ns, x, rest);
    TypeAt(enc, ns, 0x26);
  }

  lemma AsciiEncode(c: Scalar)
    ensures c < 0x80 ==> Encode(c) == [c]
  {
  }

  lemma LiteralItem(enc: Encoding, ns: bool, c: Scalar, rest: Bytes)
    requires AttWritten(Literal(c)) && IsUtf8(enc, ns)
    requires c == 0x0D && External(enc) ==> rest == [] || rest[0] != 0x0A
    ensures Encode(c) != []
    ensures FirstItem(enc, Encode(c) + rest) == Text(|Encode(c)|, Encode(AttChar(Literal(c))))
  {
    hide IsUtf8, FirstItem, Encode, IsXmlChar, IsChar;
    EncodeIsChar(c);
    AsciiEncode(c);
    AsciiEncode(0x20);
    var w, e := Encode(c) + rest, Encode(c);
    assert w[..|e|] == e && w[0] == e[0];
    if IsBlank(w[0]) { BlankItem(enc, ns, w); } else { CharItem(enc, ns, w, |e|); }
  }

  lemma BlankItem(enc: Encoding, ns: bool, w: Bytes)
    requires w != [] && IsBlank(w[0]) && (w[0] == 0x0D && External(enc) && |w| > 1 ==> w[1] != 0x0A) && IsUtf8(enc, ns)
    ensures FirstItem(enc, w) == Item.Text(1, [0x20])
  {
    hide IsUtf8, RefItem, CharLength;
    TypeAt(enc, ns, w[0]);
    if |w| > 1 { TypeAt(enc, ns, w[1]); }
  }

  lemma CharItem(enc: Encoding, ns: bool, w: Bytes, n: nat)
    requires 0 < n <= |w| && Size(w[0]) == n && !IsBlank(w[0]) && w[0] != 0x26 && w[0] != 0x3C && IsUtf8(enc, ns)
    ensures FirstItem(enc, w) == Item.Text(n, w[..n])
  {
    hide IsUtf8, RefItem;
    TypeAt(enc, ns, w[0]);
  }

  /** A line end of two characters is one item. */
  lemma LineEndItem(enc: Encoding, ns: bool, rest: Bytes)
    requires External(enc) && IsUtf8(enc, ns)
    ensures FirstItem(enc, [0x0D, 0x0A] + rest) == Text(2, Encode(0x20))
  {
    hide IsUtf8, ScanFrom, Encode;
    TypeAt(enc, ns, 0x0D);
    TypeAt(enc, ns, 0x0A);
    AsciiEncode(0x20);
  }

  /** What a part of a value is printed as begins with. */
  lemma PrintOpens(p: Written)
    requires AttWritten(p)
    ensures PrintOne(p) != [] && (PrintOne(p)[0] == 0x0A <==> IsLf(p))
    ensures p.Literal? && p.c < 0x80 ==> PrintOne(p) == [p.c]
  {
    hide Encode, IsXmlChar, IsChar;
    if p.Literal? { EncodeIsChar(p.c); }
  }

  /** A value is normalized to the characters that are written in it, up to a reference or its end. */
  lemma {:induction false} NormalOfText(env: Env, enc: Encoding, ns: bool, open: set<Bytes>, ps: seq<Written>,
                                        rest: Bytes)
    requires AllAttWritten(ps) && IsUtf8(enc, ns) && (rest == [] || rest[0] == 0x26)
    ensures Normal(env, enc, open, Print(ps) + rest)
      == Prepend(AttValueOf(External(enc), ps), Normal(env, enc, open, rest))
    decreases |ps|
  {
    hide IsUtf8, Print, AttWritten, AttValueOf, Normal;
    if ps == [] {
      NothingWritten(External(enc), rest);
      PrependTwice([], [], Normal(env, enc, open, rest));
    } else {
      var n, v := FirstOfText(env, enc, ns, open, ps, rest);
      NormalOfText(env, enc, ns, open, ps[n..], rest);
      PrependTwice(v, AttValueOf(External(enc), ps[n..]), Normal(env, enc, open, rest));
    }
  }

  lemma NothingWritten(document: bool, rest: Bytes)
    ensures Print([]) + rest == rest && AttValueOf(document, []) == []
  {
  }

  lemma FirstOfText(env: Env, enc: Encoding, ns: bool, open: set<Bytes>, ps: seq<Written>, rest: Bytes)
    returns (n: nat, v: Bytes)
    requires ps != [] && AllAttWritten(ps) && IsUtf8(enc, ns) && (rest == [] || rest[0] == 0x26)
    ensures 0 < n <= |ps| && AttValueOf(External(enc), ps) == v + AttValueOf(External(enc), ps[n..])
    ensures Normal(env, enc, open, Print(ps) + rest) == Prepend(v, Normal(env, enc, open, Print(ps[n..]) + rest))
  {
    hide IsUtf8, FirstItem, PrintOne, Print, AttWritten, Encode, Normal;
    n, v := 1, Encode(AttChar(ps[0]));
    var x, more := PrintOne(ps[0]), Print(ps[1..]) + rest;
    PrintOpens(ps[0]);
    PrintNext(ps, rest);
    PrintBegins(ps[1..], rest);
    if External(enc) && IsCr(ps[0]) && |ps| > 1 && IsLf(ps[1]) {
      n, v, x, more := 2, Encode(0x20), [0x0D, 0x0A], Print(ps[2..]) + rest;
      PrintOpens(ps[1]);
      PrintNext(ps[1..], rest);
      assert ps[1..][1..] == ps[2..];
      assert [0x0D] + ([0x0A] + more) == x + more;
      LineEndItem(enc, ns, more);
    } else {
      ItemIs(enc, ns, ps[0], more);
    }
    NormalNext(env, enc, open, x, more, v);
  }

  lemma PrintNext(ps: seq<Written>, rest: Bytes)
    requires ps != []
    ensures Print(ps) + rest == PrintOne(ps[0]) + (Print(ps[1..]) + rest)
  {
    hide PrintOne;
  }

  lemma PrintBegins(ps: seq<Written>, rest: Bytes)
    requires AllAttWritten(ps) && (rest == [] || rest[0] == 0x26)
    ensures var w := Print(ps) + rest; w != [] && w[0] == 0x0A ==> ps != [] && IsLf(ps[0])
  {
    hide PrintOne, AttWritten;
    if ps != [] { PrintOpens(ps[0]); }
  }

  lemma NormalNext(env: Env, enc: Encoding, open: set<Bytes>, x: Bytes, rest: Bytes, v: Bytes)
    requires x != [] && FirstItem(enc, x + rest) == Item.Text(|x|, v)
    ensures Normal(env, enc, open, x + rest) == Prepend(v, Normal(env, enc, open, rest))
  {
    hide FirstItem;
    assert (x + rest)[|x|..] == rest;
  }

  lemma NormalOfWritten(env: Env, enc: Encoding, ns: bool, open: set<Bytes>, ps: seq<Written>)
    requires AllAttWritten(ps) && IsUtf8(enc, ns)
    ensures Normal(env, enc, open, Print(ps)) == Ok(AttValueOf(External(enc), ps))
  {
    hide IsUtf8, Print, AttValueOf, AttWritten;
    NormalOfText(env, enc, ns, open, ps, []);
    assert Print(ps) + [] == Print(ps);
    assert AttValueOf(External(enc), ps) + [] == AttValueOf(External(enc), ps);
  }

  lemma {:induction false} EscapedValue(document: bool, v: seq<Scalar>)
    requires AllXml(v)
    ensures AllAttWritten(Escaped(v)) && AttValueOf(document, Escaped(v)) == Transcoding.Utf8Text(v)
    decreases |v|
  {
    hide IsXmlChar, Encode;
    if v != [] {
      assert Escaped(v)[1..] == Escaped(v[1..]);
      EscapedValue(document, v[1..]);
      forall i | 0 <= i < |v|
        ensures AttWritten(Escaped(v)[i])
      {
        assert IsXmlChar(v[i]);
      }
    }
  }

  /** Every text survives in an attribute value if it is escaped: for all entities, whichever of them are open. */
  lemma EscapeIsValue(env: Env, enc: Encoding, ns: bool, open: set<Bytes>, v: seq<Scalar>)
    requires AllXml(v) && IsUtf8(enc, ns)
    ensures Normal(env, enc, open, Escape(v)) == Ok(Transcoding.Utf8Text(v))
  {
    hide IsUtf8;
    EscapedValue(External(enc), v);
    NormalOfWritten(env, enc, ns, open, Escaped(v));
  }
}
