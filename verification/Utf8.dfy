/**
 The UTF-8 encodings, and character references.

 Bit masks and shifts are written with `%` and `/` by powers of two.
 */
module Utf8 {
  import opened Encodings

  /** The byte types of ASCII; `internal` is the table for text whose line ends are already normalized. */
  function AsciiType(ns: bool, internal: bool, b: Byte): ByteType
    requires b < 0x80
  {
    if b == 0x09 || b == 0x20 then BtS
    else if b == 0x0A then BtLf
    else if b == 0x0D then (if internal then BtS else BtCr)
    else if b < 0x20 then BtNonXml
    else if 0x30 <= b <= 0x39 then BtDigit
    else if 0x41 <= b <= 0x46 || 0x61 <= b <= 0x66 then BtHex
    else if 0x47 <= b <= 0x5A || 0x67 <= b <= 0x7A || b == 0x5F then BtNmstrt
    else if b == 0x21 then BtExcl
    else if b == 0x22 then BtQuot
    else if b == 0x23 then BtNum
    else if b == 0x25 then BtPercnt
    else if b == 0x26 then BtAmp
    else if b == 0x27 then BtApos
    else if b == 0x28 then BtLpar
    else if b == 0x29 then BtRpar
    else if b == 0x2A then BtAst
    else if b == 0x2B then BtPlus
    else if b == 0x2C then BtComma
    else if b == 0x2D then BtMinus
    else if b == 0x2E then BtName
    else if b == 0x2F then BtSol
    else if b == 0x3A then (if ns then BtColon else BtNmstrt)
    else if b == 0x3B then BtSemi
    else if b == 0x3C then BtLt
    else if b == 0x3D then BtEquals
    else if b == 0x3E then BtGt
    else if b == 0x3F then BtQuest
    else if b == 0x5B then BtLsqb
    else if b == 0x5D then BtRsqb
    else if b == 0x7C then BtVerbar
    else BtOther
  }

  function Utf8Type(ns: bool, internal: bool, b: Byte): ByteType {
    if b < 0x80 then AsciiType(ns, internal, b)
    else if b < 0xC0 then BtTrail
    else if b < 0xE0 then BtLead2
    else if b < 0xF0 then BtLead3
    else if b < 0xF5 then BtLead4
    else if b < 0xFE then BtNonXml
    else BtMalform
  }

  // ----- invalid sequences -----

  // A byte masked with 0x80 is zero below 0x80; masked with 0xC0 it is 0xC0 above 0xBF.

  predicate Invalid2(p: Bytes)
    requires |p| == 2
  {
    p[0] < 0xC2 || p[1] < 0x80 || p[1] > 0xBF
  }

  predicate Invalid3(p: Bytes)
    requires |p| == 3
  {
    || p[2] < 0x80
    || (if p[0] == 0xEF && p[1] == 0xBF then p[2] > 0xBD else p[2] > 0xBF)
    || (if p[0] == 0xE0 then p[1] < 0xA0 || p[1] > 0xBF
        else p[1] < 0x80 || (if p[0] == 0xED then p[1] > 0x9F else p[1] > 0xBF))
  }

  predicate Invalid4(p: Bytes)
    requires |p| == 4
  {
    || p[3] < 0x80 || p[3] > 0xBF
    || p[2] < 0x80 || p[2] > 0xBF
    || (if p[0] == 0xF0 then p[1] < 0x90 || p[1] > 0xBF
        else p[1] < 0x80 || (if p[0] == 0xF4 then p[1] > 0x8F else p[1] > 0xBF))
  }

  predicate IsInvalid(p: Bytes) {
    if |p| == 2 then Invalid2(p)
    else if |p| == 3 then Invalid3(p)
    else if |p| == 4 then Invalid4(p)
    else true
  }

  /** The UTF-8 encodings; which multibyte characters are name characters is left open. */
  function Utf8Encoding(ns: bool, internal: bool, isName: Bytes -> bool, isNmstrt: Bytes -> bool): Encoding {
    Encoding((b: Byte) => Utf8Type(ns, internal, b), isName, isNmstrt, (p: Bytes) => IsInvalid(p))
  }

  // ----- characters: section 2.2 of XML 1.0 and section 4 of RFC 3629 -----

  predicate IsXmlChar(c: int) {
    c == 0x9 || c == 0xA || c == 0xD || 0x20 <= c <= 0xD7FF || 0xE000 <= c <= 0xFFFD || 0x10000 <= c <= 0x10FFFF
  }

  /** Every code point but the surrogates. */
  type Scalar = c: int | 0 <= c < 0xD800 || 0xE000 <= c <= 0x10FFFF

  predicate IsTail(b: Byte) { 0x80 <= b <= 0xBF }

  /** UTF8-2, UTF8-3 and UTF8-4 in the grammar of section 4 of RFC 3629. */
  predicate IsMultibyte(p: Bytes) {
    || (|p| == 2 && 0xC2 <= p[0] <= 0xDF && IsTail(p[1]))
    || (|p| == 3 && IsTail(p[2]) &&
        (|| (p[0] == 0xE0 && 0xA0 <= p[1] <= 0xBF)
         || (0xE1 <= p[0] <= 0xEC && IsTail(p[1]))
         || (p[0] == 0xED && 0x80 <= p[1] <= 0x9F)
         || (0xEE <= p[0] <= 0xEF && IsTail(p[1]))))
    || (|p| == 4 && IsTail(p[2]) && IsTail(p[3]) &&
        (|| (p[0] == 0xF0 && 0x90 <= p[1] <= 0xBF)
         || (0xF1 <= p[0] <= 0xF3 && IsTail(p[1]))
         || (p[0] == 0xF4 && 0x80 <= p[1] <= 0x8F)))
  }

  /** The low bits of a byte. */
  function Low(b: Byte, m: nat): nat
    requires m > 0
  {
    b as int % m
  }

  /** The number of a UTF-8 sequence: the payload bits put together. */
  function Decode(p: Bytes): int
    requires 1 <= |p| <= 4
  {
    if |p| == 1 then p[0]
    else if |p| == 2 then Low(p[0], 32) * 64 + Low(p[1], 64)
    else if |p| == 3 then (Low(p[0], 16) * 64 + Low(p[1], 64)) * 64 + Low(p[2], 64)
    else ((Low(p[0], 8) * 64 + Low(p[1], 64)) * 64 + Low(p[2], 64)) * 64 + Low(p[3], 64)
  }

  /**
   Behind a lead byte, the invalidity tests reject exactly what is not UTF-8, and U+FFFE and U+FFFF.
   */
  lemma InvalidIsNotUtf8(ns: bool, internal: bool, p: Bytes)
    requires p != [] && LeadLength(Utf8Type(ns, internal, p[0])) == |p|
    ensures !IsInvalid(p) <==> IsMultibyte(p) && Decode(p) != 0xFFFE && Decode(p) != 0xFFFF
  {
    LowBits(p[0]);
    if IsMultibyte(p) {
      LowBits(p[1]);
      if |p| >= 3 { LowBits(p[2]); }
    }
  }

  /** What is left of a byte of UTF-8 without its marker bits. */
  lemma LowBits(b: Byte)
    ensures 0x80 <= b < 0xC0 ==> Low(b, 64) == b - 0x80
    ensures 0xC0 <= b < 0xE0 ==> Low(b, 32) == b - 0xC0
    ensures 0xE0 <= b < 0xF0 ==> Low(b, 16) == b - 0xE0
    ensures 0xF0 <= b < 0xF8 ==> Low(b, 8) == b - 0xF0
  {
  }

  // ----- encoding of a number -----

  function Encode(c: int): (buf: Bytes)
    ensures |buf| <= 4
  {
    if c < 0 then []
    else if c < 0x80 then [c]
    else if c < 0x800 then [c / 64 + 0xC0, c % 64 + 0x80]
    else if c < 0x10000 then [c / 4096 + 0xE0, c / 64 % 64 + 0x80, c % 64 + 0x80]
    else if c < 0x110000 then [c / 262144 + 0xF0, c / 4096 % 64 + 0x80, c / 64 % 64 + 0x80, c % 64 + 0x80]
    else []
  }

  /** A character, of XML or not, is written as well-formed UTF-8 that reads back as the same number. */
  lemma EncodeDecodes(c: Scalar)
    ensures var p := Encode(c);
      1 <= |p| <= 4 && Decode(p) == c && (if c < 0x80 then |p| == 1 else IsMultibyte(p))
  {
    var p := Encode(c);
    forall i | 0 <= i < |p| { LowBits(p[i]); }
    assert c / 4096 == c / 64 / 64 && c / 262144 == c / 4096 / 64;
  }

  lemma Split64(x: nat, y: nat)
    requires y < 64
    ensures (x * 64 + y) / 64 == x && (x * 64 + y) % 64 == y
  {
  }

  lemma Divide64(c: nat)
    ensures c / 4096 == c / 64 / 64 && c / 262144 == c / 64 / 64 / 64
  {
  }

  lemma Encode3(x: nat, y: nat, z: nat, c: nat)
    requires y < 64 && z < 64 && c == (x * 64 + y) * 64 + z && 0x800 <= c < 0x10000
    ensures Encode(c) == [x + 0xE0, y + 0x80, z + 0x80]
  {
    Split64(x, y);
    Split64(x * 64 + y, z);
    Divide64(c);
  }

  lemma Encode4(x: nat, y: nat, z: nat, u: nat, c: nat)
    requires y < 64 && z < 64 && u < 64
    requires c == ((x * 64 + y) * 64 + z) * 64 + u && 0x10000 <= c < 0x110000
    ensures Encode(c) == [x + 0xF0, y + 0x80, z + 0x80, u + 0x80]
  {
    Split64(x, y);
    Split64(x * 64 + y, z);
    Split64((x * 64 + y) * 64 + z, u);
    Divide64(c);
  }

  /** Every well-formed sequence is the encoding of its number: the payloads are the digits in base 64. */
  lemma DecodeEncodes(p: Bytes)
    requires IsMultibyte(p)
    ensures Encode(Decode(p)) == p
  {
    LowBits(p[0]);
    LowBits(p[1]);
    if |p| == 2 {
      Split64(p[0] - 0xC0, p[1] - 0x80);
    } else if |p| == 3 {
      LowBits(p[2]);
      Encode3(p[0] - 0xE0, p[1] - 0x80, p[2] - 0x80, Decode(p));
    } else {
      LowBits(p[2]);
      LowBits(p[3]);
      Encode4(p[0] - 0xF0, p[1] - 0x80, p[2] - 0x80, p[3] - 0x80, Decode(p));
    }
  }

  // ----- numeric character references -----

  predicate IsDecimal(c: Byte) { 0x30 <= c <= 0x39 }

  predicate IsHex(c: Byte) { IsDecimal(c) || 0x41 <= c <= 0x46 || 0x61 <= c <= 0x66 }

  function DigitValue(c: Byte): int {
    if 0x61 <= c <= 0x66 then c as int - 0x61 + 10
    else if 0x41 <= c <= 0x46 then c as int - 0x41 + 10
    else c as int - 0x30
  }

  /** The number a numeral denotes, without any bound. */
  function Numeral(ds: Bytes, base: nat): int {
    if ds == [] then 0 else Numeral(ds[..|ds| - 1], base) * base + DigitValue(ds[|ds| - 1])
  }

  /** `&#` and a numeral, ended by `;`. */
  predicate IsCharRef(w: Bytes) {
    && |w| >= 4 && w[|w| - 1] == ASCII_SEMI
    && if w[2] == ASCII_x then forall i :: 3 <= i < |w| - 1 ==> IsHex(w[i])
       else forall i :: 2 <= i < |w| - 1 ==> IsDecimal(w[i])
  }

  function CharRefNumeral(w: Bytes): int
    requires |w| >= 4
  {
    if w[2] == ASCII_x then Numeral(w[3..|w| - 1], 16) else Numeral(w[2..|w| - 1], 10)
  }

  /** The character a reference names, or -1 if it is not an XML character. */
  function CharRefNumber(w: Bytes): int {
    if |w| >= 4 && IsXmlChar(CharRefNumeral(w)) then CharRefNumeral(w) else -1
  }

  lemma Scale(x: int, base: nat)
    requires x >= 0 && base > 0
    ensures x <= x * base
  {
  }

  lemma {:induction false} NumeralGrows(ds: Bytes, n: nat, base: nat)
    requires n <= |ds| && base > 0 && forall i :: 0 <= i < |ds| ==> DigitValue(ds[i]) >= 0
    ensures 0 <= Numeral(ds[..n], base) <= Numeral(ds, base)
    decreases |ds|
  {
    hide DigitValue;
    if ds == [] {
    } else if n == |ds| {
      NumeralGrows(ds[..|ds| - 1], |ds| - 1, base);
      assert ds[..n] == ds;
      assert ds[..|ds| - 1][..|ds| - 1] == ds[..|ds| - 1];
      Scale(Numeral(ds[..|ds| - 1], base), base);
    } else {
      var front := ds[..|ds| - 1];
      NumeralGrows(front, n, base);
      assert front[..n] == ds[..n];
      Scale(Numeral(front, base), base);
    }
  }

  /** `checkCharRefNumber`, on numbers below 0x110000. */
  function CheckCharRefNumber(result: nat): int {
    if 0xD8 <= result / 256 <= 0xDF then -1
    else if result < 256 && result < 0x20 && result != 9 && result != 10 && result != 13 then -1
    else if result == 0xFFFE || result == 0xFFFF then -1
    else result
  }

  lemma CheckIsXmlChar(result: nat)
    requires result < 0x110000
    ensures CheckCharRefNumber(result) == if IsXmlChar(result) then result else -1
  {
  }

  lemma NumeralOfNone()
    ensures forall base: nat :: Numeral([], base) == 0
  {
  }

  /** One more digit. */
  lemma NumeralNext(ds: Bytes, k: nat, base: nat)
    requires k < |ds|
    ensures Numeral(ds[..k + 1], base) == Numeral(ds[..k], base) * base + DigitValue(ds[k])
  {
    assert ds[..k + 1][..k] == ds[..k];
  }

  lemma DigitsCount(ds: Bytes, hex: bool)
    requires forall i :: 0 <= i < |ds| ==> if hex then IsHex(ds[i]) else IsDecimal(ds[i])
    ensures forall i :: 0 <= i < |ds| ==> DigitValue(ds[i]) >= 0
  {
  }

  /** Adds up the digits and gives up as soon as the number is too large. */
  method ReadCharRefNumber(w: Bytes) returns (result: int)
    requires IsCharRef(w)
    ensures result == CharRefNumber(w)
  {
    hide Numeral;
    result := 0;
    NumeralOfNone();
    var ptr := 2;
    if w[ptr] == ASCII_x {
      ptr := ptr + 1;
      ghost var ds := w[3..|w| - 1];
      DigitsCount(ds, true);
      while w[ptr] != ASCII_SEMI
        invariant 3 <= ptr < |w| && 0 <= result < 0x110000
        invariant result == Numeral(ds[..ptr - 3], 16)
        decreases |w| - ptr
      {
        var c := w[ptr];
        NumeralNext(ds, ptr - 3, 16);
        assert IsHex(w[ptr]) && ds[ptr - 3] == c;
        if 0x30 <= c <= 0x39 {
          result := result * 16 + (c - 0x30);
        } else if 0x41 <= c <= 0x46 {
          result := result * 16 + 10 + (c - 0x41);
        } else if 0x61 <= c <= 0x66 {
          result := result * 16 + 10 + (c - 0x61);
        }
        if result >= 0x110000 {
          NumeralGrows(ds, ptr - 2, 16);
          return -1;
        }
        ptr := ptr + 1;
      }
      assert ds[..ptr - 3] == ds;
    } else {
      ghost var ds := w[2..|w| - 1];
      DigitsCount(ds, false);
      while w[ptr] != ASCII_SEMI
        invariant 2 <= ptr < |w| && 0 <= result < 0x110000
        invariant result == Numeral(ds[..ptr - 2], 10)
        decreases |w| - ptr
      {
        var c := w[ptr];
        NumeralNext(ds, ptr - 2, 10);
        assert IsDecimal(w[ptr]) && ds[ptr - 2] == c;
        result := result * 10;
        result := result + (c - 0x30);
        if result >= 0x110000 {
          NumeralGrows(ds, ptr - 1, 10);
          return -1;
        }
        ptr := ptr + 1;
      }
      assert ds[..ptr - 2] == ds;
    }
    CheckIsXmlChar(result);
    result := CheckCharRefNumber(result);
  }
}
