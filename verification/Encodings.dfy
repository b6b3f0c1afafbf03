/**
 Bytes, byte types and encodings of the tokenizer (one byte per minimal character).

 An encoding is a record of tables, as in the C structure: the type of every byte, and the
 tests on multibyte sequences.  Every scanner takes the encoding as a parameter, so what is
 proved about the scanners holds for every table.
 */
module Encodings {
  type Byte = b: int | 0 <= b < 0x100
  type Bytes = seq<Byte>

  datatype ByteType =
    | BtNonXml | BtMalform | BtLt | BtAmp | BtRsqb
    | BtLead2 | BtLead3 | BtLead4 | BtTrail
    | BtCr | BtLf | BtGt | BtQuot | BtApos | BtEquals | BtQuest | BtExcl | BtSol | BtSemi
    | BtNum | BtLsqb | BtS | BtNmstrt | BtColon | BtHex | BtDigit | BtName | BtMinus
    | BtOther | BtPercnt | BtLpar | BtRpar | BtAst | BtPlus | BtComma | BtVerbar

  /** The tables the scanners consult; the tests get all the bytes of one character. */
  datatype Encoding = Encoding(
    byteType: Byte -> ByteType,
    isName: Bytes -> bool,
    isNmstrt: Bytes -> bool,
    isInvalid: Bytes -> bool)

  const ASCII_LF: Byte := 0x0A
  const ASCII_SPACE: Byte := 0x20
  const ASCII_QUOT: Byte := 0x22
  const ASCII_AMP: Byte := 0x26
  const ASCII_APOS: Byte := 0x27
  const ASCII_MINUS: Byte := 0x2D
  const ASCII_SEMI: Byte := 0x3B
  const ASCII_LT: Byte := 0x3C
  const ASCII_GT: Byte := 0x3E
  const ASCII_RSQB: Byte := 0x5D
  const ASCII_x: Byte := 0x78

  /** How many bytes a lead byte announces; 0 for every other byte. */
  function LeadLength(t: ByteType): nat {
    match t
    case BtLead2 => 2
    case BtLead3 => 3
    case BtLead4 => 4
    case _ => 0
  }

  predicate IsSpaceType(t: ByteType) { t == BtS || t == BtCr || t == BtLf }

  predicate IsNmstrtType(t: ByteType) { t == BtNmstrt || t == BtHex }

  predicate IsNameType(t: ByteType) {
    t == BtNmstrt || t == BtHex || t == BtDigit || t == BtName || t == BtMinus
  }

  /** Bytes that can never stand in a document: not XML, malformed, or a stray trail byte. */
  predicate IsNonCharType(t: ByteType) { t == BtNonXml || t == BtMalform || t == BtTrail }
}
