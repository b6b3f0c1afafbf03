/**
 UTF-8 to UTF-16 and back, in buffers that may be too small for the whole text: a converter stops
 before the first character that does not fit, and is called again with the rest.
 */
module Transcoding {
  import opened Encodings
  import opened Utf8
  import StringPools

  type Unit = u: int | 0 <= u < 0x10000

  // ----- what a text is in both forms -----


  /** Section 2.1 of RFC 2781. */
  function Units(c: Scalar): (r: seq<Unit>)
    ensures 1 <= |r| <= 2
  {
    if c < 0x10000 then [c as Unit]
    else [(0xD800 + (c - 0x10000) / 0x400) as Unit, (0xDC00 + (c - 0x10000) % 0x400) as Unit]
  }

  /** Two units are a high and a low surrogate, with the ten higher and the ten lower bits above U+FFFF. */
  lemma UnitsAre(c: Scalar)
    ensures var u := Units(c);
      if c < 0x10000 then |u| == 1 && u[0] == c && !(0xD800 <= u[0] < 0xE000)
      else
        && |u| == 2 && 0xD800 <= u[0] < 0xDC00 && 0xDC00 <= u[1] < 0xE000
        && c == 0x10000 + (u[0] as int - 0xD800) * 0x400 + (u[1] as int - 0xDC00)
  {
  }

  ghost function Utf8Text(text: seq<Scalar>): Bytes { if text == [] then [] else Encode(text[0]) + Utf8Text(text[1..]) }

  ghost function Utf16Text(text: seq<Scalar>): seq<Unit> {
    if text == [] then [] else Units(text[0]) + Utf16Text(text[1..])
  }

  function Joined(pieces: seq<Bytes>): Bytes { if pieces == [] then [] else pieces[0] + Joined(pieces[1..]) }

  /** Bytes that are well-formed, character by character, are the UTF-8 of a text. */
  lemma {:induction false} WellFormedIsText(pieces: seq<Bytes>) returns (text: seq<Scalar>)
    requires forall i :: 0 <= i < |pieces| ==> (|pieces[i]| == 1 && pieces[i][0] < 0x80) || IsMultibyte(pieces[i])
    ensures |text| == |pieces| && Utf8Text(text) == Joined(pieces)
  {
    if pieces == [] {
      text := [];
    } else {
      var rest := WellFormedIsText(pieces[1..]);
      var c := CharacterOf(pieces[0]);
      text := [c] + rest;
      assert text[1..] == rest;
    }
  }

  lemma CharacterOf(p: Bytes) returns (c: Scalar)
    requires (|p| == 1 && p[0] < 0x80) || IsMultibyte(p)
    ensures Encode(c) == p
  {
    forall i | 0 <= i < |p| { LowBits(p[i]); }
    if |p| > 1 {
      DecodeEncodes(p);
    }
    c := Decode(p);
  }

  // ----- one character -----

  lemma EncodeFits(c: Scalar)
    ensures 1 <= |Encode(c)| <= 4
    ensures |Units(c)| == if |Encode(c)| == 4 then 2 else 1
  {
    EncodeDecodes(c);
  }

  /** How many bytes `utf8_toUtf16` takes: the type of the first one decides. */
  function Length(b: Byte): (n: nat)
    ensures 1 <= n <= 4
  {
    var n := LeadLength(Utf8Type(false, true, b));
    if n == 0 then 1 else n
  }

  lemma LengthIs(c: Scalar)
    ensures Encode(c) != [] && Length(Encode(c)[0]) == |Encode(c)|
  {
    EncodeDecodes(c);
  }

  /** What `utf8_toUtf16` writes for the bytes of one character. */
  function UnitsOf(p: Bytes): (r: seq<Unit>)
    requires 1 <= |p| <= 4
  {
    if |p| < 4 then [Decode(p)] else var n := Decode(p) - 0x10000; [n / 0x400 % 0x400 + 0xD800, n % 0x400 + 0xDC00]
  }

  lemma UnitsOfIs(c: Scalar)
    ensures 1 <= |Encode(c)| <= 4 && UnitsOf(Encode(c)) == Units(c)
  {
    EncodeDecodes(c);
  }

  /** The loop body's writes: `u` goes behind `at'`; everything else stays. */
  method Put<T>(to: array<T>, ghost at: nat, at': nat, u: seq<T>)
    requires at <= at' && at' + |u| <= to.Length
    modifies to
    ensures to[at..at' + |u|] == old(to[at..at']) + u
    ensures forall i :: 0 <= i < at || at' + |u| <= i < to.Length ==> to[i] == old(to[i])
  {
    forall i | 0 <= i < |u| {
      to[at' + i] := u[i];
    }
  }

  /**
   `utf8_toUtf16`: from `from` to the end of `w`, into `to` from `at` up to `lim`.  It stops at the end
   of the input, or before a character for which there is no room.
   */
  method ToUtf16(ghost text: seq<Scalar>, w: Bytes, from: nat, to: array<Unit>, at: nat, lim: nat)
    returns (from': nat, at': nat, ghost k: nat)
    requires from <= |w| && w[from..] == Utf8Text(text)
    requires at <= lim <= to.Length
    modifies to
    ensures k <= |text| && from <= from' <= |w| && w[from'..] == Utf8Text(text[k..])
    ensures at <= at' <= lim && to[at..at'] + Utf16Text(text[k..]) == Utf16Text(text)
    ensures forall i :: 0 <= i < at || at' <= i < to.Length ==> to[i] == old(to[i])
    ensures k < |text| ==> lim < at' + |Units(text[k])|
  {
    hide Encode, Units, UnitsOf, Length, Utf8Text, Utf16Text, Decode;
    from', at', k := from, at, 0;
    ghost var written: seq<Unit> := [];
    while from' != |w| && at' != lim
      invariant k <= |text| && from <= from' <= |w| && w[from'..] == Utf8Text(text[k..])
      invariant at <= at' <= lim && to[at..at'] == written && written + Utf16Text(text[k..]) == Utf16Text(text)
      invariant forall i :: 0 <= i < at || at' <= i < to.Length ==> to[i] == old(to[i])
      decreases |w| - from'
    {
      NextCharacter(text, w, from', k);
      var n := Length(w[from']);
      if n == 4 && at' + 1 == lim {
        return;
      }
      var u := UnitsOf(w[from'..from' + n]);
      assert written + (u + Utf16Text(text[k + 1..])) == (written + u) + Utf16Text(text[k + 1..]);
      Put(to, at, at', u);
      assert to[at..at' + |u|] == written + u;
      written := written + u;
      from', at', k := from' + n, at' + |u|, k + 1;
    }
    if k < |text| {
      LastCharacter(text, k);
    }
  }

  lemma LastCharacter(text: seq<Scalar>, k: nat)
    requires k < |text|
    ensures Utf8Text(text[k..]) != [] && Utf16Text(text[k..]) != []
    ensures 1 <= |Units(text[k])| <= 2 && 1 <= |Encode(text[k])| <= 4
  {
    EncodeFits(text[k]);
  }

  lemma NextCharacter(text: seq<Scalar>, w: Bytes, from: nat, k: nat)
    requires from < |w| && k <= |text| && w[from..] == Utf8Text(text[k..])
    ensures k < |text| && text[k..][1..] == text[k + 1..]
    ensures from + Length(w[from]) <= |w| && w[from..from + Length(w[from])] == Encode(text[k])
    ensures w[from + Length(w[from])..] == Utf8Text(text[k + 1..])
    ensures UnitsOf(w[from..from + Length(w[from])]) == Units(text[k])
    ensures |Units(text[k])| == (if Length(w[from]) == 4 then 2 else 1)
    ensures Utf16Text(text[k..]) == Units(text[k]) + Utf16Text(text[k + 1..])
  {
    assert k < |text|;
    LengthIs(text[k]);
    EncodeFits(text[k]);
    UnitsOfIs(text[k]);
    assert w[from..][0] == w[from];
    var n := Length(w[from]);
    assert w[from..] == Encode(text[k]) + Utf8Text(text[k + 1..]);
    assert w[from..from + n] == w[from..][..n];
    assert w[from + n..] == w[from..][n..];
  }

  // ----- and back -----

  function Lo(u: Unit): Byte { u % 0x100 }

  function Hi(u: Unit): Byte { u / 0x100 }

  predicate IsHighSurrogate(u: Unit) { 0xD8 <= Hi(u) <= 0xDB }

  /** What is written for a unit, and the one behind it if that is the second of a pair. */
  function BytesOf(u: Unit, u2: Unit): (p: Bytes)
    ensures 1 <= |p| <= 4 && (|p| == 4 <==> IsHighSurrogate(u))
  {
    var lo, hi := Lo(u), Hi(u);
    if hi == 0 && lo < 0x80 then [lo]
    else if hi < 8 then [lo / 64 + hi * 4 + 0xC0, lo % 64 + 0x80]
    else if IsHighSurrogate(u) then
      var plane := hi % 4 * 4 + lo / 64 % 4 + 1;
      [plane / 4 + 0xF0, lo / 4 % 16 + plane % 4 * 16 + 0x80, lo % 4 * 16 + Hi(u2) % 4 * 4 + Lo(u2) / 64 + 0x80,
       Lo(u2) % 64 + 0x80]
    else [hi / 16 + 0xE0, hi % 16 * 4 + lo / 64 + 0x80, lo % 64 + 0x80]
  }

  lemma BytesOfOne(c: Scalar)
    requires c < 0x10000
    ensures !IsHighSurrogate(c) && BytesOf(c, 0) == Encode(c)
  {
    OneBits(Hi(c), Lo(c), c);
    hide Hi, Lo;
  }

  lemma OneBits(hi: nat, lo: nat, c: nat)
    requires lo < 256 && c == hi * 256 + lo
    ensures c / 64 == hi * 4 + lo / 64 && c % 64 == lo % 64
    ensures c / 4096 == hi / 16 && c / 64 % 64 == hi % 16 * 4 + lo / 64
  {
    var x, y := lo / 64, lo % 64;
    ByteBits(hi * 4 + x, y, c);
    ByteBits(hi / 16, hi % 16 * 4 + x, c / 64);
    SixTwice(c);
  }

  lemma ByteBits(hi: nat, lo: nat, c: nat)
    requires lo < 64 && c == hi * 64 + lo
    ensures c / 64 == hi && c % 64 == lo
  {
  }

  lemma SixTwice(c: nat)
    ensures c / 4096 == c / 64 / 64
  {
  }

  lemma BytesOfPair(c: Scalar)
    requires c >= 0x10000
    ensures IsHighSurrogate(Units(c)[0]) && BytesOf(Units(c)[0], Units(c)[1]) == Encode(c)
  {
    var u, u2 := Units(c)[0], Units(c)[1];
    var x, y := (c - 0x10000) / 0x400, (c - 0x10000) % 0x400;
    assert 0 <= x < 0x400;
    HalvesOf(x, 0xD8, u);
    HalvesOf(y, 0xDC, u2);
    var plane := x / 64 + 1;
    PairBits(plane, x % 64, y, c);
    PairBytes(u, u2, plane, x % 64, y, c);
  }

  lemma PairBytes(u: Unit, u2: Unit, plane: nat, l: nat, y: nat, c: int)
    requires IsHighSurrogate(u) && 0x10000 <= c < 0x110000 && plane == Hi(u) % 4 * 4 + Lo(u) / 64 % 4 + 1
    requires Lo(u) / 4 % 16 == l / 4 && Lo(u) % 4 == l % 4
    requires Hi(u2) % 4 * 4 + Lo(u2) / 64 == y / 64 && Lo(u2) % 64 == y % 64
    requires c / 262144 == plane / 4 && c / 4096 % 64 == plane % 4 * 16 + l / 4
    requires c / 64 % 64 == l % 4 * 16 + y / 64 && c % 64 == y % 64
    ensures BytesOf(u, u2) == Encode(c)
  {
    hide Hi, Lo;
  }

  lemma HalvesOf(x: nat, base: nat, u: Unit)
    requires x < 0x400 && base <= 0xFC && base % 4 == 0 && u == base * 256 + x
    ensures Hi(u) == base + x / 256 && Lo(u) == x % 256
    ensures Hi(u) % 4 * 4 + Lo(u) / 64 % 4 == x / 64 && Hi(u) % 4 * 4 + Lo(u) / 64 == x / 64
    ensures Lo(u) / 4 % 16 == x % 64 / 4 && Lo(u) % 4 == x % 64 % 4 && Lo(u) % 64 == x % 64
  {
    var h, l := x / 256, x % 256;
    assert u == (base + h) * 256 + l;
    LowHalf(h, l, x);
  }

  lemma LowHalf(h: nat, l: nat, x: nat)
    requires l < 256 && x == h * 256 + l
    ensures l / 64 % 4 == l / 64 && x / 64 == h * 4 + l / 64
    ensures x % 64 == l % 64 && l / 4 % 16 == l % 64 / 4 && l % 4 == l % 64 % 4
  {
    assert l == l / 64 * 64 + l % 64;
    assert x == (h * 4 + l / 64) * 64 + l % 64;
    assert l % 64 == l % 64 / 4 * 4 + l % 64 % 4;
    assert l == (l / 64 * 16 + l % 64 / 4) * 4 + l % 64 % 4;
  }

  lemma PairBits(plane: nat, l: nat, y: nat, c: nat)
    requires l < 64 && y < 1024 && c == plane * 65536 + l * 1024 + y
    ensures c / 262144 == plane / 4 && c / 4096 % 64 == plane % 4 * 16 + l / 4
    ensures c / 64 % 64 == l % 4 * 16 + y / 64 && c % 64 == y % 64
  {
    var m := l * 1024 + y;
    assert m == (l / 4) * 4096 + (l % 4) * 1024 + y;
    assert m / 4096 == l / 4;
    assert c / 4096 == plane * 16 + l / 4;
    assert plane * 16 + l / 4 == (plane / 4) * 64 + (plane % 4 * 16 + l / 4);
    assert y == y / 64 * 64 + y % 64;
    assert c == (plane * 1024 + l * 16 + y / 64) * 64 + y % 64;
    assert c / 64 == plane * 1024 + l * 16 + y / 64;
    assert plane * 1024 + l * 16 + y / 64 == (plane * 16 + l / 4) * 64 + (l % 4 * 16 + y / 64);
  }

  lemma NextUnits(text: seq<Scalar>, u: seq<Unit>, from: nat, k: nat)
    requires from < |u| && k <= |text| && u[from..] == Utf16Text(text[k..])
    ensures k < |text| && (IsHighSurrogate(u[from]) ==> from + 1 < |u|)
    ensures var p := BytesOf(u[from], if from + 1 < |u| then u[from + 1] else 0); p == Encode(text[k])
    ensures from + |Units(text[k])| <= |u| && u[from + |Units(text[k])|..] == Utf16Text(text[k + 1..])
    ensures |Units(text[k])| == if IsHighSurrogate(u[from]) then 2 else 1
    ensures Utf8Text(text[k..]) == Encode(text[k]) + Utf8Text(text[k + 1..])
  {
    assert k < |text|;
    var c := text[k];
    assert text[k..][1..] == text[k + 1..];
    assert u[from..] == Units(c) + Utf16Text(text[k + 1..]);
    assert u[from..][0] == u[from] == Units(c)[0];
    assert u[from + |Units(c)|..] == u[from..][|Units(c)|..];
    if c < 0x10000 {
      BytesOfOne(c);
    } else {
      BytesOfPair(c);
      assert u[from..][1] == u[from + 1];
    }
  }

  /**
   `utf16_toUtf8`: from `from` to the end of `u`, into `to` from `at` up to `lim`.  It stops at the end
   of the input, or before a character for which there is no room.
   */
  method ToUtf8(ghost text: seq<Scalar>, u: seq<Unit>, from: nat, to: array<Byte>, at: nat, lim: nat)
    returns (from': nat, at': nat, ghost k: nat)
    requires from <= |u| && u[from..] == Utf16Text(text)
    requires at <= lim <= to.Length
    modifies to
    ensures k <= |text| && from <= from' <= |u| && u[from'..] == Utf16Text(text[k..])
    ensures at <= at' <= lim && to[at..at'] + Utf8Text(text[k..]) == Utf8Text(text)
    ensures forall i :: 0 <= i < at || at' <= i < to.Length ==> to[i] == old(to[i])
    ensures k < |text| ==> lim < at' + |Encode(text[k])|
  {
    hide Encode, Units, BytesOf, Utf8Text, Utf16Text, IsHighSurrogate;
    from', at', k := from, at, 0;
    ghost var written: Bytes := [];
    while from' != |u|
      invariant k <= |text| && from <= from' <= |u| && u[from'..] == Utf16Text(text[k..])
      invariant at <= at' <= lim && to[at..at'] == written && written + Utf8Text(text[k..]) == Utf8Text(text)
      invariant forall i :: 0 <= i < at || at' <= i < to.Length ==> to[i] == old(to[i])
      decreases |u| - from'
    {
      NextUnits(text, u, from', k);
      var p := BytesOf(u[from'], if from' + 1 < |u| then u[from' + 1] else 0);
      if lim - at' < |p| {
        return;
      }
      assert written + (p + Utf8Text(text[k + 1..])) == (written + p) + Utf8Text(text[k + 1..]);
      Put(to, at, at', p);
      assert to[at..at' + |p|] == written + p;
      written := written + p;
      from' := from' + if IsHighSurrogate(u[from']) then 2 else 1;
      at', k := at' + |p|, k + 1;
    }
    if k < |text| {
      LastCharacter(text, k);
    }
  }

  // ----- round trip -----

  /** The loop of a caller of `utf8_toUtf16`: what does not fit into one buffer goes to the next. */
  method AllToUtf16(ghost text: seq<Scalar>, w: Bytes, rooms: nat -> nat) returns (u: seq<Unit>)
    requires w == Utf8Text(text) && forall i :: rooms(i) >= 2
    ensures u == Utf16Text(text)
  {
    hide Encode, Units, Utf8Text, Utf16Text;
    u := [];
    var from: nat, i: nat := 0, 0;
    ghost var k: nat := 0;
    assert w[0..] == w && text[0..] == text;
    while from != |w|
      invariant from <= |w| && k <= |text| && w[from..] == Utf8Text(text[k..])
      invariant u + Utf16Text(text[k..]) == Utf16Text(text)
      decreases |text| - k
    {
      var buf := new Unit[rooms(i)](_ => 0);
      var from', n, j := ToUtf16(text[k..], w, from, buf, 0, buf.Length);
      ghost var rest := text[k..];
      assert rest[j..] == text[k + j..];
      if j == 0 {
        EmptyOrNot(rest);
      }
      assert u + (buf[0..n] + Utf16Text(rest[j..])) == (u + buf[0..n]) + Utf16Text(rest[j..]);
      u := u + buf[0..n];
      from, i, k := from', i + 1, k + j;
    }
    EmptyOrNot(text[k..]);
  }

  lemma EmptyOrNot(rest: seq<Scalar>)
    ensures Utf8Text(rest) == [] <==> rest == []
    ensures Utf16Text(rest) == [] <==> rest == []
    ensures rest != [] ==> |Units(rest[0])| <= 2 && |Encode(rest[0])| <= 4
  {
    if rest != [] {
      LastCharacter(rest, 0);
      assert rest[0..] == rest;
    }
  }

  /** The loop of a caller of `utf16_toUtf8` */
  method AllToUtf8(ghost text: seq<Scalar>, u: seq<Unit>, rooms: nat -> nat) returns (w: Bytes)
    requires u == Utf16Text(text) && forall i :: rooms(i) >= 4
    ensures w == Utf8Text(text)
  {
    hide Encode, Units, Utf8Text, Utf16Text;
    w := [];
    var from: nat, i: nat := 0, 0;
    ghost var k: nat := 0;
    assert u[0..] == u && text[0..] == text;
    while from != |u|
      invariant from <= |u| && k <= |text| && u[from..] == Utf16Text(text[k..])
      invariant w + Utf8Text(text[k..]) == Utf8Text(text)
      decreases |text| - k
    {
      var buf := new Byte[rooms(i)](_ => 0);
      var from', n, j := ToUtf8(text[k..], u, from, buf, 0, buf.Length);
      ghost var rest := text[k..];
      assert rest[j..] == text[k + j..];
      if j == 0 {
        EmptyOrNot(rest);
      }
      assert w + (buf[0..n] + Utf8Text(rest[j..])) == (w + buf[0..n]) + Utf8Text(rest[j..]);
      w := w + buf[0..n];
      from, i, k := from', i + 1, k + j;
    }
    EmptyOrNot(text[k..]);
  }

  /**
   Text converted to UTF-16 and back is the same text, whatever the sizes of the buffers are, as long as
   each has room for one character.
   */
  method RoundTrip(ghost text: seq<Scalar>, w: Bytes, rooms16: nat -> nat, rooms8: nat -> nat)
    returns (u: seq<Unit>, back: Bytes)
    requires w == Utf8Text(text)
    requires forall i :: rooms16(i) >= 2 && rooms8(i) >= 4
    ensures u == Utf16Text(text) && back == w
  {
    u := AllToUtf16(text, w, rooms16);
    back := AllToUtf8(text, u, rooms8);
  }

  // ----- where a copy of UTF-8 stops -----

  /** A character of the text ends after `m` bytes, or none has begun. */
  ghost predicate IsBoundary(text: seq<Scalar>, m: nat) { exists k :: 0 <= k <= |text| && |Utf8Text(text[..k])| == m }

  lemma AfterOne(text: seq<Scalar>, k: nat)
    requires text != [] && k < |text|
    ensures Utf8Text(text[..k + 1]) == Encode(text[0]) + Utf8Text(text[1..][..k])
  {
    assert text[..k + 1][1..] == text[1..][..k];
  }

  /** Bytes of one character: one below 0x80 is all of it, and the last of several is a trail byte. */
  lemma BytesOfCharacter(c: Scalar)
    ensures var p := Encode(c); 1 <= |p| <= 4 && forall i :: 0 <= i < |p| ==>
      (if |p| == 1 then p[i] < 0x80 else p[i] >= 0x80 && (i > 0 ==> p[i] / 0x40 == 2))
  {
    EncodeDecodes(c);
  }

  lemma {:induction false} AsciiEnds(text: seq<Scalar>, p: nat)
    requires p < |Utf8Text(text)| && Utf8Text(text)[p] < 0x80
    ensures IsBoundary(text, p + 1)
  {
    hide Encode;
    var e := Encode(text[0]);
    BytesOfCharacter(text[0]);
    if p < |e| {
      AfterOne(text, 0);
    } else {
      AsciiEnds(text[1..], p - |e|);
      var k :| 0 <= k <= |text[1..]| && |Utf8Text(text[1..][..k])| == p - |e| + 1;
      AfterOne(text, k);
    }
  }

  lemma {:induction false} LastByte(text: seq<Scalar>, k: nat)
    requires 0 < k <= |text|
    ensures var w, m := Utf8Text(text), |Utf8Text(text[..k])|; 0 < m <= |w| && (w[m - 1] < 0x80 || w[m - 1] / 0x40 == 2)
  {
    hide Encode;
    BytesOfCharacter(text[0]);
    AfterOne(text, k - 1);
    if k > 1 {
      LastByte(text[1..], k - 1);
    }
  }

  /** A boundary behind a byte that is not ASCII has a trail byte before it, and is no place to stop. */
  lemma CutAtBoundary(text: seq<Scalar>, n: nat)
    requires n <= |Utf8Text(text)| && IsBoundary(text, StringPools.CutBack(Utf8Text(text), n))
    ensures var m := StringPools.CutBack(Utf8Text(text), n); m == 0 || Utf8Text(text)[m - 1] < 0x80
  {
    var m := StringPools.CutBack(Utf8Text(text), n);
    var k :| 0 <= k <= |text| && |Utf8Text(text[..k])| == m;
    if m > 0 { LastByte(text, k); }
  }

  /** Before a trail byte of the text there is another byte of the same character, so not an ASCII one. */
  lemma {:induction false} BeforeTrail(text: seq<Scalar>, p: nat)
    requires p < |Utf8Text(text)| && Utf8Text(text)[p] / 0x40 == 2
    ensures p > 0 && Utf8Text(text)[p - 1] >= 0x80
  {
    hide Encode;
    var e := Encode(text[0]);
    BytesOfCharacter(text[0]);
    FirstIsNoTrail(text[0]);
    if p >= |e| {
      BeforeTrail(text[1..], p - |e|);
    }
  }

  lemma FirstIsNoTrail(c: Scalar)
    ensures Encode(c) != [] && Encode(c)[0] / 0x40 != 2
  {
    EncodeDecodes(c);
  }

  /** Going back over trail bytes ends behind a lead byte, unless there are none. */
  lemma {:induction false} CutBackOverTrail(text: seq<Scalar>, n: nat)
    requires 0 < n <= |Utf8Text(text)| && Utf8Text(text)[n - 1] >= 0x80
    ensures var m := StringPools.CutBack(Utf8Text(text), n); m > 0 && Utf8Text(text)[m - 1] >= 0x80
    decreases n
  {
    var w := Utf8Text(text);
    if w[n - 1] / 0x40 == 2 {
      BeforeTrail(text, n - 1);
      CutBackOverTrail(text, n - 1);
    }
  }

  /**
   The conversion of UTF-8 to UTF-8 means not to copy part of a character.  For an output of `room` bytes it
   succeeds exactly if there is no room at all, or room for everything, or the last byte that there is room
   for is ASCII: also a character that would just fit is cut behind its first byte.
   */
  lemma CopyEndsCharacter(text: seq<Scalar>, room: nat)
    ensures var w := Utf8Text(text);
      IsBoundary(text, StringPools.Copied(w, room)) <==> room == 0 || |w| <= room || w[room - 1] < 0x80
  {
    var w := Utf8Text(text);
    if |w| <= room {
      assert text[..|text|] == text;
    } else if room == 0 {
      assert text[..0] == [];
    } else if w[room - 1] < 0x80 {
      AsciiEnds(text, room - 1);
    } else {
      CutBackOverTrail(text, room);
      if IsBoundary(text, StringPools.Copied(w, room)) {
        CutAtBoundary(text, room);
        assert false;
      }
    }
  }

  /** U+00E9 in a buffer of one byte; and a buffer of two bytes, where it would fit, if more text follows. */
  lemma PartIsCopied()
    ensures StringPools.Copied(Utf8Text([0xE9]), 1) == 1 && !IsBoundary([0xE9], 1)
    ensures StringPools.Copied(Utf8Text([0xE9, 0x41]), 2) == 1 && !IsBoundary([0xE9, 0x41], 1)
  {
    var text: seq<Scalar>, more: seq<Scalar> := [0xE9], [0xE9, 0x41];
    assert text[1..] == [] && more[1..] == [0x41] && more[1..][1..] == [];
    assert Utf8Text(text) == [0xC3, 0xA9];
    assert Utf8Text(more) == [0xC3, 0xA9, 0x41];
    CopyEndsCharacter(text, 1);
    CopyEndsCharacter(more, 2);
  }
}
