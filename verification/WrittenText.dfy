/** Text in content: the characters that are written are what is reported, up to line ends. */
module WrittenText {
  import opened Encodings
  import opened Utf8
  import opened Automaton
  import opened Stability
  import opened Errors
  import opened AttributeValues
  import opened Grammar
  import opened Escapes
  import opened Content
  import opened ChunkIndependence
  import Transcoding

  // ----- parts of a run -----

  /**
   The run over `u` and what follows it makes the calls whose atoms are given, and then does what a run from `next`
   does over the rest.
   */
  predicate Reads(env: Env, enc: Encoding, at: Position, u: Bytes, atoms: seq<Atom>, next: Position, rest: Bytes) {
    var r, q := Parse(env, enc, at, u + rest, true), Parse(env, enc, next, rest, true);
    r.end == After(|u|, [], q).end && Atoms(r.calls) == atoms + LaterAtoms(|u|, Atoms(q.calls))
  }

  lemma StepReads(env: Env, enc: Encoding, at: Position, u: Bytes, calls: seq<Call>, next: Position, rest: Bytes)
    requires NextStep(env, enc, at, u + rest, true) == Go(|u|, calls, next)
    ensures Reads(env, enc, at, u, Atoms(calls), next, rest)
  {
    hide NextStep, Parse, Atoms, LaterAtoms;
    RunGoes(env, enc, at, u + rest, true, |u|, calls, next);
    assert (u + rest)[|u|..] == rest;
    AfterAtoms(|u|, calls, Parse(env, enc, next, rest, true));
  }

  lemma ReadsTwice(env: Env, enc: Encoding, at: Position, u: Bytes, a: seq<Atom>, mid: Position, v: Bytes,
                   b: seq<Atom>, next: Position, rest: Bytes)
    requires Reads(env, enc, at, u, a, mid, v + rest) && Reads(env, enc, mid, v, b, next, rest)
    ensures Reads(env, enc, at, u + v, a + LaterAtoms(|u|, b), next, rest)
  {
    hide Parse, Atoms, LaterAtoms;
    var q := Parse(env, enc, next, rest, true);
    assert u + (v + rest) == u + v + rest;
    LaterAtomsAppend(|u|, b, LaterAtoms(|v|, Atoms(q.calls)));
    LaterTwice(|u|, |v|, Atoms(q.calls));
    assert a + (LaterAtoms(|u|, b) + LaterAtoms(|u| + |v|, Atoms(q.calls)))
      == a + LaterAtoms(|u|, b) + LaterAtoms(|u| + |v|, Atoms(q.calls));
  }

  lemma LaterTwice(n: nat, m: nat, atoms: seq<Atom>)
    ensures LaterAtoms(n, LaterAtoms(m, atoms)) == LaterAtoms(n + m, atoms)
  {
  }

  lemma ReadsNothing(env: Env, enc: Encoding, at: Position, rest: Bytes)
    ensures Reads(env, enc, at, [], [], at, rest)
  {
    hide Parse, Atoms;
    assert [] + rest == rest;
    var q := Parse(env, enc, at, rest, true);
    assert LaterAtoms(0, Atoms(q.calls)) == Atoms(q.calls);
    assert [] + Atoms(q.calls) == Atoms(q.calls);
  }

  // ----- what is reported -----

  /**
   The bytes of text with their offsets; section 2.11 of XML 1.0: line ends that are not written as references
   are single line feeds.
   */
  function TextAtoms(ps: seq<Written>): seq<Atom>
    decreases |ps|
  {
    if ps == [] then []
    else if IsCr(ps[0]) && |ps| > 1 && IsLf(ps[1]) then [Datum(0x0A, 0)] + LaterAtoms(2, TextAtoms(ps[2..]))
    else if IsCr(ps[0]) then [Datum(0x0A, 0)] + LaterAtoms(1, TextAtoms(ps[1..]))
    else DataAtoms(Encode(ps[0].c), 0) + LaterAtoms(|PrintOne(ps[0])|, TextAtoms(ps[1..]))
  }

  predicate TextWritten(p: Written) {
    IsXmlChar(p.c) && (p.Literal? ==> p.c != 0x26 && p.c != 0x3C) && (p.Named? ==> HasNamed(p.c))
  }

  /** Nowhere `]]>`. */
  predicate NoCdataEnd(x: Bytes) {
    forall i :: 0 <= i < |x| - 2 ==> !(x[i] == 0x5D && x[i + 1] == 0x5D && x[i + 2] == 0x3E)
  }

  /** Section 2.4 of XML 1.0: no `<`, no `&` but in references, no `]]>`. */
  predicate TextOk(ps: seq<Written>) {
    (forall i :: 0 <= i < |ps| ==> TextWritten(ps[i])) && NoCdataEnd(Print(ps))
  }

  // ----- runs of data -----

  /** What ends a run of character data. */
  predicate EndsData(b: Byte) { b == 0x3C || b == 0x26 || b == 0x0D || b == 0x0A }

  predicate IsPlain(x: Bytes) { Chars(x) && NoCdataEnd(x) && forall i :: 0 <= i < |x| ==> !EndsData(x[i]) }

  lemma DataStepIs(enc: Encoding, ns: bool, w: Bytes, p: nat, k: nat)
    requires p < k < |w| && IsPlain(w[p..k]) && EndsData(w[k]) && IsUtf8(enc, ns)
    ensures DataStep(enc, w, p) == More(Size(w[p])) && p + Size(w[p]) <= k && IsPlain(w[p + Size(w[p])..k])
  {
    hide IsUtf8, DataStep, IsChar;
    var x, n := w[p..k], Size(w[p]);
    assert x[0] == w[p];
    PieceIn(w, p, n, k);
    NoEndBehind(x, n);
    assert !EndsData(x[0]);
    assert forall i :: 0 <= i < |x[n..]| ==> x[n..][i] == x[n + i];
    if w[p] == 0x5D && p + 2 < k { assert x[1] == w[p + 1] && x[2] == w[p + 2]; }
    PlainStep(enc, ns, w, p);
  }

  lemma PlainStep(enc: Encoding, ns: bool, w: Bytes, p: nat)
    requires p + 1 < |w| && p + Size(w[p]) <= |w| && IsChar(w[p..p + Size(w[p])]) && !EndsData(w[p]) && IsUtf8(enc, ns)
    requires w[p] == 0x5D && w[p + 1] == 0x5D ==> p + 2 < |w| && w[p + 2] != 0x3E
    ensures DataStep(enc, w, p) == More(Size(w[p]))
  {
    hide IsUtf8, IsMultibyte, Decode;
    TypeAt(enc, ns, w[p]);
    var c := w[p..p + Size(w[p])];
    assert c[0] == w[p];
    if Announced(w[p]) > 0 { CharIsValid(enc, ns, c); } else { assert c == [w[p]]; }
  }

  lemma CharIsValid(enc: Encoding, ns: bool, c: Bytes)
    requires |c| > 1 && Announced(c[0]) == |c| && IsUtf8(enc, ns)
    ensures enc.isInvalid(c) <==> !IsChar(c)
  {
    hide TypeOk, IsChar;
  }

  lemma NoEndBehind(x: Bytes, n: nat)
    requires NoCdataEnd(x) && n <= |x|
    ensures NoCdataEnd(x[n..])
  {
    forall i | 0 <= i < |x[n..]| - 2
      ensures !(x[n..][i] == 0x5D && x[n..][i + 1] == 0x5D && x[n..][i + 2] == 0x3E)
    {
      assert x[n..][i] == x[n + i] && x[n..][i + 1] == x[n + i + 1] && x[n..][i + 2] == x[n + i + 2];
    }
  }

  lemma {:induction false} DataRunIs(enc: Encoding, ns: bool, w: Bytes, p: nat, k: nat)
    requires p <= k < |w| && IsPlain(w[p..k]) && EndsData(w[k]) && External(enc) && IsUtf8(enc, ns)
    ensures DataRun(enc, w, p) == Scan(TokDataChars, k)
    decreases k - p
  {
    hide IsUtf8, DataStep;
    if p < k {
      DataStepIs(enc, ns, w, p, k);
      DataRunIs(enc, ns, w, p + Size(w[p]), k);
    } else {
      EndStepIs(enc, ns, w, p);
    }
  }

  lemma EndStepIs(enc: Encoding, ns: bool, w: Bytes, p: nat)
    requires p < |w| && EndsData(w[p]) && External(enc) && IsUtf8(enc, ns)
    ensures DataStep(enc, w, p) == Done(Scan(TokDataChars, p))
  {
    hide IsUtf8;
    TypeAt(enc, ns, w[p]);
  }

  /** Character data up to the first byte that ends it is one token. */
  lemma DataIsToken(enc: Encoding, ns: bool, w: Bytes, k: nat)
    requires 0 < k < |w| && IsPlain(w[..k]) && EndsData(w[k]) && External(enc) && IsUtf8(enc, ns)
    ensures ContentTok(enc, w) == Scan(TokDataChars, k)
  {
    hide IsUtf8, DataStep, ContentTok;
    assert w[0..k] == w[..k];
    DataRunIs(enc, ns, w, 0, k);
    DataStepIs(enc, ns, w, 0, k);
    ContentTokInData(enc, w);
  }

  lemma LineEndIsToken(enc: Encoding, ns: bool, w: Bytes)
    requires |w| > 1 && (w[0] == 0x0A || w[0] == 0x0D) && External(enc) && IsUtf8(enc, ns)
    ensures ContentTok(enc, w) == Scan(TokDataNewline, if w[0] == 0x0D && w[1] == 0x0A then 2 else 1)
  {
    hide IsUtf8;
    TypeAt(enc, ns, w[0]);
    TypeAt(enc, ns, w[1]);
  }

  // ----- pieces of text -----

  lemma {:induction false} PrintAppend(a: seq<Written>, b: seq<Written>)
    ensures Print(a + b) == Print(a) + Print(b)
  {
    hide PrintOne;
    if a == [] {
      assert a + b == b;
    } else {
      assert (a + b)[1..] == a[1..] + b;
      PrintAppend(a[1..], b);
      assert PrintOne(a[0]) + (Print(a[1..]) + Print(b)) == PrintOne(a[0]) + Print(a[1..]) + Print(b);
    }
  }

  /** A character that is part of a run of data. */
  predicate InRun(p: Written) { p.Literal? && !IsCr(p) && !IsLf(p) }

  /** What a character is written with. */
  lemma FirstByte(p: Written)
    requires TextWritten(p)
    ensures var x := PrintOne(p);
      && x != [] && (IsLf(p) <==> x[0] == 0x0A) && (IsCr(p) <==> x[0] == 0x0D) && (EndsData(x[0]) <==> !InRun(p))
      && (InRun(p) ==> IsChar(x) && Size(x[0]) == |x| && forall i :: 0 <= i < |x| ==> !EndsData(x[i]))
      && (IsCr(p) || IsLf(p) ==> |x| == 1)
  {
    hide IsXmlChar, Decimal, IsChar;
    if p.Literal? { EncodeIsChar(p.c); }
  }

  function RunLength(ps: seq<Written>): (k: nat)
    ensures k <= |ps| && (forall i :: 0 <= i < k ==> InRun(ps[i])) && (k < |ps| ==> !InRun(ps[k]))
  {
    if ps == [] || !InRun(ps[0]) then 0 else 1 + RunLength(ps[1..])
  }

  /** A run of characters is plain data, reported as it is. */
  lemma {:induction false} RunIs(ps: seq<Written>, k: nat)
    requires k <= |ps| && forall i :: 0 <= i < |ps| ==> TextWritten(ps[i])
    requires forall i :: 0 <= i < k ==> InRun(ps[i])
    ensures var x := Print(ps[..k]);
      && Chars(x) && (forall i :: 0 <= i < |x| ==> !EndsData(x[i])) && (k > 0 ==> x != [])
      && Print(ps) == x + Print(ps[k..])
      && TextAtoms(ps) == DataAtoms(x, 0) + LaterAtoms(|x|, TextAtoms(ps[k..]))
    decreases k
  {
    hide PrintOne, TextWritten, Encode, IsChar;
    var x := Print(ps[..k]);
    if k == 0 {
      assert ps[0..] == ps && LaterAtoms(0, TextAtoms(ps)) == TextAtoms(ps);
      assert DataAtoms([], 0) + TextAtoms(ps) == TextAtoms(ps);
    } else {
      var e, y := PrintOne(ps[0]), Print(ps[1..][..k - 1]);
      RunIs(ps[1..], k - 1);
      FirstByte(ps[0]);
      assert ps[..k][0] == ps[0] && ps[..k][1..] == ps[1..][..k - 1] && ps[1..][k - 1..] == ps[k..];
      CharsJoin(e, y);
      LiteralPrint(ps[0]);
      RunAtoms(e, y, TextAtoms(ps[k..]));
      assert e + (y + Print(ps[k..])) == e + y + Print(ps[k..]);
    }
  }

  lemma LiteralPrint(p: Written)
    requires p.Literal?
    ensures PrintOne(p) == Encode(p.c)
  {
  }

  lemma RunAtoms(e: Bytes, y: Bytes, behind: seq<Atom>)
    ensures DataAtoms(e, 0) + LaterAtoms(|e|, DataAtoms(y, 0) + LaterAtoms(|y|, behind))
      == DataAtoms(e + y, 0) + LaterAtoms(|e + y|, behind)
  {
    LaterAtomsAppend(|e|, DataAtoms(y, 0), LaterAtoms(|y|, behind));
    LaterTwice(|e|, |y|, behind);
    DataAtomsJoin(e, y);
  }

  // ----- steps -----

  lemma RunStep(env: Env, enc: Encoding, ns: bool, stack: seq<Bytes>, x: Bytes, v: Bytes)
    requires x != [] && IsPlain(x) && v != [] && EndsData(v[0]) && External(enc) && IsUtf8(enc, ns)
    ensures var at := Position(false, stack); Reads(env, enc, at, x, DataAtoms(x, 0), at, v)
  {
    hide IsUtf8, ContentTok, IsPlain, Reads;
    var w, at := x + v, Position(false, stack);
    assert w[..|x|] == x && w[|x|] == v[0];
    DataIsToken(enc, ns, w, |x|);
    StepReads(env, enc, at, x, Now(CharacterData(x)), at, v);
    AtomsOfData(x, 0);
  }

  lemma LineStep(env: Env, enc: Encoding, ns: bool, stack: seq<Bytes>, x: Bytes, v: Bytes)
    requires x == [0x0D, 0x0A] || (v != [] && (x == [0x0A] || (x == [0x0D] && v[0] != 0x0A)))
    requires External(enc) && IsUtf8(enc, ns)
    ensures var at := Position(false, stack); Reads(env, enc, at, x, [Datum(0x0A, 0)], at, v)
  {
    hide IsUtf8, ContentTok, Reads;
    var w, at := x + v, Position(false, stack);
    assert w[0] == x[0] && w[1] == if |x| > 1 then x[1] else v[0];
    LineEndIsToken(enc, ns, w);
    StepReads(env, enc, at, x, Now(CharacterData(NEWLINE)), at, v);
    AtomsOfData(NEWLINE, 0);
    assert DataAtoms(NEWLINE, 0) == [Datum(0x0A, 0)];
  }

  lemma RefStep(env: Env, enc: Encoding, ns: bool, stack: seq<Bytes>, p: Written, v: Bytes)
    requires TextWritten(p) && !p.Literal? && IsUtf8(enc, ns)
    ensures var at, x := Position(false, stack), PrintOne(p);
      Reads(env, enc, at, x, DataAtoms(Encode(p.c), 0), at, v)
  {
    hide IsUtf8, ContentTok, Reads, NamedRef, NumericRef, IsEntityRef, IsCharRefText, PredefinedEntity, CharRefNumber,
         Encode, IsXmlChar;
    var x, at := PrintOne(p), Position(false, stack);
    var w, n := x + v, |x|;
    assert w[..n] == x;
    RefHasSize(enc, ns, p);
    assert w[1..n - 1] == x[1..n - 1];
    RefIsToken(enc, ns, w, n);
    AtomsOfData(Encode(p.c), 0);
    AsciiEncode(p.c);
    StepReads(env, enc, at, x, Now(CharacterData(Encode(p.c))), at, v);
  }

  lemma RefHasSize(enc: Encoding, ns: bool, p: Written)
    requires TextWritten(p) && !p.Literal?
    ensures var x := PrintOne(p);
      && |x| > 2 && IsRef(enc, ns, x) && (IsEntityRef(enc, ns, x) <==> p.Named?)
      && if p.Named? then p.c != 0 && p.c < 0x80 && PredefinedEntity(x[1..|x| - 1]) == p.c else CharRefNumber(x) == p.c
  {
    hide PredefinedEntity, CharRefNumber, NcName;
    if p.Named? {
      NamedIs(enc, ns, p.c);
    } else {
      NumericIs(p.c, p.radix);
      NoNameHasHash(enc, ns, NumericRef(p.c, p.radix));
    }
  }

  /** How many characters the first token takes in. */
  function TokenLength(ps: seq<Written>): (n: nat)
    requires ps != []
    ensures 0 < n <= |ps|
  {
    if IsCr(ps[0]) && |ps| > 1 && IsLf(ps[1]) then 2 else if InRun(ps[0]) then RunLength(ps) else 1
  }

  /** What they are reported as. */
  function FirstAtoms(ps: seq<Written>): seq<Atom>
    requires ps != []
  {
    if IsCr(ps[0]) then [Datum(0x0A, 0)]
    else if InRun(ps[0]) then DataAtoms(Print(ps[..TokenLength(ps)]), 0)
    else DataAtoms(Encode(ps[0].c), 0)
  }

  lemma FirstPrint(ps: seq<Written>)
    requires ps != [] && !InRun(ps[0])
    ensures Print(ps[..TokenLength(ps)]) == if TokenLength(ps) == 2 then [0x0D, 0x0A] else PrintOne(ps[0])
  {
    hide PrintOne;
    var n := TokenLength(ps);
    assert ps[..n][1..] == ps[1..n] && Print([]) == [];
    if n == 2 {
      assert ps[..2] == [ps[0], ps[1]] && [ps[0], ps[1]][1..] == [ps[1]] && [ps[1]][1..] == [];
      LiteralPrint(ps[0]);
      LiteralPrint(ps[1]);
    } else {
      assert ps[..1] == [ps[0]] && [ps[0]][1..] == [];
    }
  }

  lemma FirstIs(ps: seq<Written>)
    requires ps != [] && forall i :: 0 <= i < |ps| ==> TextWritten(ps[i])
    ensures var n := TokenLength(ps); var u := Print(ps[..n]);
      TextAtoms(ps) == FirstAtoms(ps) + LaterAtoms(|u|, TextAtoms(ps[n..]))
  {
    hide PrintOne, TextWritten, Encode, DataAtoms;
    if InRun(ps[0]) {
      RunIs(ps, RunLength(ps));
    } else {
      FirstPrint(ps);
      FirstByte(ps[0]);
    }
  }

  /** The first token of text. */
  lemma FirstText(env: Env, enc: Encoding, ns: bool, stack: seq<Bytes>, ps: seq<Written>, rest: Bytes)
    requires ps != [] && TextOk(ps) && rest != [] && rest[0] == 0x3C && External(enc) && IsUtf8(enc, ns)
    ensures var n, at := TokenLength(ps), Position(false, stack);
      Reads(env, enc, at, Print(ps[..n]), FirstAtoms(ps), at, Print(ps[n..]) + rest)
  {
    hide IsUtf8, Reads, PrintOne, TextWritten, Encode, DataAtoms, Chars;
    var n := TokenLength(ps);
    var v := Print(ps[n..]) + rest;
    FirstByte(ps[0]);
    if n < |ps| {
      FirstByte(ps[n]);
      assert v[0] == PrintOne(ps[n])[0];
    } else {
      assert v == rest;
    }
    if InRun(ps[0]) {
      RunIs(ps, n);
      var x := Print(ps[..n]);
      NoEndBefore(Print(ps), |x|);
      assert Print(ps)[..|x|] == x;
      RunStep(env, enc, ns, stack, x, v);
    } else {
      FirstPrint(ps);
      if IsCr(ps[0]) || IsLf(ps[0]) {
        LiteralPrint(ps[0]);
        AsciiEncode(0x0D);
        AsciiEncode(0x0A);
        assert DataAtoms([0x0A], 0) == [Datum(0x0A, 0)] by { LineFeedAtom(); }
        LineStep(env, enc, ns, stack, Print(ps[..n]), v);
      } else {
        RefStep(env, enc, ns, stack, ps[0], v);
      }
    }
  }

  lemma LineFeedAtom()
    ensures DataAtoms([0x0A], 0) == [Datum(0x0A, 0)]
  {
  }

  lemma NoEndBefore(x: Bytes, n: nat)
    requires NoCdataEnd(x) && n <= |x|
    ensures NoCdataEnd(x[..n])
  {
  }

  /** Text is reported as the characters that are written. */
  lemma {:induction false} TextReads(env: Env, enc: Encoding, ns: bool, stack: seq<Bytes>, ps: seq<Written>,
                                     rest: Bytes)
    requires TextOk(ps) && rest != [] && rest[0] == 0x3C && External(enc) && IsUtf8(enc, ns)
    ensures var at := Position(false, stack); Reads(env, enc, at, Print(ps), TextAtoms(ps), at, rest)
    decreases |ps|
  {
    hide IsUtf8, Reads, PrintOne, TextWritten, TextAtoms, FirstAtoms, TokenLength;
    var at := Position(false, stack);
    if ps == [] {
      NoText();
      ReadsNothing(env, enc, at, rest);
    } else {
      var n := TokenLength(ps);
      var u, v := Print(ps[..n]), Print(ps[n..]);
      assert ps == ps[..n] + ps[n..];
      PrintAppend(ps[..n], ps[n..]);
      NoEndBehind(Print(ps), |u|);
      assert Print(ps)[|u|..] == v;
      TextReads(env, enc, ns, stack, ps[n..], rest);
      FirstText(env, enc, ns, stack, ps, rest);
      FirstIs(ps);
      ReadsTwice(env, enc, at, u, FirstAtoms(ps), at, v, TextAtoms(ps[n..]), at, rest);
    }
  }

  lemma NoText()
    ensures Print([]) == [] && TextAtoms([]) == []
  {
  }

  // ----- escaped text -----

  /** The bytes of character data. */
  function BytesOf(atoms: seq<Atom>): Bytes {
    if atoms == [] then [] else (if atoms[0].Datum? then [atoms[0].b] else []) + BytesOf(atoms[1..])
  }

  lemma {:induction false} BytesJoin(n: nat, x: Bytes, at: nat, atoms: seq<Atom>)
    ensures BytesOf(DataAtoms(x, at) + LaterAtoms(n, atoms)) == x + BytesOf(atoms)
    decreases |x| + |atoms|
  {
    if x != [] {
      assert (DataAtoms(x, at) + LaterAtoms(n, atoms))[1..] == DataAtoms(x[1..], at + 1) + LaterAtoms(n, atoms);
      BytesJoin(n, x[1..], at + 1, atoms);
    } else if atoms != [] {
      assert DataAtoms([], at) + LaterAtoms(n, atoms) == LaterAtoms(n, atoms);
      assert LaterAtoms(n, atoms)[1..] == LaterAtoms(n, atoms[1..]);
      BytesJoin(n, [], at, atoms[1..]);
      assert DataAtoms([], at) + LaterAtoms(n, atoms[1..]) == LaterAtoms(n, atoms[1..]);
    }
  }

  lemma {:induction false} EscapedText(v: seq<Scalar>)
    requires AllXml(v)
    ensures (forall i :: 0 <= i < |v| ==> TextWritten(Escaped(v)[i])) && 0x3E !in Escape(v)
    ensures BytesOf(TextAtoms(Escaped(v))) == Transcoding.Utf8Text(v)
    decreases |v|
  {
    hide IsXmlChar, Encode, PrintOne, DataAtoms;
    if v != [] {
      assert Escaped(v)[1..] == Escaped(v[1..]) && IsXmlChar(v[0]);
      EscapedText(v[1..]);
      forall i | 0 <= i < |v|
        ensures TextWritten(Escaped(v)[i])
      {
        assert IsXmlChar(v[i]);
      }
      NoGt(v[0]);
      BytesJoin(|PrintOne(Escaped(v)[0])|, Encode(v[0]), 0, TextAtoms(Escaped(v[1..])));
    }
  }

  lemma NoGt(c: Scalar)
    requires IsXmlChar(c)
    ensures 0x3E !in PrintOne(EscapeChar(c))
  {
    hide IsChar, IsXmlChar, Decimal;
    DecimalIs(c);
    EncodeIsChar(c);
  }

  /** Every text survives in content if it is escaped: exactly its bytes are reported. */
  lemma EscapeIsText(env: Env, enc: Encoding, ns: bool, stack: seq<Bytes>, v: seq<Scalar>, rest: Bytes)
    requires AllXml(v) && rest != [] && rest[0] == 0x3C && External(enc) && IsUtf8(enc, ns)
    ensures var at := Position(false, stack);
      && Reads(env, enc, at, Escape(v), TextAtoms(Escaped(v)), at, rest)
      && BytesOf(TextAtoms(Escaped(v))) == Transcoding.Utf8Text(v)
  {
    hide IsUtf8, Reads, TextWritten, TextAtoms;
    EscapedText(v);
    TextReads(env, enc, ns, stack, Escaped(v), rest);
  }
}
