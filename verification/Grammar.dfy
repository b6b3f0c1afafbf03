/**
 The tokens of content as byte strings.

 The productions are written on the bytes of UTF-8, with the names of XML 1.0; a token ends where one of them
 does, and every byte string that is one of them is the token.
 */
module Grammar {
  import opened Encodings
  import opened Utf8
  import opened Automaton
  import opened Scanners
  import opened TagAttributes

  // ----- characters -----

  predicate IsBlank(b: Byte) { b == 0x20 || b == 0x09 || b == 0x0D || b == 0x0A }

  predicate IsDigit(b: Byte) { 0x30 <= b <= 0x39 }

  predicate IsHexLetter(b: Byte) { 0x41 <= b <= 0x46 || 0x61 <= b <= 0x66 }

  predicate IsLetter(b: Byte) { 0x41 <= b <= 0x5A || 0x61 <= b <= 0x7A }

  /** How many bytes a character has that begins with a lead byte; 0 for other bytes. */
  function Announced(b: Byte): nat {
    if 0xC0 <= b <= 0xDF then 2 else if 0xE0 <= b <= 0xEF then 3 else if 0xF0 <= b <= 0xF4 then 4 else 0
  }

  function Size(b: Byte): (n: nat)
    ensures n > 0
  {
    if Announced(b) == 0 then 1 else Announced(b)
  }

  /** A character of XML 1.0, as bytes. */
  predicate IsChar(c: Bytes) {
    || (|c| == 1 && (c[0] == 0x09 || c[0] == 0x0A || c[0] == 0x0D || 0x20 <= c[0] < 0x80))
    || (IsMultibyte(c) && Decode(c) != 0xFFFE && Decode(c) != 0xFFFF)
  }

  predicate Chars(x: Bytes)
    decreases |x|
  {
    x == [] || (Size(x[0]) <= |x| && IsChar(x[..Size(x[0])]) && Chars(x[Size(x[0])..]))
  }

  predicate NameStartChar(enc: Encoding, ns: bool, c: Bytes) {
    || (|c| == 1 && (IsLetter(c[0]) || c[0] == 0x5F || (!ns && c[0] == 0x3A)))
    || (|c| > 1 && Announced(c[0]) == |c| && enc.isNmstrt(c))
  }

  predicate NameChar(enc: Encoding, ns: bool, c: Bytes) {
    || (|c| == 1 && (IsLetter(c[0]) || IsDigit(c[0]) || c[0] == 0x5F || c[0] == 0x2D || c[0] == 0x2E))
    || (|c| == 1 && !ns && c[0] == 0x3A)
    || (|c| > 1 && Announced(c[0]) == |c| && enc.isName(c))
  }

  predicate NameChars(enc: Encoding, ns: bool, x: Bytes)
    decreases |x|
  {
    x == [] || (Size(x[0]) <= |x| && NameChar(enc, ns, x[..Size(x[0])]) && NameChars(enc, ns, x[Size(x[0])..]))
  }

  /** With namespaces a name without a colon. */
  predicate NcName(enc: Encoding, ns: bool, x: Bytes) {
    && x != [] && Size(x[0]) <= |x|
    && NameStartChar(enc, ns, x[..Size(x[0])]) && NameChars(enc, ns, x[Size(x[0])..])
  }

  /** With namespaces a name that may have a prefix. */
  predicate QName(enc: Encoding, ns: bool, x: Bytes) {
    || NcName(enc, ns, x)
    || (ns && exists k :: 0 < k < |x| - 1 && x[k] == 0x3A && NcName(enc, ns, x[..k]) && NcName(enc, ns, x[k + 1..]))
  }

  predicate Blanks(s: Bytes) { forall i :: 0 <= i < |s| ==> IsBlank(s[i]) }

  // ----- the byte types -----

  /** What the type of a byte says. */
  predicate TypeOk(b: Byte, t: ByteType, ns: bool) {
    && LeadLength(t) == Announced(b)
    && (IsSpaceType(t) <==> IsBlank(b)) && (t == BtLf <==> b == 0x0A) && (t == BtCr ==> b == 0x0D)
    && (IsNmstrtType(t) <==> IsLetter(b) || b == 0x5F || (!ns && b == 0x3A))
    && (IsNameType(t) <==> IsLetter(b) || IsDigit(b) || b == 0x5F || b == 0x2D || b == 0x2E || (!ns && b == 0x3A))
    && (IsNonCharType(t) <==> Announced(b) == 0 && !IsChar([b]))
    && (t == BtColon <==> ns && b == 0x3A)
    && (t == BtDigit <==> IsDigit(b)) && (t == BtHex <==> IsHexLetter(b))
    && (t == BtLt <==> b == 0x3C) && (t == BtGt <==> b == 0x3E) && (t == BtAmp <==> b == 0x26)
    && (t == BtQuot <==> b == 0x22) && (t == BtApos <==> b == 0x27) && (t == BtEquals <==> b == 0x3D)
    && (t == BtQuest <==> b == 0x3F) && (t == BtExcl <==> b == 0x21) && (t == BtSol <==> b == 0x2F)
    && (t == BtSemi <==> b == 0x3B) && (t == BtNum <==> b == 0x23) && (t == BtMinus <==> b == 0x2D)
    && (t == BtLsqb <==> b == 0x5B) && (t == BtRsqb <==> b == 0x5D)
  }

  /** The tables of the encoding are those of UTF-8. */
  ghost predicate IsUtf8(enc: Encoding, ns: bool) {
    && (forall b: Byte :: TypeOk(b, enc.byteType(b), ns))
    && (forall c: Bytes :: |c| > 1 && Announced(c[0]) == |c| ==> (enc.isInvalid(c) <==> !IsChar(c)))
  }

  lemma Utf8IsUtf8(ns: bool, internal: bool, isName: Bytes -> bool, isNmstrt: Bytes -> bool)
    ensures IsUtf8(Utf8Encoding(ns, internal, isName, isNmstrt), ns)
  {
    hide TypeOk, IsInvalid, IsChar;
    forall b: Byte
      ensures TypeOk(b, Utf8Type(ns, internal, b), ns)
    {
      TypeIs(ns, internal, b);
    }
    forall c: Bytes | |c| > 1 && Announced(c[0]) == |c|
      ensures IsInvalid(c) <==> !IsChar(c)
    {
      InvalidIsNoChar(ns, internal, c);
    }
  }

  lemma TypeIs(ns: bool, internal: bool, b: Byte)
    ensures TypeOk(b, Utf8Type(ns, internal, b), ns)
  {
    if b >= 0x80 { assert !IsMultibyte([b]); }
  }

  lemma InvalidIsNoChar(ns: bool, internal: bool, c: Bytes)
    requires |c| > 1 && Announced(c[0]) == |c|
    ensures IsInvalid(c) <==> !IsChar(c)
  {
    hide IsInvalid, IsMultibyte, Decode;
    InvalidIsNotUtf8(ns, internal, c);
  }

  lemma TypeAt(enc: Encoding, ns: bool, b: Byte)
    requires IsUtf8(enc, ns)
    ensures TypeOk(b, enc.byteType(b), ns)
  {
    hide TypeOk;
  }

  // ----- characters and the classes of the scanner -----

  predicate Broken(c: Class) { c.Stop? && (c.r.tok.Open() || c.r.tok == TokInvalid) }

  lemma NameClassIs(enc: Encoding, ns: bool, w: Bytes, p: nat)
    requires p < |w|
    requires IsUtf8(enc, ns)
    ensures var n, c := Size(w[p]), NameClass(enc, w, p);
      if p + n <= |w| && NameChar(enc, ns, w[p..p + n]) then c == In(n)
      else if Announced(w[p]) == 0 then c == Out else Broken(c)
  {
    hide IsUtf8, IsMultibyte, Decode;
    TypeAt(enc, ns, w[p]);
    var n := Size(w[p]);
    if p + n <= |w| {
      var c := w[p..p + n];
      assert c[0] == w[p];
      if n == 1 { assert c == [w[p]]; }
    }
  }

  lemma NmstrtClassIs(enc: Encoding, ns: bool, w: Bytes, p: nat)
    requires p < |w|
    requires IsUtf8(enc, ns)
    ensures var n, c := Size(w[p]), NmstrtClass(enc, w, p);
      if p + n <= |w| && NameStartChar(enc, ns, w[p..p + n]) then c == In(n)
      else if Announced(w[p]) == 0 then c == Out else Broken(c)
  {
    hide IsUtf8, IsMultibyte, Decode;
    TypeAt(enc, ns, w[p]);
    var n := Size(w[p]);
    if p + n <= |w| {
      var c := w[p..p + n];
      assert c[0] == w[p];
      if n == 1 { assert c == [w[p]]; }
    }
  }

  lemma CharClassIs(enc: Encoding, ns: bool, w: Bytes, p: nat)
    requires p < |w|
    requires IsUtf8(enc, ns)
    ensures var n, c := Size(w[p]), CharClass(enc, w, p);
      if p + n <= |w| && IsChar(w[p..p + n]) then c == (if n == 1 then Out else In(n)) else Broken(c)
  {
    TypeAt(enc, ns, w[p]);
    var n := Size(w[p]);
    if p + n <= |w| {
      var c := w[p..p + n];
      assert c[0] == w[p];
      if n == 1 { assert c == [w[p]]; }
    }
    hide IsMultibyte, Decode;
  }

  // ----- scans -----

  /** The scan comes from state `q` at `p` to state `r` at `k`. */
  predicate Comes(enc: Encoding, w: Bytes, p: nat, q: State, k: nat, r: State) {
    p <= |w| && k <= |w| && At(q, p) && At(r, k) && ScanFrom(enc, w, p, q) == ScanFrom(enc, w, k, r)
  }

  lemma ComesTwice(enc: Encoding, w: Bytes, p: nat, q: State, k: nat, r: State, l: nat, t: State)
    requires Comes(enc, w, p, q, k, r) && Comes(enc, w, k, r, l, t)
    ensures Comes(enc, w, p, q, l, t)
  {
    hide ScanFrom;
  }

  predicate Complete(r: Scan) { !r.tok.Open() && r.tok != TokInvalid }

  /** The scan from here ends with a token. */
  predicate Ends(enc: Encoding, w: Bytes, p: nat, q: State) {
    p <= |w| && At(q, p) && Complete(ScanFrom(enc, w, p, q))
  }

  /** The scan from here ends with this token. */
  predicate Gives(enc: Encoding, w: Bytes, p: nat, q: State, r: Scan) {
    p <= |w| && At(q, p) && ScanFrom(enc, w, p, q) == r
  }

  /** The piece stands in the input at `p`. */
  predicate Stands(w: Bytes, p: nat, x: Bytes) { p + |x| <= |w| && w[p..p + |x|] == x }

  /** The parts of a piece of the input. */
  lemma Piece(w: Bytes, p: nat, x: Bytes, n: nat)
    requires Stands(w, p, x) && n <= |x|
    ensures Stands(w, p, x[..n]) && Stands(w, p + n, x[n..]) && (x != [] ==> w[p] == x[0])
  {
    assert w[p..p + |x|][..n] == w[p..p + n] && w[p..p + |x|][n..] == w[p + n..p + |x|];
    if x != [] { assert w[p..p + |x|][0] == w[p]; }
  }

  lemma PieceIn(w: Bytes, p: nat, n: nat, k: nat)
    requires p + n <= k <= |w|
    ensures var x := w[p..k]; x[..n] == w[p..p + n] && x[n..] == w[p + n..k] && (p < k ==> x[0] == w[p])
  {
  }

  lemma SubPiece(w: Bytes, p: nat, k: nat, a: nat, b: nat)
    requires a <= b && p + b <= k <= |w|
    ensures w[p..k][a..b] == w[p + a..p + b]
  {
    var x, y := w[p..k][a..b], w[p + a..p + b];
    assert forall i :: 0 <= i < b - a ==> x[i] == w[p + a + i] == y[i];
  }

  // ----- names -----

  predicate NameState(q: State) { q.PiTarget? || q.EndTagName? || q.TagName? || q.AttName? || q.RefName? }

  lemma NamesAreAt(q: State, p: nat, k: nat)
    requires At(q, p) && NameState(q) && p <= k
    ensures At(q, k)
  {
  }

  lemma NameStep(enc: Encoding, w: Bytes, p: nat, q: State)
    requires p < |w| && At(q, p) && NameState(q)
    ensures match NameClass(enc, w, p)
      case Stop(s) => Gives(enc, w, p, q, s)
      case In(n) => 0 < n && Comes(enc, w, p, q, p + n, q)
      case Out => true
  {
    hide ScanFrom, NameClass;
    if q.RefName? { ScanStep(enc, w, p, q); } else { NameGoes(enc, w, p, q); }
    if NameClass(enc, w, p).In? { NamesAreAt(q, p, p + NameClass(enc, w, p).n); }
  }

  /** A scan goes past the rest of a name. */
  lemma {:induction false} PassName(enc: Encoding, ns: bool, w: Bytes, p: nat, x: Bytes, q: State)
    requires NameChars(enc, ns, x) && Stands(w, p, x) && At(q, p) && NameState(q) && IsUtf8(enc, ns)
    ensures Comes(enc, w, p, q, p + |x|, q)
    decreases |x|
  {
    hide IsUtf8, Comes, NameChar, NameClass, NameState, At, Size;
    if x == [] {
      StaysThere(enc, w, p, q);
    } else {
      var n := Size(x[0]);
      NameFits(w, p, x);
      NamesAreAt(q, p, p + n);
      Piece(w, p, x, n);
      NameClassIs(enc, ns, w, p);
      NameStep(enc, w, p, q);
      PassName(enc, ns, w, p + n, x[n..], q);
      ComesTwice(enc, w, p, q, p + n, q, p + |x|, q);
    }
  }

  lemma NameFits(w: Bytes, p: nat, x: Bytes)
    requires Stands(w, p, x) && x != [] && Size(x[0]) <= |x|
    ensures p < |w| && p + Size(x[0]) <= |w| && w[p..p + Size(x[0])] == x[..Size(x[0])]
  {
    Piece(w, p, x, Size(x[0]));
  }

  lemma StaysThere(enc: Encoding, w: Bytes, p: nat, q: State)
    requires p <= |w| && At(q, p)
    ensures Comes(enc, w, p, q, p, q)
  {
    hide ScanFrom;
  }

  /** A scan that ends well has passed the rest of a name. */
  lemma {:induction false} NameThere(enc: Encoding, ns: bool, w: Bytes, p: nat, q: State) returns (k: nat)
    requires Ends(enc, w, p, q) && NameState(q) && IsUtf8(enc, ns)
    ensures p <= k < |w| && NameChars(enc, ns, w[p..k]) && NameClass(enc, w, k) == Out && Comes(enc, w, p, q, k, q)
    decreases |w| - p
  {
    hide IsUtf8, ScanFrom, NameChar, NameClass;
    NameClassIs(enc, ns, w, p);
    NameStep(enc, w, p, q);
    k := p;
    if NameClass(enc, w, p).In? {
      var n := Size(w[p]);
      k := NameThere(enc, ns, w, p + n, q);
      PieceIn(w, p, n, k);
    }
  }

  /** A state in which a name may begin, and the state within the name. */
  predicate OpensName(q: State) {
    || q.PiStart? || q.EndTagStart? || q.TagColon? || q.AttColon? || q.RefStart? || q.AfterLt? || q.TagSpace?
    || q.AttSpace?
  }

  function Within(q: State, p: nat): State
    requires OpensName(q)
  {
    match q
    case PiStart => PiTarget(p)
    case EndTagStart => EndTagName
    case TagColon => TagName(true)
    case AttColon => AttName(true)
    case RefStart(ctx) => RefName(ctx)
    case AfterLt => TagName(false)
    case _ => AttName(false)
  }

  lemma NameOpens(enc: Encoding, w: Bytes, p: nat, q: State)
    requires p < |w| && OpensName(q)
    ensures match NmstrtClass(enc, w, p)
      case Stop(s) => Gives(enc, w, p, q, s)
      case In(n) => 0 < n && Comes(enc, w, p, q, p + n, Within(q, p))
      case Out => true
  {
    hide ScanFrom, NmstrtClass, NameClass, CharClass;
    ScanStep(enc, w, p, q);
  }

  lemma PassNcName(enc: Encoding, ns: bool, w: Bytes, p: nat, x: Bytes, q: State)
    requires NcName(enc, ns, x) && Stands(w, p, x) && OpensName(q) && IsUtf8(enc, ns)
    ensures Comes(enc, w, p, q, p + |x|, Within(q, p))
  {
    hide IsUtf8, Comes, NameStartChar, NmstrtClass, Stands, OpensName;
    var n := Size(x[0]);
    NameFits(w, p, x);
    Piece(w, p, x, n);
    NmstrtClassIs(enc, ns, w, p);
    NameOpens(enc, w, p, q);
    WithinIsName(q, p, p + n);
    PassName(enc, ns, w, p + n, x[n..], Within(q, p));
    ComesTwice(enc, w, p, q, p + n, Within(q, p), p + |x|, Within(q, p));
  }

  lemma WithinIsName(q: State, p: nat, k: nat)
    requires OpensName(q) && p <= k
    ensures NameState(Within(q, p)) && At(Within(q, p), k)
  {
  }

  /** Not a byte that cannot begin a name. */
  predicate MayOpen(enc: Encoding, w: Bytes, p: nat) { p < |w| && NmstrtClass(enc, w, p) != Out }

  lemma NcNameThere(enc: Encoding, ns: bool, w: Bytes, p: nat, q: State) returns (k: nat)
    requires OpensName(q) && Ends(enc, w, p, q) && MayOpen(enc, w, p) && IsUtf8(enc, ns)
    ensures p < k < |w| && NcName(enc, ns, w[p..k]) && NameClass(enc, w, k) == Out
    ensures Comes(enc, w, p, q, k, Within(q, p))
  {
    hide IsUtf8, ScanFrom, NameStartChar, NmstrtClass, NameClass, OpensName;
    NmstrtClassIs(enc, ns, w, p);
    NameOpens(enc, w, p, q);
    var n := Size(w[p]);
    WithinIsName(q, p, p + n);
    k := NameThere(enc, ns, w, p + n, Within(q, p));
    PieceIn(w, p, n, k);
  }

  // ----- white space -----

  predicate SpaceState(q: State) { q.TagSpace? || q.AttNameSpace? || q.AttEquals? || q.AttSpace? || q.EndTagSpace? }

  lemma BlankStep(enc: Encoding, ns: bool, w: Bytes, p: nat, q: State)
    requires p < |w| && SpaceState(q) && IsBlank(w[p]) && IsUtf8(enc, ns)
    ensures Comes(enc, w, p, q, p + 1, q)
  {
    hide IsUtf8, ScanFrom;
    TypeAt(enc, ns, w[p]);
    ScanStep(enc, w, p, q);
  }

  lemma {:induction false} PassBlanks(enc: Encoding, ns: bool, w: Bytes, p: nat, s: Bytes, q: State)
    requires Blanks(s) && Stands(w, p, s) && SpaceState(q) && IsUtf8(enc, ns)
    ensures Comes(enc, w, p, q, p + |s|, q)
    decreases |s|
  {
    hide IsUtf8, ScanFrom;
    if s != [] {
      Piece(w, p, s, 1);
      BlankStep(enc, ns, w, p, q);
      PassBlanks(enc, ns, w, p + 1, s[1..], q);
    }
  }

  lemma {:induction false} BlanksThere(enc: Encoding, ns: bool, w: Bytes, p: nat, q: State) returns (k: nat)
    requires Ends(enc, w, p, q) && SpaceState(q) && IsUtf8(enc, ns)
    ensures p <= k < |w| && Blanks(w[p..k]) && !IsBlank(w[k]) && Comes(enc, w, p, q, k, q)
    decreases |w| - p
  {
    hide IsUtf8, ScanFrom;
    k := p;
    if IsBlank(w[p]) {
      BlankStep(enc, ns, w, p, q);
      k := BlanksThere(enc, ns, w, p + 1, q);
      assert w[p..k] == [w[p]] + w[p + 1..k];
    }
  }

  // ----- comments -----

  /** No `--` begins within. */
  predicate NoDashes(w: Bytes, p: nat, k: nat)
    requires p <= k < |w|
  {
    forall i :: p <= i < k && w[i] == 0x2D ==> w[i + 1] != 0x2D
  }

  /** `<!--`, text in which no `--` begins, `-->` */
  predicate IsComment(x: Bytes) {
    && |x| >= 7 && x[..4] == [0x3C, 0x21, 0x2D, 0x2D] && x[|x| - 3..] == [0x2D, 0x2D, 0x3E]
    && Chars(x[4..|x| - 3]) && NoDashes(x, 4, |x| - 3)
  }

  /** `-->` */
  predicate ClosesComment(w: Bytes, k: nat) { k + 3 <= |w| && w[k] == 0x2D && w[k + 1] == 0x2D && w[k + 2] == 0x3E }

  lemma CommentStep(enc: Encoding, ns: bool, w: Bytes, p: nat)
    requires p < |w| && IsUtf8(enc, ns)
    ensures var n := Size(w[p]);
      if p + n > |w| || !IsChar(w[p..p + n]) then !Ends(enc, w, p, InComment)
      else if w[p] != 0x2D || (p + 1 < |w| && w[p + 1] != 0x2D) then Comes(enc, w, p, InComment, p + n, InComment)
      else if ClosesComment(w, p) then Gives(enc, w, p, InComment, Scan(TokComment, p + 3))
      else !Ends(enc, w, p, InComment)
  {
    hide IsUtf8, ScanFrom, CharClass, IsChar;
    TypeAt(enc, ns, w[p]);
    CharClassIs(enc, ns, w, p);
    ScanStep(enc, w, p, InComment);
  }

  lemma {:induction false} PassComment(enc: Encoding, ns: bool, w: Bytes, p: nat, k: nat)
    requires p <= k && ClosesComment(w, k) && Chars(w[p..k]) && NoDashes(w, p, k) && IsUtf8(enc, ns)
    ensures Gives(enc, w, p, InComment, Scan(TokComment, k + 3))
    decreases k - p
  {
    hide IsUtf8, ScanFrom, IsChar;
    CommentStep(enc, ns, w, p);
    if p == k {
      DashIsChar(w, k);
    } else {
      var n := Size(w[p]);
      PieceIn(w, p, n, k);
      PassComment(enc, ns, w, p + n, k);
    }
  }

  lemma DashIsChar(w: Bytes, k: nat)
    requires k < |w| && 0x20 <= w[k] < 0x80
    ensures Size(w[k]) == 1 && IsChar(w[k..k + 1])
  {
  }

  lemma {:induction false} CommentThere(enc: Encoding, ns: bool, w: Bytes, p: nat) returns (k: nat)
    requires Ends(enc, w, p, InComment) && IsUtf8(enc, ns)
    ensures p <= k && ClosesComment(w, k) && Chars(w[p..k]) && NoDashes(w, p, k)
    ensures Gives(enc, w, p, InComment, Scan(TokComment, k + 3))
    decreases |w| - p
  {
    hide IsUtf8, ScanFrom, IsChar;
    CommentStep(enc, ns, w, p);
    k := p;
    if !ClosesComment(w, p) {
      var n := Size(w[p]);
      k := CommentThere(enc, ns, w, p + n);
      PieceIn(w, p, n, k);
      TailsOfChar(w, p);
    }
  }

  /** Bytes behind the first one of a character are not ASCII. */
  lemma TailsOfChar(w: Bytes, p: nat)
    requires p < |w| && p + Size(w[p]) <= |w| && IsChar(w[p..p + Size(w[p])])
    ensures forall i :: p < i < p + Size(w[p]) ==> w[i] >= 0x80
  {
    var c := w[p..p + Size(w[p])];
    assert forall i :: p < i < p + Size(w[p]) ==> c[i - p] == w[i];
  }

  // ----- processing instructions -----

  /** No `?>` begins within. */
  predicate NoPiEnd(w: Bytes, p: nat, k: nat)
    requires p <= k < |w|
  {
    forall i :: p <= i < k && w[i] == 0x3F ==> w[i + 1] != 0x3E
  }

  predicate ClosesPi(w: Bytes, k: nat) { k + 2 <= |w| && w[k] == 0x3F && w[k + 1] == 0x3E }

  /** `xml` in any case. */
  predicate IsXml(t: Bytes) {
    |t| == 3 && (t[0] == 0x78 || t[0] == 0x58) && (t[1] == 0x6D || t[1] == 0x4D) && (t[2] == 0x6C || t[2] == 0x4C)
  }

  /** Other spellings of `xml` are reserved. */
  predicate TargetOf(t: Bytes, tok: Token) {
    if t == [0x78, 0x6D, 0x6C] then tok == TokXmlDecl else !IsXml(t) && tok == TokPi
  }

  /** `<?`, a target and `?>`, or white space between them and text in which no `?>` begins. */
  ghost predicate IsPi(enc: Encoding, ns: bool, x: Bytes, tok: Token) {
    && |x| >= 5 && x[..2] == [0x3C, 0x3F] && x[|x| - 2..] == [0x3F, 0x3E]
    && exists k :: 2 < k <= |x| - 2 && NcName(enc, ns, x[2..k]) && TargetOf(x[2..k], tok) && PiRest(x, k)
  }

  /** What stands behind a target that ends at `k`. */
  predicate PiRest(x: Bytes, k: nat)
    requires 2 <= k <= |x| - 2
  {
    k == |x| - 2 || (IsBlank(x[k]) && Chars(x[k + 1..|x| - 2]) && NoPiEnd(x, k + 1, |x| - 2))
  }

  lemma PiStep(enc: Encoding, ns: bool, w: Bytes, p: nat, q: State)
    requires p < |w| && q.InPi? && At(q, p) && IsUtf8(enc, ns)
    ensures var n := Size(w[p]);
      if p + n > |w| || !IsChar(w[p..p + n]) then !Ends(enc, w, p, q)
      else if w[p] != 0x3F || (p + 1 < |w| && w[p + 1] != 0x3E) then Comes(enc, w, p, q, p + n, q)
      else if ClosesPi(w, p) then Gives(enc, w, p, q, Scan(q.tok, p + 2))
      else !Ends(enc, w, p, q)
  {
    hide IsUtf8, ScanFrom, CharClass, IsChar;
    TypeAt(enc, ns, w[p]);
    CharClassIs(enc, ns, w, p);
    ScanStep(enc, w, p, q);
  }

  lemma {:induction false} PassPi(enc: Encoding, ns: bool, w: Bytes, p: nat, k: nat, q: State)
    requires p <= k && ClosesPi(w, k) && Chars(w[p..k]) && NoPiEnd(w, p, k)
    requires q.InPi? && At(q, p) && IsUtf8(enc, ns)
    ensures Gives(enc, w, p, q, Scan(q.tok, k + 2))
    decreases k - p
  {
    hide IsUtf8, ScanFrom, IsChar;
    PiStep(enc, ns, w, p, q);
    if p == k {
      DashIsChar(w, k);
    } else {
      var n := Size(w[p]);
      PieceIn(w, p, n, k);
      PassPi(enc, ns, w, p + n, k, q);
    }
  }

  lemma {:induction false} PiThere(enc: Encoding, ns: bool, w: Bytes, p: nat, q: State) returns (k: nat)
    requires Ends(enc, w, p, q) && q.InPi? && IsUtf8(enc, ns)
    ensures p <= k && ClosesPi(w, k) && Chars(w[p..k]) && NoPiEnd(w, p, k)
    ensures Gives(enc, w, p, q, Scan(q.tok, k + 2))
    decreases |w| - p
  {
    hide IsUtf8, ScanFrom, IsChar;
    PiStep(enc, ns, w, p, q);
    k := p;
    if !ClosesPi(w, p) {
      var n := Size(w[p]);
      k := PiThere(enc, ns, w, p + n, q);
      PieceIn(w, p, n, k);
      TailsOfChar(w, p);
    }
  }

  function TokenOf(t: Bytes): Token { if t == [0x78, 0x6D, 0x6C] then TokXmlDecl else TokPi }

  lemma TargetIs(w: Bytes, p: nat, k: nat)
    requires p <= k <= |w|
    ensures CheckPiTarget(w, p, k)
      == if IsXml(w[p..k]) && w[p..k] != [0x78, 0x6D, 0x6C] then Reserved else Target(TokenOf(w[p..k]))
  {
    var t := w[p..k];
    if |t| == 3 { assert t == [w[p], w[p + 1], w[p + 2]]; }
  }

  /** Behind a target. */
  lemma TargetEnds(enc: Encoding, ns: bool, w: Bytes, p: nat, k: nat)
    requires p <= k < |w| && NameClass(enc, w, k) == Out && IsUtf8(enc, ns)
    ensures var t := w[p..k];
      if IsXml(t) && t != [0x78, 0x6D, 0x6C] then !Ends(enc, w, k, PiTarget(p))
      else if IsBlank(w[k]) then Comes(enc, w, k, PiTarget(p), k + 1, InPi(TokenOf(t)))
      else if ClosesPi(w, k) then Gives(enc, w, k, PiTarget(p), Scan(TokenOf(t), k + 2))
      else !Ends(enc, w, k, PiTarget(p))
  {
    hide IsUtf8, ScanFrom, NameClass, CheckPiTarget, Next, IsXml, TokenOf;
    TypeAt(enc, ns, w[k]);
    TargetIs(w, p, k);
    RowLeads(enc, w, k, PiTarget(p));
  }

  /** A scan from the target to the end. */
  lemma PassPiFrom(enc: Encoding, ns: bool, w: Bytes, p: nat, k: nat, n: nat)
    requires p < k <= n && ClosesPi(w, n) && NcName(enc, ns, w[p..k])
    requires !IsXml(w[p..k]) || w[p..k] == [0x78, 0x6D, 0x6C]
    requires k == n || (IsBlank(w[k]) && Chars(w[k + 1..n]) && NoPiEnd(w, k + 1, n))
    requires IsUtf8(enc, ns)
    ensures Gives(enc, w, p, PiStart, Scan(TokenOf(w[p..k]), n + 2))
  {
    hide IsUtf8, ScanFrom, NcName, NameClass, Chars;
    PassNcName(enc, ns, w, p, w[p..k], PiStart);
    assert !NameChar(enc, ns, [w[k]]);
    NotInName(enc, ns, w, k);
    TargetEnds(enc, ns, w, p, k);
    if k < n { PassPi(enc, ns, w, k + 1, n, InPi(TokenOf(w[p..k]))); }
  }

  /** Bytes that no name goes on with. */
  lemma NotInName(enc: Encoding, ns: bool, w: Bytes, k: nat)
    requires k < |w| && w[k] < 0x80 && !NameChar(enc, ns, [w[k]]) && IsUtf8(enc, ns)
    ensures NameClass(enc, w, k) == Out
  {
    hide IsUtf8, NameChar, NameClass;
    NameClassIs(enc, ns, w, k);
    assert w[k..k + 1] == [w[k]];
  }

  lemma PiThereFrom(enc: Encoding, ns: bool, w: Bytes, p: nat) returns (k: nat, n: nat)
    requires Ends(enc, w, p, PiStart) && IsUtf8(enc, ns)
    ensures p < k <= n && ClosesPi(w, n) && NcName(enc, ns, w[p..k])
    ensures !IsXml(w[p..k]) || w[p..k] == [0x78, 0x6D, 0x6C]
    ensures k == n || (IsBlank(w[k]) && Chars(w[k + 1..n]) && NoPiEnd(w, k + 1, n))
    ensures Gives(enc, w, p, PiStart, Scan(TokenOf(w[p..k]), n + 2))
  {
    hide IsUtf8, ScanFrom, NcName, NmstrtClass, NameClass, Chars;
    MustOpen(enc, w, p, PiStart);
    k := NcNameThere(enc, ns, w, p, PiStart);
    TargetEnds(enc, ns, w, p, k);
    n := k;
    if IsBlank(w[k]) { n := PiThere(enc, ns, w, k + 1, InPi(TokenOf(w[p..k]))); }
  }

  /** Where nothing but a name may follow. */
  lemma MustOpen(enc: Encoding, w: Bytes, p: nat, q: State)
    requires Ends(enc, w, p, q) && (q.PiStart? || q.EndTagStart? || q.TagColon? || q.AttColon?)
    ensures MayOpen(enc, w, p)
  {
    hide ScanFrom, NmstrtClass;
    if p < |w| { ScanStep(enc, w, p, q); }
  }

  // ----- CDATA sections -----

  /** `<![CDATA[` */
  predicate OpensCdata(w: Bytes) {
    |w| >= 9 && w[..9] == [0x3C, 0x21, 0x5B, 0x43, 0x44, 0x41, 0x54, 0x41, 0x5B]
  }

  lemma CdataScan(enc: Encoding, w: Bytes, p: nat)
    requires p <= |w|
    ensures if p + 6 <= |w| && w[p..p + 6] == [0x43, 0x44, 0x41, 0x54, 0x41, 0x5B]
      then Gives(enc, w, p, CdataKeyword, Scan(TokCdataSectOpen, p + 6)) else !Ends(enc, w, p, CdataKeyword)
  {
    hide ScanFrom;
    if p < |w| { ScanStep(enc, w, p, CdataKeyword); }
    if p + 6 <= |w| { KeywordIs(w, p, 0); }
  }

  lemma {:induction false} KeywordIs(w: Bytes, p: nat, i: nat)
    requires p + 6 <= |w| && i <= 6
    ensures KeywordMatch(w, p, i) == 6 <==> w[p + i..p + 6] == [0x43, 0x44, 0x41, 0x54, 0x41, 0x5B][i..]
    decreases 6 - i
  {
    var literal: Bytes := [0x43, 0x44, 0x41, 0x54, 0x41, 0x5B];
    if i < 6 {
      KeywordIs(w, p, i + 1);
      assert w[p + i..p + 6] == [w[p + i]] + w[p + i + 1..p + 6] && literal[i..] == [literal[i]] + literal[i + 1..];
    }
  }

  // ----- end tags -----

  /** The name of an end tag may have any number of colons; it must be that of the start tag anyway. */
  predicate EndParts(enc: Encoding, ns: bool, x: Bytes)
    decreases |x|
  {
    x == []
    || (Size(x[0]) <= |x| && (NameChar(enc, ns, x[..Size(x[0])]) || x[0] == 0x3A) && EndParts(enc, ns, x[Size(x[0])..]))
  }

  predicate EndName(enc: Encoding, ns: bool, x: Bytes) {
    && x != [] && Size(x[0]) <= |x|
    && NameStartChar(enc, ns, x[..Size(x[0])]) && EndParts(enc, ns, x[Size(x[0])..])
  }

  /** `</`, a name, white space, `>` */
  ghost predicate IsEndTag(enc: Encoding, ns: bool, x: Bytes) {
    && |x| >= 4 && x[..2] == [0x3C, 0x2F] && x[|x| - 1] == 0x3E
    && exists k :: 2 < k < |x| && EndName(enc, ns, x[2..k]) && Blanks(x[k..|x| - 1])
  }

  lemma EndNameStep(enc: Encoding, ns: bool, w: Bytes, p: nat)
    requires p < |w| && IsUtf8(enc, ns)
    ensures var n, q := Size(w[p]), EndTagName;
      if p + n <= |w| && (NameChar(enc, ns, w[p..p + n]) || w[p] == 0x3A) then Comes(enc, w, p, q, p + n, q)
      else if IsBlank(w[p]) then Comes(enc, w, p, q, p + 1, EndTagSpace)
      else if w[p] == 0x3E then Gives(enc, w, p, q, Scan(TokEndTag, p + 1))
      else !Ends(enc, w, p, q)
  {
    hide IsUtf8, ScanFrom, NameClass, Next;
    TypeAt(enc, ns, w[p]);
    NameClassIs(enc, ns, w, p);
    if w[p] == 0x3A && !ns { assert NameChar(enc, ns, w[p..p + 1]); }
    RowLeads(enc, w, p, EndTagName);
  }

  lemma EndSpace(enc: Encoding, ns: bool, w: Bytes, p: nat)
    requires p < |w| && !IsBlank(w[p]) && IsUtf8(enc, ns)
    ensures
      if w[p] == 0x3E then Gives(enc, w, p, EndTagSpace, Scan(TokEndTag, p + 1)) else !Ends(enc, w, p, EndTagSpace)
  {
    hide IsUtf8, ScanFrom;
    TypeAt(enc, ns, w[p]);
    ScanStep(enc, w, p, EndTagSpace);
  }

  /** The name of an end tag up to `k`, white space up to `n`, and `>`. */
  lemma {:induction false} PassEndTag(enc: Encoding, ns: bool, w: Bytes, p: nat, k: nat, n: nat)
    requires p <= k <= n < |w| && EndParts(enc, ns, w[p..k]) && Blanks(w[k..n]) && w[n] == 0x3E && IsUtf8(enc, ns)
    ensures Gives(enc, w, p, EndTagName, Scan(TokEndTag, n + 1))
    decreases k - p
  {
    hide IsUtf8, ScanFrom, NameChar;
    if p < k {
      EndNameStep(enc, ns, w, p);
      var m := Size(w[p]);
      PieceIn(w, p, m, k);
      PassEndTag(enc, ns, w, p + m, k, n);
    } else {
      PassEndSpace(enc, ns, w, p, n);
    }
  }

  lemma PassEndSpace(enc: Encoding, ns: bool, w: Bytes, p: nat, n: nat)
    requires p <= n < |w| && Blanks(w[p..n]) && w[n] == 0x3E && IsUtf8(enc, ns)
    ensures Gives(enc, w, p, EndTagName, Scan(TokEndTag, n + 1))
  {
    hide IsUtf8, ScanFrom, NameChar;
    EndNameStep(enc, ns, w, p);
    BlankInNoName(enc, ns, w, p);
    if p < n {
      assert w[p..n][0] == w[p] && w[p..n][1..] == w[p + 1..n];
      PassBlanks(enc, ns, w, p + 1, w[p + 1..n], EndTagSpace);
      EndSpace(enc, ns, w, n);
    }
  }

  lemma BlankInNoName(enc: Encoding, ns: bool, w: Bytes, p: nat)
    requires p < |w|
    ensures IsBlank(w[p]) || w[p] == 0x3E ==> Size(w[p]) == 1 && !NameChar(enc, ns, w[p..p + 1]) && w[p] != 0x3A
  {
  }

  lemma {:induction false} EndTagThere(enc: Encoding, ns: bool, w: Bytes, p: nat) returns (k: nat, n: nat)
    requires Ends(enc, w, p, EndTagName) && IsUtf8(enc, ns)
    ensures p <= k <= n < |w| && EndParts(enc, ns, w[p..k]) && Blanks(w[k..n]) && w[n] == 0x3E
    ensures Gives(enc, w, p, EndTagName, Scan(TokEndTag, n + 1))
    decreases |w| - p
  {
    hide IsUtf8, ScanFrom, NameChar;
    EndNameStep(enc, ns, w, p);
    var m := Size(w[p]);
    k, n := p, p;
    if p + m <= |w| && (NameChar(enc, ns, w[p..p + m]) || w[p] == 0x3A) {
      k, n := EndTagThere(enc, ns, w, p + m);
      PieceIn(w, p, m, k);
    } else if IsBlank(w[p]) {
      n := BlanksThere(enc, ns, w, p + 1, EndTagSpace);
      EndSpace(enc, ns, w, n);
      assert w[p..n] == [w[p]] + w[p + 1..n];
    }
  }

  // ----- references -----

  /** `&`, a name, `;` */
  predicate IsEntityRef(enc: Encoding, ns: bool, x: Bytes) {
    |x| >= 3 && x[0] == 0x26 && x[|x| - 1] == 0x3B && NcName(enc, ns, x[1..|x| - 1])
  }

  predicate Digits(x: Bytes) { x != [] && forall i :: 0 <= i < |x| ==> IsDigit(x[i]) }

  predicate HexDigits(x: Bytes) { x != [] && forall i :: 0 <= i < |x| ==> IsDigit(x[i]) || IsHexLetter(x[i]) }

  /** `&#`, decimal digits or `x` and hexadecimal ones, `;` */
  predicate IsCharRefText(x: Bytes) {
    && |x| >= 4 && x[0] == 0x26 && x[1] == 0x23 && x[|x| - 1] == 0x3B
    && (Digits(x[2..|x| - 1]) || (x[2] == 0x78 && HexDigits(x[3..|x| - 1])))
  }

  lemma RefNameEnds(enc: Encoding, ns: bool, w: Bytes, k: nat)
    requires k < |w| && NameClass(enc, w, k) == Out && IsUtf8(enc, ns)
    ensures var q := RefName(InContent);
      if w[k] == 0x3B then Gives(enc, w, k, q, Scan(TokEntityRef, k + 1)) else !Ends(enc, w, k, q)
  {
    hide IsUtf8, ScanFrom, NameClass;
    TypeAt(enc, ns, w[k]);
    ScanStep(enc, w, k, RefName(InContent));
  }

  lemma PassEntityRef(enc: Encoding, ns: bool, w: Bytes, p: nat, k: nat)
    requires p < k < |w| && NcName(enc, ns, w[p..k]) && w[k] == 0x3B && IsUtf8(enc, ns)
    ensures Gives(enc, w, p, RefStart(InContent), Scan(TokEntityRef, k + 1))
  {
    hide IsUtf8, ScanFrom, NameClass, NcName;
    PassNcName(enc, ns, w, p, w[p..k], RefStart(InContent));
    assert !NameChar(enc, ns, [w[k]]);
    NotInName(enc, ns, w, k);
    RefNameEnds(enc, ns, w, k);
  }

  predicate DigitState(q: State) { q == DecCharRef(InContent) || q == HexCharRef(InContent) }

  lemma DigitStep(enc: Encoding, ns: bool, w: Bytes, p: nat, q: State)
    requires p < |w| && DigitState(q) && IsUtf8(enc, ns)
    ensures if IsDigit(w[p]) || (q.HexCharRef? && IsHexLetter(w[p])) then Comes(enc, w, p, q, p + 1, q)
      else if w[p] == 0x3B then Gives(enc, w, p, q, Scan(TokCharRef, p + 1)) else !Ends(enc, w, p, q)
  {
    hide IsUtf8, ScanFrom;
    TypeAt(enc, ns, w[p]);
    ScanStep(enc, w, p, q);
  }

  predicate DigitsOf(x: Bytes, hex: bool) { if hex then HexDigits(x) else Digits(x) }

  lemma {:induction false} PassDigits(enc: Encoding, ns: bool, w: Bytes, p: nat, k: nat, q: State)
    requires p <= k < |w| && (p < k ==> DigitsOf(w[p..k], q.HexCharRef?)) && w[k] == 0x3B
    requires DigitState(q) && IsUtf8(enc, ns)
    ensures Gives(enc, w, p, q, Scan(TokCharRef, k + 1))
    decreases k - p
  {
    hide IsUtf8, ScanFrom;
    DigitStep(enc, ns, w, p, q);
    if p < k {
      assert w[p..k][0] == w[p] && w[p..k][1..] == w[p + 1..k];
      PassDigits(enc, ns, w, p + 1, k, q);
    }
  }

  lemma {:induction false} DigitsThere(enc: Encoding, ns: bool, w: Bytes, p: nat, q: State) returns (k: nat)
    requires Ends(enc, w, p, q) && DigitState(q) && IsUtf8(enc, ns)
    ensures p <= k < |w| && (p < k ==> DigitsOf(w[p..k], q.HexCharRef?)) && w[k] == 0x3B
    ensures Gives(enc, w, p, q, Scan(TokCharRef, k + 1))
    decreases |w| - p
  {
    hide IsUtf8, ScanFrom;
    DigitStep(enc, ns, w, p, q);
    k := p;
    if w[p] != 0x3B {
      k := DigitsThere(enc, ns, w, p + 1, q);
      assert w[p..k] == [w[p]] + w[p + 1..k];
    }
  }

  /** Behind `&#`. */
  lemma CharRefStep(enc: Encoding, ns: bool, w: Bytes, p: nat)
    requires p < |w| && IsUtf8(enc, ns)
    ensures var q := CharRefStart(InContent);
      if IsDigit(w[p]) then Comes(enc, w, p, q, p + 1, DecCharRef(InContent))
      else if w[p] == 0x78 && p + 1 < |w| && (IsDigit(w[p + 1]) || IsHexLetter(w[p + 1])) then
        Comes(enc, w, p, q, p + 2, HexCharRef(InContent))
      else !Ends(enc, w, p, q)
  {
    hide IsUtf8, ScanFrom;
    TypeAt(enc, ns, w[p]);
    ScanStep(enc, w, p, CharRefStart(InContent));
    if w[p] == 0x78 && p + 1 < |w| {
      TypeAt(enc, ns, w[p + 1]);
      ScanStep(enc, w, p + 1, HexCharRefStart(InContent));
    }
  }

  /** Behind `&`, without a name. */
  lemma HashStep(enc: Encoding, ns: bool, w: Bytes, p: nat)
    requires p < |w| && !MayOpen(enc, w, p) && IsUtf8(enc, ns)
    ensures var q := RefStart(InContent);
      if w[p] == 0x23 then Comes(enc, w, p, q, p + 1, CharRefStart(InContent)) else !Ends(enc, w, p, q)
  {
    hide IsUtf8, ScanFrom, NmstrtClass;
    TypeAt(enc, ns, w[p]);
    ScanStep(enc, w, p, RefStart(InContent));
  }

  lemma HashOpensNothing(enc: Encoding, ns: bool, w: Bytes, p: nat)
    requires p < |w| && w[p] < 0x80 && !NameStartChar(enc, ns, [w[p]]) && IsUtf8(enc, ns)
    ensures !MayOpen(enc, w, p)
  {
    hide IsUtf8, NmstrtClass, NameStartChar;
    NmstrtClassIs(enc, ns, w, p);
    assert w[p..p + 1] == [w[p]];
  }

  /** The text of a character reference behind `&`, up to the `;` at `k`. */
  predicate CharRefAt(w: Bytes, p: nat, k: nat) {
    && p + 1 < k < |w| && w[p] == 0x23 && w[k] == 0x3B
    && (Digits(w[p + 1..k]) || (w[p + 1] == 0x78 && HexDigits(w[p + 2..k])))
  }

  lemma PassCharRef(enc: Encoding, ns: bool, w: Bytes, p: nat, k: nat)
    requires CharRefAt(w, p, k) && IsUtf8(enc, ns)
    ensures Gives(enc, w, p, RefStart(InContent), Scan(TokCharRef, k + 1))
  {
    hide IsUtf8, ScanFrom, NmstrtClass;
    HashOpensNothing(enc, ns, w, p);
    HashStep(enc, ns, w, p);
    CharRefStep(enc, ns, w, p + 1);
    if Digits(w[p + 1..k]) {
      assert w[p + 1..k][0] == w[p + 1] && w[p + 1..k][1..] == w[p + 2..k];
      PassDigits(enc, ns, w, p + 2, k, DecCharRef(InContent));
    } else {
      assert w[p + 2..k][0] == w[p + 2] && w[p + 2..k][1..] == w[p + 3..k];
      PassDigits(enc, ns, w, p + 3, k, HexCharRef(InContent));
    }
  }

  /** A reference behind `&`: the `;` that ends it, and its token. */
  lemma RefThere(enc: Encoding, ns: bool, w: Bytes, p: nat) returns (k: nat)
    requires Ends(enc, w, p, RefStart(InContent)) && IsUtf8(enc, ns)
    ensures p < k < |w| && w[k] == 0x3B
    ensures || (NcName(enc, ns, w[p..k]) && Gives(enc, w, p, RefStart(InContent), Scan(TokEntityRef, k + 1)))
            || (CharRefAt(w, p, k) && Gives(enc, w, p, RefStart(InContent), Scan(TokCharRef, k + 1)))
  {
    hide IsUtf8, ScanFrom, NmstrtClass, NameClass, NcName;
    if MayOpen(enc, w, p) {
      k := NcNameThere(enc, ns, w, p, RefStart(InContent));
      RefNameEnds(enc, ns, w, k);
    } else {
      HashStep(enc, ns, w, p);
      CharRefStep(enc, ns, w, p + 1);
      if IsDigit(w[p + 1]) {
        k := DigitsThere(enc, ns, w, p + 2, DecCharRef(InContent));
        assert w[p + 1..k] == [w[p + 1]] + w[p + 2..k];
      } else {
        k := DigitsThere(enc, ns, w, p + 3, HexCharRef(InContent));
        assert w[p + 2..k] == [w[p + 2]] + w[p + 3..k];
      }
    }
  }

  // ----- attribute values -----

  /** A reference, of either kind. */
  predicate IsRef(enc: Encoding, ns: bool, x: Bytes) { IsEntityRef(enc, ns, x) || IsCharRefText(x) }

  /** Characters but `<` and the quote, and references. */
  ghost predicate AttText(enc: Encoding, ns: bool, quote: Byte, x: Bytes)
    decreases |x|
  {
    x == []
    || (x[0] == 0x26 && exists n :: 0 < n <= |x| && IsRef(enc, ns, x[..n]) && AttText(enc, ns, quote, x[n..]))
    || (x[0] != 0x26 && x[0] != 0x3C && x[0] != quote && Size(x[0]) <= |x| && IsChar(x[..Size(x[0])])
        && AttText(enc, ns, quote, x[Size(x[0])..]))
  }

  predicate IsQuote(b: Byte) { b == 0x22 || b == 0x27 }

  lemma ValueStep(enc: Encoding, ns: bool, w: Bytes, p: nat, quote: Byte)
    requires p < |w| && IsQuote(quote) && IsUtf8(enc, ns)
    ensures var n, q := Size(w[p]), AttValue(enc.byteType(quote));
      if w[p] == quote then Comes(enc, w, p, q, p + 1, AttQuoted)
      else if w[p] == 0x26 then Comes(enc, w, p, q, p + 1, RefStart(InValue(enc.byteType(quote))))
      else if w[p] != 0x3C && p + n <= |w| && IsChar(w[p..p + n]) then Comes(enc, w, p, q, p + n, q)
      else !Ends(enc, w, p, q)
  {
    hide IsUtf8, ScanFrom, CharClass, IsChar;
    TypeAt(enc, ns, w[p]);
    TypeAt(enc, ns, quote);
    CharClassIs(enc, ns, w, p);
    ScanStep(enc, w, p, AttValue(enc.byteType(quote)));
    if w[p] == 0x26 { DashIsChar(w, p); }
  }

  /** A reference in a value. */
  lemma PassRef(enc: Encoding, ns: bool, w: Bytes, p: nat, n: nat, quote: Byte)
    requires p + n <= |w| && IsRef(enc, ns, w[p..p + n]) && IsQuote(quote) && IsUtf8(enc, ns)
    ensures var q := AttValue(enc.byteType(quote)); 0 < n && Comes(enc, w, p, q, p + n, q)
  {
    hide IsUtf8, ScanFrom, NcName;
    var x, k := w[p..p + n], p + n - 1;
    assert x[0] == w[p] && x[n - 1] == w[k];
    SubPiece(w, p, p + n, 1, n - 1);
    ValueStep(enc, ns, w, p, quote);
    if IsEntityRef(enc, ns, x) {
      PassEntityRef(enc, ns, w, p + 1, k);
    } else {
      RefTextAt(w, p, n);
      PassCharRef(enc, ns, w, p + 1, k);
    }
    RefInValue(enc, w, p + 1, RefStart(InContent), enc.byteType(quote));
  }

  lemma RefTextAt(w: Bytes, p: nat, n: nat)
    requires p + n <= |w| && IsCharRefText(w[p..p + n])
    ensures CharRefAt(w, p + 1, p + n - 1)
  {
    var x, k := w[p..p + n], p + n - 1;
    assert x[0] == w[p] && x[1] == w[p + 1] && x[2] == w[p + 2] && x[n - 1] == w[k];
    SubPiece(w, p, p + n, 2, n - 1);
    SubPiece(w, p, p + n, 3, n - 1);
  }

  lemma {:induction false} PassValue(enc: Encoding, ns: bool, w: Bytes, p: nat, k: nat, quote: Byte)
    requires p <= k <= |w| && AttText(enc, ns, quote, w[p..k]) && IsQuote(quote) && IsUtf8(enc, ns)
    ensures var q := AttValue(enc.byteType(quote)); Comes(enc, w, p, q, k, q)
    decreases k - p
  {
    hide IsUtf8, ScanFrom, IsChar, IsRef;
    if p < k {
      var x := w[p..k];
      assert x[0] == w[p];
      var n := Size(w[p]);
      if w[p] == 0x26 {
        n :| 0 < n <= |x| && IsRef(enc, ns, x[..n]) && AttText(enc, ns, quote, x[n..]);
        PieceIn(w, p, n, k);
        PassRef(enc, ns, w, p, n, quote);
      } else {
        PieceIn(w, p, n, k);
        ValueStep(enc, ns, w, p, quote);
      }
      PassValue(enc, ns, w, p + n, k, quote);
    }
  }

  /** A reference in a value that is scanned to its end. */
  lemma RefInThere(enc: Encoding, ns: bool, w: Bytes, p: nat, quote: Byte) returns (n: nat)
    requires p < |w| && w[p] == 0x26 && Ends(enc, w, p, AttValue(enc.byteType(quote)))
    requires IsQuote(quote) && IsUtf8(enc, ns)
    ensures 0 < n && p + n <= |w| && IsRef(enc, ns, w[p..p + n])
  {
    hide IsUtf8, ScanFrom, NcName;
    ValueStep(enc, ns, w, p, quote);
    RefInValue(enc, w, p + 1, RefStart(InContent), enc.byteType(quote));
    var k := RefThere(enc, ns, w, p + 1);
    n := k + 1 - p;
    RefText(enc, ns, w, p, k);
  }

  lemma RefText(enc: Encoding, ns: bool, w: Bytes, p: nat, k: nat)
    requires p + 1 < k < |w| && w[p] == 0x26 && w[k] == 0x3B && (NcName(enc, ns, w[p + 1..k]) || CharRefAt(w, p + 1, k))
    ensures IsRef(enc, ns, w[p..k + 1])
  {
    hide NcName;
    var x := w[p..k + 1];
    assert x[0] == w[p] && x[|x| - 1] == w[k];
    SubPiece(w, p, k + 1, 1, k - p);
    if CharRefAt(w, p + 1, k) {
      assert x[1] == w[p + 1] && x[2] == w[p + 2];
      SubPiece(w, p, k + 1, 2, k - p);
      SubPiece(w, p, k + 1, 3, k - p);
    }
  }

  lemma {:induction false} ValueThere(enc: Encoding, ns: bool, w: Bytes, p: nat, quote: Byte) returns (k: nat)
    requires Ends(enc, w, p, AttValue(enc.byteType(quote))) && IsQuote(quote) && IsUtf8(enc, ns)
    ensures p <= k < |w| && AttText(enc, ns, quote, w[p..k]) && w[k] == quote
    ensures Comes(enc, w, p, AttValue(enc.byteType(quote)), k + 1, AttQuoted)
    decreases |w| - p
  {
    hide IsUtf8, ScanFrom, IsChar, IsRef;
    ValueStep(enc, ns, w, p, quote);
    k := p;
    if w[p] != quote {
      var n := Size(w[p]);
      if w[p] == 0x26 {
        n := RefInThere(enc, ns, w, p, quote);
        PassRef(enc, ns, w, p, n, quote);
      }
      k := ValueThere(enc, ns, w, p + n, quote);
      PieceIn(w, p, n, k);
    }
  }

  // ----- start tags -----

  /** An attribute as it is written: white space, name, `=` with white space around it, quoted text. */
  datatype AttForm = AttForm(space: Bytes, name: Bytes, before: Bytes, after: Bytes, quote: Byte, text: Bytes)

  function PrintAtt(a: AttForm): Bytes {
    a.space + a.name + a.before + [0x3D] + a.after + [a.quote] + a.text + [a.quote]
  }

  function PrintAtts(atts: seq<AttForm>): Bytes {
    if atts == [] then [] else PrintAtt(atts[0]) + PrintAtts(atts[1..])
  }

  ghost predicate AttOk(enc: Encoding, ns: bool, a: AttForm) {
    && a.space != [] && Blanks(a.space) && QName(enc, ns, a.name) && Blanks(a.before) && Blanks(a.after)
    && IsQuote(a.quote) && AttText(enc, ns, a.quote, a.text)
  }

  ghost predicate AttsOk(enc: Encoding, ns: bool, atts: seq<AttForm>) {
    forall i :: 0 <= i < |atts| ==> AttOk(enc, ns, atts[i])
  }

  /** A start tag, or an empty-element tag: name, attributes, white space. */
  datatype TagForm = TagForm(name: Bytes, atts: seq<AttForm>, space: Bytes, empty: bool)

  function Close(empty: bool): Bytes { if empty then [0x2F, 0x3E] else [0x3E] }

  function PrintTag(t: TagForm): Bytes { [0x3C] + t.name + PrintAtts(t.atts) + t.space + Close(t.empty) }

  ghost predicate TagOk(enc: Encoding, ns: bool, t: TagForm) {
    QName(enc, ns, t.name) && AttsOk(enc, ns, t.atts) && Blanks(t.space)
  }

  function TagToken(atts: bool, empty: bool): Token {
    if empty then (if atts then TokEmptyElementWithAtts else TokEmptyElementNoAtts)
    else if atts then TokStartTagWithAtts
    else TokStartTagNoAtts
  }

  lemma StandsJoin(w: Bytes, p: nat, x: Bytes, y: Bytes)
    ensures Stands(w, p, x + y) <==> Stands(w, p, x) && Stands(w, p + |x|, y)
  {
    if Stands(w, p, x + y) {
      Piece(w, p, x + y, |x|);
      assert (x + y)[..|x|] == x && (x + y)[|x|..] == y;
    }
    if Stands(w, p, x) && Stands(w, p + |x|, y) {
      assert w[p..p + |x + y|] == w[p..p + |x|] + w[p + |x|..p + |x| + |y|];
    }
  }

  lemma StandsOne(w: Bytes, p: nat, b: Byte)
    ensures Stands(w, p, [b]) <==> p < |w| && w[p] == b
  {
    if p < |w| { assert w[p..p + 1] == [w[p]]; }
  }

  /** A state behind a name of a tag or an attribute that has `colons`. */
  predicate InName(q: State, colon: bool) { q == TagName(colon) || q == AttName(colon) }

  lemma ColonStep(enc: Encoding, ns: bool, w: Bytes, k: nat, q: State)
    requires k < |w| && w[k] == 0x3A && ns && (InName(q, false) || InName(q, true)) && IsUtf8(enc, ns)
    ensures if InName(q, false) then Comes(enc, w, k, q, k + 1, if q.TagName? then TagColon else AttColon)
      else !Ends(enc, w, k, q)
  {
    hide IsUtf8, ScanFrom, NameClass, Next;
    TypeAt(enc, ns, w[k]);
    assert !NameChar(enc, ns, [w[k]]);
    NotInName(enc, ns, w, k);
    RowLeads(enc, w, k, q);
  }

  predicate BeforeName(q: State) { q.AfterLt? || q.TagSpace? || q.AttSpace? }

  function NameWithin(q: State, colon: bool): State
    requires BeforeName(q)
  {
    if q.AfterLt? then TagName(colon) else AttName(colon)
  }

  lemma PassQName(enc: Encoding, ns: bool, w: Bytes, p: nat, x: Bytes, q: State) returns (colon: bool)
    requires QName(enc, ns, x) && Stands(w, p, x) && BeforeName(q) && IsUtf8(enc, ns)
    ensures Comes(enc, w, p, q, p + |x|, NameWithin(q, colon))
  {
    hide IsUtf8, ScanFrom, NcName;
    colon := false;
    if NcName(enc, ns, x) {
      PassNcName(enc, ns, w, p, x, q);
    } else {
      var k :| 0 < k < |x| - 1 && x[k] == 0x3A && NcName(enc, ns, x[..k]) && NcName(enc, ns, x[k + 1..]);
      colon := true;
      PassPrefixed(enc, ns, w, p, x, k, q);
    }
  }

  lemma PassPrefixed(enc: Encoding, ns: bool, w: Bytes, p: nat, x: Bytes, k: nat, q: State)
    requires 0 < k < |x| - 1 && x[k] == 0x3A && NcName(enc, ns, x[..k]) && NcName(enc, ns, x[k + 1..]) && ns
    requires Stands(w, p, x) && BeforeName(q) && IsUtf8(enc, ns)
    ensures Comes(enc, w, p, q, p + |x|, NameWithin(q, true))
  {
    hide IsUtf8, Comes, NcName;
    var r := if q.AfterLt? then TagColon else AttColon;
    Piece(w, p, x, k);
    Piece(w, p, x, k + 1);
    assert w[p + k] == w[p..p + |x|][k];
    PassNcName(enc, ns, w, p, x[..k], q);
    ColonStep(enc, ns, w, p + k, NameWithin(q, false));
    PassNcName(enc, ns, w, p + k + 1, x[k + 1..], r);
    ComesTwice(enc, w, p, q, p + k, NameWithin(q, false), p + k + 1, r);
    ComesTwice(enc, w, p, q, p + k + 1, r, p + |x|, NameWithin(q, true));
  }

  /** Behind a name of a tag, of an attribute: not its next character, and no colon. */
  predicate NameOver(enc: Encoding, w: Bytes, k: nat) { k < |w| && NameClass(enc, w, k) == Out && w[k] != 0x3A }

  lemma QNameThere(enc: Encoding, ns: bool, w: Bytes, p: nat, q: State) returns (k: nat, colon: bool)
    requires Ends(enc, w, p, q) && BeforeName(q) && MayOpen(enc, w, p) && IsUtf8(enc, ns)
    ensures p < k <= |w| && QName(enc, ns, w[p..k]) && NameOver(enc, w, k)
    ensures Comes(enc, w, p, q, k, NameWithin(q, colon))
  {
    hide IsUtf8, ScanFrom, NcName, NameClass, NmstrtClass;
    colon := false;
    k := NcNameThere(enc, ns, w, p, q);
    if w[k] == 0x3A {
      ColonMeans(enc, ns, w, k);
      ColonStep(enc, ns, w, k, NameWithin(q, false));
      var r := if q.AfterLt? then TagColon else AttColon;
      MustOpen(enc, w, k + 1, r);
      var k1 := k;
      k := NcNameThere(enc, ns, w, k1 + 1, r);
      colon := true;
      if w[k] == 0x3A { ColonStep(enc, ns, w, k, NameWithin(q, true)); }
      QNameJoin(enc, w, p, k1, k);
    }
  }

  lemma QNameJoin(enc: Encoding, w: Bytes, p: nat, m: nat, k: nat)
    requires p < m && m + 1 < k <= |w| && w[m] == 0x3A && NcName(enc, true, w[p..m]) && NcName(enc, true, w[m + 1..k])
    ensures QName(enc, true, w[p..k])
  {
    hide NcName;
    var x := w[p..k];
    assert x[m - p] == w[m];
    SubPiece(w, p, k, 0, m - p);
    SubPiece(w, p, k, m + 1 - p, k - p);
    assert x[..m - p] == x[0..m - p] && x[m + 1 - p..] == x[m + 1 - p..k - p];
  }

  lemma ColonMeans(enc: Encoding, ns: bool, w: Bytes, k: nat)
    requires k < |w| && NameClass(enc, w, k) == Out && w[k] == 0x3A && IsUtf8(enc, ns)
    ensures ns
  {
    hide IsUtf8;
    TypeAt(enc, ns, w[k]);
  }

  // what stands behind names, white space and values

  lemma TagNameEnds(enc: Encoding, ns: bool, w: Bytes, k: nat, colon: bool)
    requires NameOver(enc, w, k) && IsUtf8(enc, ns)
    ensures var q := TagName(colon);
      if IsBlank(w[k]) then Comes(enc, w, k, q, k + 1, TagSpace)
      else if w[k] == 0x3E then Gives(enc, w, k, q, Scan(TokStartTagNoAtts, k + 1))
      else if w[k] == 0x2F then Comes(enc, w, k, q, k + 1, TagSlash(false))
      else !Ends(enc, w, k, q)
  {
    hide IsUtf8, ScanFrom, NameClass, Next;
    TypeAt(enc, ns, w[k]);
    RowLeads(enc, w, k, TagName(colon));
  }

  lemma AttNameEnds(enc: Encoding, ns: bool, w: Bytes, k: nat, colon: bool)
    requires NameOver(enc, w, k) && IsUtf8(enc, ns)
    ensures var q := AttName(colon);
      if IsBlank(w[k]) then Comes(enc, w, k, q, k + 1, AttNameSpace)
      else if w[k] == 0x3D then Comes(enc, w, k, q, k + 1, AttEquals)
      else !Ends(enc, w, k, q)
  {
    hide IsUtf8, ScanFrom, NameClass, Next;
    TypeAt(enc, ns, w[k]);
    RowLeads(enc, w, k, AttName(colon));
  }

  lemma NameSpaceEnds(enc: Encoding, ns: bool, w: Bytes, k: nat)
    requires k < |w| && !IsBlank(w[k]) && IsUtf8(enc, ns)
    ensures if w[k] == 0x3D then Comes(enc, w, k, AttNameSpace, k + 1, AttEquals) else !Ends(enc, w, k, AttNameSpace)
  {
    hide IsUtf8, ScanFrom;
    TypeAt(enc, ns, w[k]);
    ScanStep(enc, w, k, AttNameSpace);
  }

  lemma EqualsEnds(enc: Encoding, ns: bool, w: Bytes, k: nat)
    requires k < |w| && !IsBlank(w[k]) && IsUtf8(enc, ns)
    ensures if IsQuote(w[k]) then Comes(enc, w, k, AttEquals, k + 1, AttValue(enc.byteType(w[k])))
      else !Ends(enc, w, k, AttEquals)
  {
    hide IsUtf8, ScanFrom;
    TypeAt(enc, ns, w[k]);
    ScanStep(enc, w, k, AttEquals);
  }

  lemma QuotedStep(enc: Encoding, ns: bool, w: Bytes, k: nat)
    requires k < |w| && IsUtf8(enc, ns)
    ensures var q := AttQuoted;
      if IsBlank(w[k]) then Comes(enc, w, k, q, k + 1, AttSpace)
      else if w[k] == 0x3E then Gives(enc, w, k, q, Scan(TokStartTagWithAtts, k + 1))
      else if w[k] == 0x2F then Comes(enc, w, k, q, k + 1, TagSlash(true))
      else !Ends(enc, w, k, q)
  {
    hide IsUtf8, ScanFrom, Next;
    TypeAt(enc, ns, w[k]);
    RowLeads(enc, w, k, AttQuoted);
  }

  lemma SlashStep(enc: Encoding, ns: bool, w: Bytes, k: nat, atts: bool)
    requires k < |w|
    ensures if w[k] == 0x3E then Gives(enc, w, k, TagSlash(atts), Scan(TagToken(atts, true), k + 1))
      else !Ends(enc, w, k, TagSlash(atts))
  {
    hide ScanFrom;
    ScanStep(enc, w, k, TagSlash(atts));
  }

  /** White space in a tag, after attributes or not. */
  function Gap(atts: bool): State { if atts then AttSpace else TagSpace }

  lemma GapEnds(enc: Encoding, ns: bool, w: Bytes, k: nat, atts: bool)
    requires k < |w| && !IsBlank(w[k]) && !MayOpen(enc, w, k) && IsUtf8(enc, ns)
    ensures var q := Gap(atts);
      if w[k] == 0x3E then Gives(enc, w, k, q, Scan(TagToken(atts, false), k + 1))
      else if w[k] == 0x2F then Comes(enc, w, k, q, k + 1, TagSlash(atts))
      else !Ends(enc, w, k, q)
  {
    hide IsUtf8, ScanFrom, NmstrtClass;
    TypeAt(enc, ns, w[k]);
    ScanStep(enc, w, k, Gap(atts));
  }

  // start tags, from their text

  /** Behind the name of the tag, or behind an attribute. */
  predicate BeforeGap(q: State) { q.TagName? || q.AttQuoted? }

  lemma GapOpens(enc: Encoding, ns: bool, w: Bytes, p: nat, q: State)
    requires p < |w| && IsBlank(w[p]) && BeforeGap(q) && IsUtf8(enc, ns)
    ensures Comes(enc, w, p, q, p + 1, Gap(q.AttQuoted?))
  {
    hide IsUtf8, Comes, NameClass;
    if q.AttQuoted? {
      QuotedStep(enc, ns, w, p);
    } else {
      assert !NameChar(enc, ns, [w[p]]);
      NotInName(enc, ns, w, p);
      TagNameEnds(enc, ns, w, p, q.hadColon);
    }
  }

  lemma PassGap(enc: Encoding, ns: bool, w: Bytes, p: nat, s: Bytes, q: State)
    requires s != [] && Blanks(s) && Stands(w, p, s) && BeforeGap(q) && IsUtf8(enc, ns)
    ensures Comes(enc, w, p, q, p + |s|, Gap(q.AttQuoted?))
  {
    hide IsUtf8, Comes;
    Piece(w, p, s, 1);
    GapOpens(enc, ns, w, p, q);
    PassBlanks(enc, ns, w, p + 1, s[1..], Gap(q.AttQuoted?));
    ComesTwice(enc, w, p, q, p + 1, Gap(q.AttQuoted?), p + |s|, Gap(q.AttQuoted?));
  }

  /** The name of an attribute, with the `=` behind it. */
  lemma PassAttName(enc: Encoding, ns: bool, w: Bytes, p: nat, name: Bytes, before: Bytes, atts: bool)
    requires QName(enc, ns, name) && Blanks(before) && Stands(w, p, name) && Stands(w, p + |name|, before)
    requires Stands(w, p + |name| + |before|, [0x3D]) && IsUtf8(enc, ns)
    ensures Comes(enc, w, p, Gap(atts), p + |name| + |before| + 1, AttEquals)
  {
    hide IsUtf8, Comes, QName, NameClass;
    var k, l := p + |name|, p + |name| + |before|;
    var colon := PassQName(enc, ns, w, p, name, Gap(atts));
    StandsOne(w, l, 0x3D);
    Piece(w, k, before, 0);
    assert !NameChar(enc, ns, [w[k]]);
    NotInName(enc, ns, w, k);
    AttNameEnds(enc, ns, w, k, colon);
    ComesTwice(enc, w, p, Gap(atts), k, AttName(colon), k + 1, if before == [] then AttEquals else AttNameSpace);
    if before != [] {
      Piece(w, k, before, 1);
      PassBlanks(enc, ns, w, k + 1, before[1..], AttNameSpace);
      NameSpaceEnds(enc, ns, w, l);
      ComesTwice(enc, w, p, Gap(atts), k + 1, AttNameSpace, l, AttNameSpace);
      ComesTwice(enc, w, p, Gap(atts), l, AttNameSpace, l + 1, AttEquals);
    }
  }

  /** The value of an attribute, with the white space before it. */
  lemma PassAttValue(enc: Encoding, ns: bool, w: Bytes, p: nat, after: Bytes, quote: Byte, text: Bytes)
    requires Blanks(after) && IsQuote(quote) && AttText(enc, ns, quote, text) && Stands(w, p, after)
    requires var k := p + |after|;
      Stands(w, k, [quote]) && Stands(w, k + 1, text) && Stands(w, k + 1 + |text|, [quote])
    requires IsUtf8(enc, ns)
    ensures Comes(enc, w, p, AttEquals, p + |after| + |text| + 2, AttQuoted)
  {
    hide IsUtf8, Comes, AttText;
    var k, q := p + |after|, AttValue(enc.byteType(quote));
    var l := k + 1 + |text|;
    StandsOne(w, k, quote);
    StandsOne(w, l, quote);
    PassBlanks(enc, ns, w, p, after, AttEquals);
    EqualsEnds(enc, ns, w, k);
    PassValue(enc, ns, w, k + 1, l, quote);
    ValueStep(enc, ns, w, l, quote);
    ComesTwice(enc, w, p, AttEquals, k, AttEquals, k + 1, q);
    ComesTwice(enc, w, p, AttEquals, k + 1, q, l, q);
    ComesTwice(enc, w, p, AttEquals, l, q, l + 1, AttQuoted);
  }

  /** Where the parts of an attribute stand. */
  predicate AttStands(w: Bytes, p: nat, a: AttForm) {
    var n := p + |a.space|;
    var k := n + |a.name| + |a.before|;
    var v := k + 1 + |a.after|;
    && Stands(w, p, a.space) && Stands(w, n, a.name) && Stands(w, n + |a.name|, a.before) && Stands(w, k, [0x3D])
    && Stands(w, k + 1, a.after) && Stands(w, v, [a.quote]) && Stands(w, v + 1, a.text)
    && Stands(w, v + 1 + |a.text|, [a.quote])
  }

  lemma AttIsThere(w: Bytes, p: nat, a: AttForm)
    ensures Stands(w, p, PrintAtt(a)) <==> AttStands(w, p, a)
  {
    hide Stands;
    var s1 := a.space + a.name;
    var s2 := s1 + a.before;
    var s3 := s2 + [0x3D];
    var s4 := s3 + a.after;
    var s5 := s4 + [a.quote];
    var s6 := s5 + a.text;
    StandsJoin(w, p, a.space, a.name);
    StandsJoin(w, p, s1, a.before);
    StandsJoin(w, p, s2, [0x3D]);
    StandsJoin(w, p, s3, a.after);
    StandsJoin(w, p, s4, [a.quote]);
    StandsJoin(w, p, s5, a.text);
    StandsJoin(w, p, s6, [a.quote]);
    assert PrintAtt(a) == s6 + [a.quote];
  }

  lemma PassAtt(enc: Encoding, ns: bool, w: Bytes, p: nat, a: AttForm, q: State)
    requires AttOk(enc, ns, a) && Stands(w, p, PrintAtt(a)) && BeforeGap(q) && IsUtf8(enc, ns)
    ensures Comes(enc, w, p, q, p + |PrintAtt(a)|, AttQuoted)
  {
    hide IsUtf8, Comes, Stands, QName, AttText;
    AttIsThere(w, p, a);
    var n := p + |a.space|;
    var k := n + |a.name| + |a.before| + 1;
    var g := Gap(q.AttQuoted?);
    PassGap(enc, ns, w, p, a.space, q);
    PassAttName(enc, ns, w, n, a.name, a.before, q.AttQuoted?);
    PassAttValue(enc, ns, w, k, a.after, a.quote, a.text);
    ComesTwice(enc, w, p, q, n, g, k, AttEquals);
    ComesTwice(enc, w, p, q, k, AttEquals, p + |PrintAtt(a)|, AttQuoted);
  }

  lemma {:induction false} PassAtts(enc: Encoding, ns: bool, w: Bytes, p: nat, atts: seq<AttForm>, q: State)
    requires AttsOk(enc, ns, atts) && Stands(w, p, PrintAtts(atts)) && BeforeGap(q) && IsUtf8(enc, ns)
    ensures Comes(enc, w, p, q, p + |PrintAtts(atts)|, if atts == [] then q else AttQuoted)
    decreases |atts|
  {
    hide IsUtf8, Comes, AttOk;
    if atts == [] {
      StaysThere(enc, w, p, q);
    } else {
      var n := |PrintAtt(atts[0])|;
      StandsJoin(w, p, PrintAtt(atts[0]), PrintAtts(atts[1..]));
      PassAtt(enc, ns, w, p, atts[0], q);
      PassAtts(enc, ns, w, p + n, atts[1..], AttQuoted);
      ComesTwice(enc, w, p, q, p + n, AttQuoted, p + |PrintAtts(atts)|, AttQuoted);
    }
  }

  /** The end of a tag behind its attributes. */
  lemma PassTagEnd(enc: Encoding, ns: bool, w: Bytes, p: nat, s: Bytes, empty: bool, q: State)
    requires Blanks(s) && Stands(w, p, s) && Stands(w, p + |s|, Close(empty)) && BeforeGap(q) && IsUtf8(enc, ns)
    ensures Gives(enc, w, p, q, Scan(TagToken(q.AttQuoted?, empty), p + |s| + |Close(empty)|))
  {
    hide IsUtf8, ScanFrom, NameClass, NmstrtClass;
    var k, b := p + |s|, Close(empty)[0];
    Piece(w, k, Close(empty), 1);
    if empty {
      StandsOne(w, k + 1, 0x3E);
      assert Close(empty)[1..] == [0x3E];
      SlashStep(enc, ns, w, k + 1, q.AttQuoted?);
    }
    if s == [] {
      if q.AttQuoted? {
        QuotedStep(enc, ns, w, k);
      } else {
        assert !NameChar(enc, ns, [w[k]]);
        NotInName(enc, ns, w, k);
        TagNameEnds(enc, ns, w, k, q.hadColon);
      }
    } else {
      PassGap(enc, ns, w, p, s, q);
      assert !NameStartChar(enc, ns, [w[k]]);
      HashOpensNothing(enc, ns, w, k);
      GapEnds(enc, ns, w, k, q.AttQuoted?);
    }
  }

  /** A start tag is scanned as one. */
  lemma TagIsToken(enc: Encoding, ns: bool, w: Bytes, t: TagForm)
    requires TagOk(enc, ns, t) && PrintTag(t) <= w && IsUtf8(enc, ns)
    ensures Gives(enc, w, 1, AfterLt, Scan(TagToken(t.atts != [], t.empty), |PrintTag(t)|))
  {
    hide IsUtf8, ScanFrom, QName, AttsOk, Stands;
    var p := 1 + |t.name|;
    var k := p + |PrintAtts(t.atts)|;
    TagStands(w, t);
    var colon := PassQName(enc, ns, w, 1, t.name, AfterLt);
    PassAtts(enc, ns, w, p, t.atts, TagName(colon));
    PassTagEnd(enc, ns, w, k, t.space, t.empty, if t.atts == [] then TagName(colon) else AttQuoted);
  }

  lemma TagStands(w: Bytes, t: TagForm)
    requires PrintTag(t) <= w
    ensures var p := 1 + |t.name|; var k := p + |PrintAtts(t.atts)|;
      && Stands(w, 1, t.name) && Stands(w, p, PrintAtts(t.atts)) && Stands(w, k, t.space)
      && Stands(w, k + |t.space|, Close(t.empty))
  {
    hide Stands, PrintAtts;
    WholeStands(w, PrintTag(t));
    var s1 := [0x3C] + t.name;
    var s2 := s1 + PrintAtts(t.atts);
    var s3 := s2 + t.space;
    StandsJoin(w, 0, s3, Close(t.empty));
    StandsJoin(w, 0, s2, t.space);
    StandsJoin(w, 0, s1, PrintAtts(t.atts));
    StandsJoin(w, 0, [0x3C], t.name);
    assert PrintTag(t) == s3 + Close(t.empty);
  }

  lemma WholeStands(w: Bytes, x: Bytes)
    ensures x <= w <==> Stands(w, 0, x)
  {
    if |x| <= |w| { assert w[0..0 + |x|] == w[..|x|]; }
  }

  // start tags, from their tokens

  /** A name and the `=` behind it, up to `l`. */
  lemma AttNameThere(enc: Encoding, ns: bool, w: Bytes, p: nat, atts: bool) returns (k: nat, l: nat)
    requires Ends(enc, w, p, Gap(atts)) && MayOpen(enc, w, p) && IsUtf8(enc, ns)
    ensures p < k <= l < |w| && QName(enc, ns, w[p..k]) && Blanks(w[k..l]) && w[l] == 0x3D
    ensures Comes(enc, w, p, Gap(atts), l + 1, AttEquals)
  {
    hide IsUtf8, ScanFrom, QName, NameClass, NmstrtClass;
    var colon;
    k, colon := QNameThere(enc, ns, w, p, Gap(atts));
    AttNameEnds(enc, ns, w, k, colon);
    l := k;
    if w[k] != 0x3D {
      l := BlanksThere(enc, ns, w, k + 1, AttNameSpace);
      NameSpaceEnds(enc, ns, w, l);
      assert w[k..l] == [w[k]] + w[k + 1..l];
    }
  }

  /** White space up to `k`, and a quoted value that ends at `l`. */
  lemma AttValueThere(enc: Encoding, ns: bool, w: Bytes, p: nat) returns (k: nat, l: nat)
    requires Ends(enc, w, p, AttEquals) && IsUtf8(enc, ns)
    ensures p <= k < l < |w| && Blanks(w[p..k]) && IsQuote(w[k]) && AttText(enc, ns, w[k], w[k + 1..l]) && w[l] == w[k]
    ensures Comes(enc, w, p, AttEquals, l + 1, AttQuoted)
  {
    hide IsUtf8, ScanFrom, AttText;
    k := BlanksThere(enc, ns, w, p, AttEquals);
    EqualsEnds(enc, ns, w, k);
    l := ValueThere(enc, ns, w, k + 1, w[k]);
  }

  lemma SliceStands(w: Bytes, p: nat, k: nat)
    requires p <= k <= |w|
    ensures Stands(w, p, w[p..k]) && (p < k ==> w[p..k] != []) && |w[p..k]| == k - p
  {
  }

  /** An attribute at `p` behind white space that begins at `s`. */
  lemma AttThere(enc: Encoding, ns: bool, w: Bytes, s: nat, p: nat, atts: bool) returns (a: AttForm)
    requires s < p && Ends(enc, w, p, Gap(atts)) && MayOpen(enc, w, p) && Blanks(w[s..p]) && IsUtf8(enc, ns)
    ensures AttOk(enc, ns, a) && AttStands(w, s, a) && |PrintAtt(a)| > 0
    ensures Comes(enc, w, p, Gap(atts), s + |PrintAtt(a)|, AttQuoted)
  {
    hide IsUtf8, ScanFrom, QName, AttText, NmstrtClass, Stands;
    var k, l := AttNameThere(enc, ns, w, p, atts);
    var m, n := AttValueThere(enc, ns, w, l + 1);
    a := AttForm(w[s..p], w[p..k], w[k..l], w[l + 1..m], w[m], w[m + 1..n]);
    SliceStands(w, s, p);
    SliceStands(w, p, k);
    SliceStands(w, k, l);
    SliceStands(w, l + 1, m);
    SliceStands(w, m + 1, n);
    StandsOne(w, l, 0x3D);
    StandsOne(w, m, w[m]);
    StandsOne(w, n, w[m]);
  }

  /** The rest of a tag behind its name or an attribute. */
  predicate RestStands(w: Bytes, p: nat, atts: seq<AttForm>, space: Bytes, empty: bool) {
    Stands(w, p, PrintAtts(atts) + (space + Close(empty)))
  }

  function RestSize(atts: seq<AttForm>, space: Bytes, empty: bool): nat { |PrintAtts(atts)| + |space| + |Close(empty)| }

  /** The end of a tag that begins with the byte at `k`, behind white space that begins at `p`. */
  lemma CloseThere(enc: Encoding, ns: bool, w: Bytes, p: nat, k: nat, q: State, atts: bool) returns (empty: bool)
    requires p <= k < |w| && Blanks(w[p..k]) && Ends(enc, w, k, q) && IsUtf8(enc, ns)
    requires if w[k] == 0x3E then Gives(enc, w, k, q, Scan(TagToken(atts, false), k + 1))
      else w[k] == 0x2F && Comes(enc, w, k, q, k + 1, TagSlash(atts))
    ensures RestStands(w, p, [], w[p..k], empty)
    ensures Gives(enc, w, k, q, Scan(TagToken(atts, empty), p + RestSize([], w[p..k], empty)))
  {
    hide IsUtf8, ScanFrom, Stands;
    empty := w[k] == 0x2F;
    SliceStands(w, p, k);
    StandsOne(w, k, w[k]);
    if empty {
      if k + 1 < |w| { SlashStep(enc, ns, w, k + 1, atts); } else { NothingThere(enc, w, TagSlash(atts)); }
      StandsOne(w, k + 1, 0x3E);
      StandsJoin(w, k, [0x2F], [0x3E]);
      assert [0x2F] + [0x3E] == Close(true);
    }
    StandsJoin(w, p, w[p..k], Close(empty));
    assert [] + (w[p..k] + Close(empty)) == w[p..k] + Close(empty);
  }

  lemma NothingThere(enc: Encoding, w: Bytes, q: State)
    requires At(q, |w|)
    ensures !Ends(enc, w, |w|, q)
  {
    hide ScanFrom;
  }

  lemma {:induction false} TagRestThere(enc: Encoding, ns: bool, w: Bytes, p: nat, q: State)
    returns (atts: seq<AttForm>, space: Bytes, empty: bool)
    requires Ends(enc, w, p, q) && BeforeGap(q) && (q.TagName? ==> NameOver(enc, w, p)) && IsUtf8(enc, ns)
    ensures AttsOk(enc, ns, atts) && Blanks(space) && RestStands(w, p, atts, space, empty)
    ensures Gives(enc, w, p, q, Scan(TagToken(q.AttQuoted? || atts != [], empty), p + RestSize(atts, space, empty)))
    decreases |w| - p
  {
    hide IsUtf8, ScanFrom, AttOk, NameClass, NmstrtClass, RestStands, Stands, PrintAtt;
    atts, space := [], [];
    var had := q.AttQuoted?;
    if p == |w| { NothingThere(enc, w, q); }
    if had { QuotedStep(enc, ns, w, p); } else { TagNameEnds(enc, ns, w, p, q.hadColon); }
    assert w[p..p] == [];
    if !IsBlank(w[p]) {
      empty := CloseThere(enc, ns, w, p, p, q, had);
      return;
    }
    var k := BlanksThere(enc, ns, w, p + 1, Gap(had));
    assert w[p..k] == [w[p]] + w[p + 1..k];
    if !MayOpen(enc, w, k) {
      GapEnds(enc, ns, w, k, had);
      empty := CloseThere(enc, ns, w, p, k, Gap(had), had);
      space := w[p..k];
    } else {
      var a := AttThere(enc, ns, w, p, k, had);
      var e := p + |PrintAtt(a)|;
      var rest;
      rest, space, empty := TagRestThere(enc, ns, w, e, AttQuoted);
      atts := [a] + rest;
      AttsJoin(w, p, a, rest, space, empty);
    }
  }

  lemma AttsJoin(w: Bytes, p: nat, a: AttForm, rest: seq<AttForm>, space: Bytes, empty: bool)
    requires AttStands(w, p, a) && RestStands(w, p + |PrintAtt(a)|, rest, space, empty)
    ensures RestStands(w, p, [a] + rest, space, empty)
    ensures RestSize([a] + rest, space, empty) == |PrintAtt(a)| + RestSize(rest, space, empty)
  {
    hide Stands, PrintAtt, AttStands;
    AttIsThere(w, p, a);
    var end := space + Close(empty);
    assert ([a] + rest)[1..] == rest;
    StandsJoin(w, p, PrintAtt(a), PrintAtts(rest) + end);
    assert PrintAtt(a) + (PrintAtts(rest) + end) == PrintAtts([a] + rest) + end;
  }

  lemma TagThere(enc: Encoding, ns: bool, w: Bytes) returns (t: TagForm)
    requires w != [] && w[0] == 0x3C && Ends(enc, w, 1, AfterLt) && MayOpen(enc, w, 1) && IsUtf8(enc, ns)
    ensures TagOk(enc, ns, t) && PrintTag(t) <= w
    ensures Gives(enc, w, 1, AfterLt, Scan(TagToken(t.atts != [], t.empty), |PrintTag(t)|))
  {
    hide IsUtf8, ScanFrom, QName, AttsOk, NameClass, NmstrtClass, Stands, PrintAtts;
    var k, colon := QNameThere(enc, ns, w, 1, AfterLt);
    var atts, space, empty := TagRestThere(enc, ns, w, k, TagName(colon));
    t := TagForm(w[1..k], atts, space, empty);
    SliceStands(w, 1, k);
    StandsOne(w, 0, 0x3C);
    StandsJoin(w, 0, [0x3C], t.name);
    StandsJoin(w, 0, [0x3C] + t.name, PrintAtts(atts) + (space + Close(empty)));
    assert [0x3C] + t.name + (PrintAtts(atts) + (space + Close(empty))) == PrintTag(t);
    WholeStands(w, PrintTag(t));
  }

  // ----- the tokens of content -----

  lemma ContentStarts(enc: Encoding, ns: bool, w: Bytes)
    requires w != [] && IsUtf8(enc, ns)
    ensures w[0] == 0x3C ==> Gives(enc, w, 1, AfterLt, ContentTok(enc, w))
    ensures w[0] == 0x26 ==> Gives(enc, w, 1, RefStart(InContent), ContentTok(enc, w))
    ensures w[0] != 0x3C && w[0] != 0x26 ==> ContentTok(enc, w).tok.Data() || !Complete(ContentTok(enc, w))
  {
    hide IsUtf8, ScanFrom, DataRun;
    TypeAt(enc, ns, w[0]);
  }

  lemma LtStep(enc: Encoding, ns: bool, w: Bytes)
    requires |w| > 1 && !MayOpen(enc, w, 1) && IsUtf8(enc, ns)
    ensures if w[1] == 0x21 then Comes(enc, w, 1, AfterLt, 2, AfterExcl)
      else if w[1] == 0x3F then Comes(enc, w, 1, AfterLt, 2, PiStart)
      else if w[1] == 0x2F then Comes(enc, w, 1, AfterLt, 2, EndTagStart)
      else !Ends(enc, w, 1, AfterLt)
  {
    hide IsUtf8, ScanFrom, NmstrtClass, Next;
    TypeAt(enc, ns, w[1]);
    RowLeads(enc, w, 1, AfterLt);
  }

  lemma ExclStep(enc: Encoding, ns: bool, w: Bytes)
    requires |w| > 2 && IsUtf8(enc, ns)
    ensures if w[2] == 0x2D && |w| > 3 && w[3] == 0x2D then Comes(enc, w, 2, AfterExcl, 4, InComment)
      else if w[2] == 0x5B then Comes(enc, w, 2, AfterExcl, 3, CdataKeyword)
      else !Ends(enc, w, 2, AfterExcl)
  {
    hide IsUtf8, ScanFrom, Next;
    TypeAt(enc, ns, w[2]);
    RowLeads(enc, w, 2, AfterExcl);
    if |w| > 3 { DashStep(enc, w, 3); }
  }

  lemma DashStep(enc: Encoding, w: Bytes, p: nat)
    requires p < |w|
    ensures if w[p] == 0x2D then Comes(enc, w, p, CommentDash, p + 1, InComment) else !Ends(enc, w, p, CommentDash)
  {
    hide ScanFrom;
    ScanStep(enc, w, p, CommentDash);
  }

  /** Bytes of markup begin no name. */
  lemma MarkupOpensNothing(enc: Encoding, ns: bool, w: Bytes)
    requires |w| > 1 && (w[1] == 0x21 || w[1] == 0x3F || w[1] == 0x2F) && IsUtf8(enc, ns)
    ensures !MayOpen(enc, w, 1)
  {
    hide MayOpen;
    HashOpensNothing(enc, ns, w, 1);
  }

  lemma ThroughExcl(enc: Encoding, ns: bool, w: Bytes)
    requires |w| > 2 && w[0] == 0x3C && w[1] == 0x21 && IsUtf8(enc, ns)
    ensures Gives(enc, w, 2, AfterExcl, ContentTok(enc, w))
  {
    hide IsUtf8, ScanFrom, MayOpen, ContentTok;
    ContentStarts(enc, ns, w);
    MarkupOpensNothing(enc, ns, w);
    LtStep(enc, ns, w);
  }

  /** A comment is scanned as one. */
  lemma CommentIsToken(enc: Encoding, ns: bool, w: Bytes, n: nat)
    requires n <= |w| && IsComment(w[..n]) && IsUtf8(enc, ns)
    ensures ContentTok(enc, w) == Scan(TokComment, n)
  {
    hide IsUtf8, ScanFrom, ContentTok, Chars;
    var x, k := w[..n], n - 3;
    assert x[..4] == w[..4] && w[..4][0] == w[0] && w[..4][1] == w[1] && w[..4][2] == w[2] && w[..4][3] == w[3];
    assert x[k..] == w[k..n] && w[k..n][0] == w[k] && w[k..n][1] == w[k + 1] && w[k..n][2] == w[k + 2];
    assert x[4..k] == w[4..k];
    assert forall i :: 4 <= i < n ==> x[i] == w[i];
    ThroughExcl(enc, ns, w);
    ExclStep(enc, ns, w);
    PassComment(enc, ns, w, 4, k);
  }

  /** The opening of a CDATA section is scanned as one. */
  lemma CdataIsToken(enc: Encoding, ns: bool, w: Bytes)
    requires OpensCdata(w) && IsUtf8(enc, ns)
    ensures ContentTok(enc, w) == Scan(TokCdataSectOpen, 9)
  {
    hide IsUtf8, ScanFrom, ContentTok;
    assert w[..9][0] == w[0] && w[..9][1] == w[1] && w[..9][2] == w[2];
    assert w[3..3 + 6] == w[..9][3..];
    ThroughExcl(enc, ns, w);
    ExclStep(enc, ns, w);
    CdataScan(enc, w, 3);
  }

  lemma ExclToken(enc: Encoding, ns: bool, w: Bytes)
    requires |w| > 1 && w[0] == 0x3C && w[1] == 0x21 && Ends(enc, w, 2, AfterExcl) && IsUtf8(enc, ns)
    ensures var r := ScanFrom(enc, w, 2, AfterExcl);
      && r.next <= |w|
      && ((r.tok == TokComment && IsComment(w[..r.next])) || (r == Scan(TokCdataSectOpen, 9) && OpensCdata(w)))
  {
    hide IsUtf8, ScanFrom, Chars;
    if |w| == 2 { NothingThere(enc, w, AfterExcl); }
    ExclStep(enc, ns, w);
    if w[2] == 0x2D {
      var k := CommentThere(enc, ns, w, 4);
      var x := w[..k + 3];
      assert x[..4] == [w[0], w[1], w[2], w[3]] && x[k..] == [w[k], w[k + 1], w[k + 2]] && x[4..k] == w[4..k];
    } else {
      CdataScan(enc, w, 3);
      assert w[..9] == [w[0], w[1], w[2]] + w[3..3 + 6];
    }
  }

  /** A processing instruction is scanned as one. */
  lemma PiIsToken(enc: Encoding, ns: bool, w: Bytes, n: nat, tok: Token)
    requires n <= |w| && IsPi(enc, ns, w[..n], tok) && IsUtf8(enc, ns)
    ensures ContentTok(enc, w) == Scan(tok, n)
  {
    hide IsUtf8, ScanFrom, ContentTok, NcName, Chars, MayOpen;
    var x, l := w[..n], n - 2;
    var k :| 2 < k <= |x| - 2 && NcName(enc, ns, x[2..k]) && TargetOf(x[2..k], tok) && PiRest(x, k);
    assert x[..2][0] == w[0] && x[..2][1] == w[1];
    assert x[l..][0] == w[l] && x[l..][1] == w[l + 1];
    assert x[2..k] == w[2..k] && (k < l ==> x[k + 1..l] == w[k + 1..l]);
    assert forall i :: 0 <= i < n ==> x[i] == w[i];
    ContentStarts(enc, ns, w);
    MarkupOpensNothing(enc, ns, w);
    LtStep(enc, ns, w);
    PassPiFrom(enc, ns, w, 2, k, l);
  }

  lemma PiToken(enc: Encoding, ns: bool, w: Bytes)
    requires |w| > 1 && w[0] == 0x3C && w[1] == 0x3F && Ends(enc, w, 2, PiStart) && IsUtf8(enc, ns)
    ensures var r := ScanFrom(enc, w, 2, PiStart);
      r.next <= |w| && (r.tok == TokPi || r.tok == TokXmlDecl) && IsPi(enc, ns, w[..r.next], r.tok)
  {
    hide IsUtf8, ScanFrom, NcName, Chars;
    var k, l := PiThereFrom(enc, ns, w, 2);
    var x := w[..l + 2];
    assert x[..2] == [w[0], w[1]] && x[l..] == [w[l], w[l + 1]];
    assert x[2..k] == w[2..k] && (k < l ==> x[k + 1..l] == w[k + 1..l]);
    assert PiRest(x, k);
  }

  /** An end tag is scanned as one. */
  lemma EndTagIsToken(enc: Encoding, ns: bool, w: Bytes, n: nat)
    requires n <= |w| && IsEndTag(enc, ns, w[..n]) && IsUtf8(enc, ns)
    ensures ContentTok(enc, w) == Scan(TokEndTag, n)
  {
    hide IsUtf8, ScanFrom, ContentTok, EndParts, NameStartChar, MayOpen, NmstrtClass;
    var x := w[..n];
    var k :| 2 < k < |x| && EndName(enc, ns, x[2..k]) && Blanks(x[k..|x| - 1]);
    assert x[..2][0] == w[0] && x[..2][1] == w[1];
    assert x[2..k] == w[2..k] && x[k..n - 1] == w[k..n - 1];
    ContentStarts(enc, ns, w);
    MarkupOpensNothing(enc, ns, w);
    LtStep(enc, ns, w);
    var m := Size(w[2]);
    PieceIn(w, 2, m, k);
    NmstrtClassIs(enc, ns, w, 2);
    NameOpens(enc, w, 2, EndTagStart);
    PassEndTag(enc, ns, w, 2 + m, k, n - 1);
  }

  lemma EndTagToken(enc: Encoding, ns: bool, w: Bytes)
    requires |w| > 1 && w[0] == 0x3C && w[1] == 0x2F && Ends(enc, w, 2, EndTagStart) && IsUtf8(enc, ns)
    ensures var r := ScanFrom(enc, w, 2, EndTagStart);
      r.next <= |w| && r.tok == TokEndTag && IsEndTag(enc, ns, w[..r.next])
  {
    hide IsUtf8, ScanFrom, EndParts, NameStartChar, NmstrtClass;
    MustOpen(enc, w, 2, EndTagStart);
    NmstrtClassIs(enc, ns, w, 2);
    NameOpens(enc, w, 2, EndTagStart);
    var m := Size(w[2]);
    var k, l := EndTagThere(enc, ns, w, 2 + m);
    PieceIn(w, 2, m, k);
    var x := w[..l + 1];
    assert x[..2] == [w[0], w[1]] && x[2..k] == w[2..k] && x[k..l] == w[k..l];
    assert EndName(enc, ns, x[2..k]);
  }

  /** A reference is scanned as one. */
  lemma RefIsToken(enc: Encoding, ns: bool, w: Bytes, n: nat)
    requires n <= |w| && IsRef(enc, ns, w[..n]) && IsUtf8(enc, ns)
    ensures ContentTok(enc, w) == Scan(if IsEntityRef(enc, ns, w[..n]) then TokEntityRef else TokCharRef, n)
  {
    hide IsUtf8, ScanFrom, ContentTok, NcName;
    var x := w[..n];
    assert x == w[0..0 + n] && x[0] == w[0] && x[n - 1] == w[n - 1] && x[1..n - 1] == w[1..n - 1];
    ContentStarts(enc, ns, w);
    if IsEntityRef(enc, ns, x) {
      PassEntityRef(enc, ns, w, 1, n - 1);
    } else {
      RefTextAt(w, 0, n);
      PassCharRef(enc, ns, w, 1, n - 1);
    }
  }

  lemma RefToken(enc: Encoding, ns: bool, w: Bytes)
    requires w != [] && w[0] == 0x26 && Ends(enc, w, 1, RefStart(InContent)) && IsUtf8(enc, ns)
    ensures var r := ScanFrom(enc, w, 1, RefStart(InContent));
      && r.next <= |w|
      && if r.tok == TokEntityRef then IsEntityRef(enc, ns, w[..r.next])
         else r.tok == TokCharRef && IsCharRefText(w[..r.next])
  {
    hide IsUtf8, ScanFrom, NcName;
    var k := RefThere(enc, ns, w, 1);
    var x := w[..k + 1];
    assert x[0] == w[0] && x[k] == w[k] && x[1..k] == w[1..k];
    if CharRefAt(w, 1, k) {
      assert x[1] == w[1] && x[2] == w[2] && x[2..k] == w[2..k] && x[3..k] == w[3..k];
    }
  }

  // ----- exactly which bytes are which token -----

  /** The bytes of a token of markup, by its kind. */
  ghost predicate Production(enc: Encoding, ns: bool, tok: Token, x: Bytes) {
    match tok
    case TokComment => IsComment(x)
    case TokCdataSectOpen => x == [0x3C, 0x21, 0x5B, 0x43, 0x44, 0x41, 0x54, 0x41, 0x5B]
    case TokPi => IsPi(enc, ns, x, TokPi)
    case TokXmlDecl => IsPi(enc, ns, x, TokXmlDecl)
    case TokEndTag => IsEndTag(enc, ns, x)
    case TokEntityRef => IsEntityRef(enc, ns, x)
    case TokCharRef => IsCharRefText(x)
    case _ => exists t: TagForm :: TagOk(enc, ns, t) && PrintTag(t) == x && tok == TagToken(t.atts != [], t.empty)
  }

  predicate IsMarkup(tok: Token) {
    || tok.TokComment? || tok.TokCdataSectOpen? || tok.TokPi? || tok.TokXmlDecl? || tok.TokEndTag?
    || tok.TokEntityRef? || tok.TokCharRef? || IsTag(tok)
  }

  lemma LtToken(enc: Encoding, ns: bool, w: Bytes)
    requires w != [] && w[0] == 0x3C && Ends(enc, w, 1, AfterLt) && IsUtf8(enc, ns)
    ensures var r := ScanFrom(enc, w, 1, AfterLt);
      r.next <= |w| && IsMarkup(r.tok) && Production(enc, ns, r.tok, w[..r.next])
  {
    hide IsUtf8, ScanFrom, MayOpen, IsComment, IsPi, IsEndTag, TagOk, PrintTag;
    if |w| == 1 { NothingThere(enc, w, AfterLt); }
    if MayOpen(enc, w, 1) {
      var t := TagThere(enc, ns, w);
      assert w[..|PrintTag(t)|] == PrintTag(t);
    } else {
      LtStep(enc, ns, w);
      if w[1] == 0x21 {
        ExclToken(enc, ns, w);
      } else if w[1] == 0x3F {
        PiToken(enc, ns, w);
      } else {
        EndTagToken(enc, ns, w);
      }
    }
  }

  /** Every token of markup is one of the productions. */
  lemma TokenHasForm(enc: Encoding, ns: bool, w: Bytes)
    requires IsMarkup(ContentTok(enc, w).tok) && IsUtf8(enc, ns)
    ensures var r := ContentTok(enc, w); r.next <= |w| && Production(enc, ns, r.tok, w[..r.next])
  {
    hide IsUtf8, ScanFrom, Production;
    if w != [] {
      ContentStarts(enc, ns, w);
      if w[0] == 0x3C {
        LtToken(enc, ns, w);
      } else if w[0] == 0x26 {
        RefToken(enc, ns, w);
        RefProduction(enc, ns, ContentTok(enc, w).tok, w[..ContentTok(enc, w).next]);
      }
    }
  }

  lemma RefProduction(enc: Encoding, ns: bool, tok: Token, x: Bytes)
    requires if tok == TokEntityRef then IsEntityRef(enc, ns, x) else tok == TokCharRef && IsCharRefText(x)
    ensures Production(enc, ns, tok, x)
  {
  }

  /** Every production at the start of the input is the token. */
  lemma FormIsToken(enc: Encoding, ns: bool, w: Bytes, tok: Token, n: nat)
    requires n <= |w| && IsMarkup(tok) && Production(enc, ns, tok, w[..n]) && IsUtf8(enc, ns)
    ensures ContentTok(enc, w) == Scan(tok, n)
  {
    hide IsUtf8, ScanFrom, ContentTok, IsComment, IsPi, IsEndTag, TagOk, PrintTag, NcName;
    if IsTag(tok) {
      TagFormIsToken(enc, ns, w, tok, n);
    } else if tok == TokComment {
      CommentIsToken(enc, ns, w, n);
    } else if tok == TokCdataSectOpen {
      CdataIsToken(enc, ns, w);
    } else if tok == TokPi || tok == TokXmlDecl {
      PiIsToken(enc, ns, w, n, tok);
    } else if tok == TokEndTag {
      EndTagIsToken(enc, ns, w, n);
    } else {
      if tok == TokCharRef { NoNameHasHash(enc, ns, w[..n]); }
      RefIsToken(enc, ns, w, n);
    }
  }

  lemma TagFormIsToken(enc: Encoding, ns: bool, w: Bytes, tok: Token, n: nat)
    requires n <= |w| && IsTag(tok) && Production(enc, ns, tok, w[..n]) && IsUtf8(enc, ns)
    ensures ContentTok(enc, w) == Scan(tok, n)
  {
    hide IsUtf8, ScanFrom, ContentTok, TagOk, PrintTag;
    var t: TagForm :| TagOk(enc, ns, t) && PrintTag(t) == w[..n] && tok == TagToken(t.atts != [], t.empty);
    TagIsToken(enc, ns, w, t);
    TagOpens(t);
    assert w[0] == w[..n][0];
    ContentStarts(enc, ns, w);
  }

  lemma TagOpens(t: TagForm)
    ensures PrintTag(t) != [] && PrintTag(t)[0] == 0x3C
  {
    hide PrintAtts;
  }

  lemma NoNameHasHash(enc: Encoding, ns: bool, x: Bytes)
    requires IsCharRefText(x)
    ensures !IsEntityRef(enc, ns, x)
  {
    assert x[1..|x| - 1][0] == 0x23;
    assert x[1..|x| - 1][..1] == [0x23];
  }

  /**
   The token grammar of markup, on bytes: comments, openings of CDATA sections, processing instructions, tags and
   references are scanned exactly where they stand, up to their ends.
   */
  lemma TokenExactlyIf(enc: Encoding, ns: bool, w: Bytes, tok: Token, n: nat)
    requires IsMarkup(tok) && IsUtf8(enc, ns)
    ensures ContentTok(enc, w) == Scan(tok, n) <==> n <= |w| && Production(enc, ns, tok, w[..n])
  {
    hide IsUtf8, ContentTok, Production;
    if ContentTok(enc, w) == Scan(tok, n) { TokenHasForm(enc, ns, w); }
    if n <= |w| && Production(enc, ns, tok, w[..n]) { FormIsToken(enc, ns, w, tok, n); }
  }
}
