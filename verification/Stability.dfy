/**
 What more input can do to a token.

 A token that is complete stays what it is, whatever follows it.  Only a run of data characters may
 grow, and then the tokens of its two pieces are the pieces of its token.
 */
module Stability {
  import opened Encodings
  import opened Automaton

  /** A step that more input cannot change. */
  predicate Settled(s: Step) { s.Move? || !s.r.tok.Open() }

  lemma MarkupStable(enc: Encoding, w: Bytes, w2: Bytes, p: nat, q: State)
    requires w <= w2 && p < |w| && At(q, p) && !InTag(q) && !InRef(q)
    requires Settled(NextInMarkup(enc, w, p, q))
    ensures NextInMarkup(enc, w2, p, q) == NextInMarkup(enc, w, p, q)
  {
    LeadStable(enc, w, w2, p);
    if q.CdataKeyword? && p + 6 <= |w| { KeywordStable(w, w2, p, 0); }
  }

  lemma TagStable(enc: Encoding, w: Bytes, w2: Bytes, p: nat, q: State)
    requires w <= w2 && p < |w| && At(q, p) && InTag(q)
    requires Settled(NextInTag(enc, w, p, q))
    ensures NextInTag(enc, w2, p, q) == NextInTag(enc, w, p, q)
  {
    LeadStable(enc, w, w2, p);
  }

  lemma RefStable(enc: Encoding, w: Bytes, w2: Bytes, p: nat, q: State)
    requires w <= w2 && p < |w| && At(q, p) && InRef(q)
    requires Settled(NextInRef(enc, w, p, q))
    ensures NextInRef(enc, w2, p, q) == NextInRef(enc, w, p, q)
  {
    LeadStable(enc, w, w2, p);
  }

  /** One move looks at bytes that more input does not change. */
  lemma NextStable(enc: Encoding, w: Bytes, w2: Bytes, p: nat, q: State)
    requires w <= w2 && p < |w| && At(q, p) && Settled(Next(enc, w, p, q))
    ensures Next(enc, w2, p, q) == Next(enc, w, p, q)
  {
    if InRef(q) {
      RefStable(enc, w, w2, p, q);
    } else if InTag(q) {
      TagStable(enc, w, w2, p, q);
    } else {
      MarkupStable(enc, w, w2, p, q);
    }
  }

  lemma LeadStable(enc: Encoding, w: Bytes, w2: Bytes, p: nat)
    requires w <= w2 && p < |w|
    ensures w2[p] == w[p]
    ensures var n := LeadLength(enc.byteType(w[p])); p + n <= |w| ==> w2[p..p + n] == w[p..p + n]
  {
  }

  lemma {:induction false} KeywordStable(w: Bytes, w2: Bytes, p: nat, i: nat)
    requires w <= w2 && i <= 6 && p + 6 <= |w|
    ensures KeywordMatch(w2, p, i) == KeywordMatch(w, p, i)
    decreases 6 - i
  {
    if i < 6 { KeywordStable(w, w2, p, i + 1); }
  }

  ghost predicate MovesStable(next: Moves, w: Bytes, w2: Bytes) {
    forall p: nat, q: State :: p < |w| && At(q, p) && Settled(next(w, p, q))
                   ==> next(w2, p, q) == next(w, p, q)
  }

  lemma {:induction false} RunStable(next: Moves, w: Bytes, w2: Bytes, p: nat, q: State)
    requires AllSound(next) && w <= w2 && MovesStable(next, w, w2)
    requires p <= |w| && At(q, p) && !Run(next, w, p, q).tok.Open()
    ensures Run(next, w2, p, q) == Run(next, w, p, q)
    decreases |w| - p
  {
    hide Run, MovesStable, Settled, At;
    RunOnce(next, w, p, q);
    SettledStep(next, w, w2, p, q);
    RunOnce(next, w2, p, q);
    match next(w, p, q)
    case Move(n, q') => RunStable(next, w, w2, p + n, q');
    case Halt(_) =>
  }

  /** A run is its first step and the rest. */
  lemma RunOnce(next: Moves, w: Bytes, p: nat, q: State)
    requires AllSound(next) && p <= |w| && At(q, p) && (p == |w| || Sound(w, p, next(w, p, q)))
    ensures p == |w| ==> Run(next, w, p, q).tok.Open()
    ensures p < |w| ==>
      match next(w, p, q)
      case Move(n, q') => 0 < n && p + n <= |w| && At(q', p + n) && Run(next, w, p, q) == Run(next, w, p + n, q')
      case Halt(r) => Run(next, w, p, q) == r
  {
    hide At;
  }

  lemma SettledStep(next: Moves, w: Bytes, w2: Bytes, p: nat, q: State)
    requires AllSound(next) && w <= w2 && MovesStable(next, w, w2)
    requires p <= |w| && At(q, p) && !Run(next, w, p, q).tok.Open()
    ensures p < |w| && Sound(w, p, next(w, p, q)) && next(w2, p, q) == next(w, p, q) && Sound(w2, p, next(w2, p, q))
  {
    hide At;
    assert Sound(w, p, next(w, p, q));
  }

  lemma ContentMovesStable(enc: Encoding, w: Bytes, w2: Bytes)
    requires w <= w2
    ensures MovesStable(MovesOf(enc), w, w2)
  {
    var next := MovesOf(enc);
    forall p: nat, q: State | p < |w| && At(q, p) && Settled(next(w, p, q))
      ensures next(w2, p, q) == next(w, p, q)
    {
      NextStable(enc, w, w2, p, q);
    }
  }

  lemma ScanStable(enc: Encoding, w: Bytes, w2: Bytes, p: nat, q: State)
    requires w <= w2 && p <= |w| && At(q, p)
    requires !ScanFrom(enc, w, p, q).tok.Open()
    ensures ScanFrom(enc, w2, p, q) == ScanFrom(enc, w, p, q)
  {
    ContentMovesStable(enc, w, w2);
    RunStable(MovesOf(enc), w, w2, p, q);
  }

  /** A complete token that is not a run of data is the token of every longer input. */
  lemma ContentTokStable(enc: Encoding, w: Bytes, w2: Bytes)
    requires w <= w2
    requires var t := ContentTok(enc, w).tok; !t.Open() && t != TokDataChars
    ensures ContentTok(enc, w2) == ContentTok(enc, w)
  {
    var t := enc.byteType(w[0]);
    LeadStable(enc, w, w2, 0);
    if t == BtLt {
      ScanStable(enc, w, w2, 1, AfterLt);
    } else if t == BtAmp {
      ScanStable(enc, w, w2, 1, RefStart(InContent));
    } else if t == BtRsqb {
      if w[1] != ASCII_RSQB || w[2] != ASCII_GT { DataRunStable(enc, w, w2, 1); }
    } else if t != BtCr && t != BtLf {
      match CharClass(enc, w, 0)
      case In(n) => DataRunStable(enc, w, w2, n);
      case Out => DataRunStable(enc, w, w2, 1);
      case Stop(_) =>
    }
  }

  /** A step of a run, seen with more input or from a later start. */
  lemma DataStepStable(enc: Encoding, w: Bytes, w2: Bytes, p: nat)
    requires w <= w2 && p < |w|
    ensures var s := DataStep(enc, w, p);
      s == Done(Scan(TokDataChars, p)) || DataStep(enc, w2, p) == s
  {
    LeadStable(enc, w, w2, p);
  }

  lemma DataStepShift(enc: Encoding, w: Bytes, k: nat, p: nat)
    requires k + p < |w|
    ensures DataStep(enc, w, k + p) ==
      match DataStep(enc, w[k..], p)
      case More(n) => More(n)
      case Done(r) => Done(Scan(r.tok, k + r.next))
  {
    var n := LeadLength(enc.byteType(w[k + p]));
    if k + p + n <= |w| { assert w[k..][p..p + n] == w[k + p..k + p + n]; }
  }

  /** With more input a run of data goes on from where it stopped. */
  lemma {:induction false} DataRunStable(enc: Encoding, w: Bytes, w2: Bytes, p: nat)
    requires w <= w2 && p <= |w|
    ensures var r := DataRun(enc, w, p);
      DataRun(enc, w2, p) == if r.tok == TokInvalid then r else DataRun(enc, w2, r.next)
    decreases |w| - p
  {
    hide DataStep;
    if p < |w| {
      DataStepFits(enc, w, p);
      DataStepFits(enc, w2, p);
      DataStepStable(enc, w, w2, p);
      match DataStep(enc, w, p)
      case More(n) => DataRunStable(enc, w, w2, p + n);
      case Done(_) =>
    }
  }

  /** The run does not depend on where the token started. */
  lemma {:induction false} DataRunShift(enc: Encoding, w: Bytes, k: nat, p: nat)
    requires k + p <= |w|
    ensures var r := DataRun(enc, w[k..], p); DataRun(enc, w, k + p) == Scan(r.tok, k + r.next)
    decreases |w| - p
  {
    hide DataStep;
    if k + p < |w| {
      DataStepShift(enc, w, k, p);
      DataStepFits(enc, w, k + p);
      DataStepFits(enc, w[k..], p);
      match DataStep(enc, w[k..], p)
      case More(n) => DataRunShift(enc, w, k, p + n);
      case Done(_) =>
    }
  }

  /** A token that starts inside the data, where the run goes on, is the rest of the run. */
  lemma ContentTokInData(enc: Encoding, v: Bytes)
    requires v != [] && DataStep(enc, v, 0) != Done(Scan(TokDataChars, 0))
    ensures ContentTok(enc, v) == DataRun(enc, v, 0)
  {
  }

  /**
   A run of data that has got to `k` either ends there, or goes on exactly as the token that
   starts at `k`.
   */
  lemma DataRunIsToken(enc: Encoding, w: Bytes, k: nat)
    requires k <= |w|
    ensures var r := DataRun(enc, w, k);
      var t := ContentTok(enc, w[k..]);
      r == Scan(TokDataChars, k) || (t.tok == r.tok && k + t.next == r.next)
  {
    if k < |w| {
      DataStepShift(enc, w, k, 0);
      if DataStep(enc, w[k..], 0) != Done(Scan(TokDataChars, 0)) {
        ContentTokInData(enc, w[k..]);
        DataRunShift(enc, w, k, 0);
      }
    }
  }

  /** The token of data `w` begins with is the run that starts at 0. */
  lemma DataTokIsRun(enc: Encoding, w: Bytes)
    requires ContentTok(enc, w).tok == TokDataChars
    ensures w != [] && DataStep(enc, w, 0).More? && ContentTok(enc, w) == DataRun(enc, w, 0)
  {
  }

  /** The two ways a run of data can go on: its token is the data before `n` and the token from `n`. */
  lemma DataTokGrows(enc: Encoding, w: Bytes, w2: Bytes)
    requires w <= w2 && ContentTok(enc, w).tok == TokDataChars
    ensures var n := ContentTok(enc, w).next;
      var r := ContentTok(enc, w2);
      var t := ContentTok(enc, w2[n..]);
      r == Scan(TokDataChars, n)
        || ((r.tok.TokDataChars? || r.tok.TokInvalid?) && t.tok == r.tok && n + t.next == r.next)
  {
    var n := ContentTok(enc, w).next;
    DataTokIsRun(enc, w);
    DataStepStable(enc, w, w2, 0);
    ContentTokInData(enc, w2);
    DataRunStable(enc, w, w2, 0);
    DataRunIsToken(enc, w2, n);
  }

  // ----- CDATA sections -----

  lemma CdataStepStable(enc: Encoding, w: Bytes, w2: Bytes, p: nat)
    requires w <= w2 && p < |w|
    ensures CdataStep(enc, w, p) == 0 || CdataStep(enc, w2, p) == CdataStep(enc, w, p)
  {
    LeadStable(enc, w, w2, p);
  }

  lemma CdataStepFits(enc: Encoding, w: Bytes, p: nat)
    requires p < |w|
    ensures p + CdataStep(enc, w, p) <= |w|
  {
  }

  lemma CdataStepShift(enc: Encoding, w: Bytes, k: nat, p: nat)
    requires k + p < |w|
    ensures CdataStep(enc, w, k + p) == CdataStep(enc, w[k..], p)
  {
    var n := LeadLength(enc.byteType(w[k + p]));
    if k + p + n <= |w| { assert w[k..][p..p + n] == w[k + p..k + p + n]; }
  }

  lemma {:induction false} CdataRunStable(enc: Encoding, w: Bytes, w2: Bytes, p: nat)
    requires w <= w2 && p <= |w|
    ensures var k := CdataRun(enc, w, p); CdataRun(enc, w2, p) == CdataRun(enc, w2, k)
    decreases |w| - p
  {
    hide CdataStep;
    if p < |w| {
      CdataStepFits(enc, w, p);
      CdataStepFits(enc, w2, p);
      CdataStepStable(enc, w, w2, p);
      var n := CdataStep(enc, w, p);
      if n != 0 {
        CdataRunStable(enc, w, w2, p + n);
        assert CdataRun(enc, w, p) == CdataRun(enc, w, p + n);
        assert CdataRun(enc, w2, p) == CdataRun(enc, w2, p + n);
      }
    }
  }

  lemma {:induction false} CdataRunShift(enc: Encoding, w: Bytes, k: nat, p: nat)
    requires k + p <= |w|
    ensures CdataRun(enc, w, k + p) == k + CdataRun(enc, w[k..], p)
    decreases |w| - p
  {
    hide CdataStep;
    if k + p < |w| {
      CdataStepShift(enc, w, k, p);
      CdataStepFits(enc, w, k + p);
      CdataStepFits(enc, w[k..], p);
      var n := CdataStep(enc, w[k..], p);
      if n != 0 { CdataRunShift(enc, w, k, p + n); }
    }
  }

  lemma CdataTokInData(enc: Encoding, v: Bytes)
    requires v != [] && CdataStep(enc, v, 0) != 0
    ensures CdataSectionTok(enc, v) == Scan(TokDataChars, CdataRun(enc, v, 0))
  {
  }

  lemma CdataRunIsToken(enc: Encoding, w: Bytes, k: nat)
    requires k <= |w|
    ensures CdataRun(enc, w, k) == k
         || CdataSectionTok(enc, w[k..]) == Scan(TokDataChars, CdataRun(enc, w, k) - k)
  {
    if k < |w| {
      CdataStepShift(enc, w, k, 0);
      if CdataStep(enc, w[k..], 0) != 0 {
        CdataTokInData(enc, w[k..]);
        CdataRunShift(enc, w, k, 0);
      }
    }
  }

  /** Where the run of a data token goes on after its first character. */
  lemma CdataTokIsRun(enc: Encoding, w: Bytes, w2: Bytes) returns (k: nat)
    requires w <= w2 && CdataSectionTok(enc, w).tok == TokDataChars
    ensures 0 < k <= |w|
    ensures CdataSectionTok(enc, w) == Scan(TokDataChars, CdataRun(enc, w, k))
    ensures CdataSectionTok(enc, w2) == Scan(TokDataChars, CdataRun(enc, w2, k))
  {
    LeadStable(enc, w, w2, 0);
    k := match CharClass(enc, w, 0) case In(n) => n case _ => 1;
  }

  /** A complete token of a CDATA section that is not a run of data is the token of every longer input. */
  lemma CdataTokStable(enc: Encoding, w: Bytes, w2: Bytes)
    requires w <= w2
    requires var t := CdataSectionTok(enc, w).tok; !t.Open() && t != TokDataChars
    ensures CdataSectionTok(enc, w2) == CdataSectionTok(enc, w)
  {
    LeadStable(enc, w, w2, 0);
  }

  /** A run of data of a CDATA section that grows is the data before `n` and the token from `n`. */
  lemma CdataTokGrows(enc: Encoding, w: Bytes, w2: Bytes)
    requires w <= w2 && CdataSectionTok(enc, w).tok == TokDataChars
    ensures var n := CdataSectionTok(enc, w).next;
      var r := CdataSectionTok(enc, w2);
      var t := CdataSectionTok(enc, w2[n..]);
      r == Scan(TokDataChars, n) || (r.tok == t.tok == TokDataChars && n + t.next == r.next)
  {
    var k := CdataTokIsRun(enc, w, w2);
    CdataRunStable(enc, w, w2, k);
    CdataRunIsToken(enc, w2, CdataRun(enc, w, k));
  }

  // ----- a token by itself -----

  /** A step of a scan that ends by position `n`. */
  predicate EndsBy(s: Step, p: nat, n: nat) {
    match s
    case Move(k, _) => p + k < n
    case Halt(r) => !r.tok.Open() && r.tok != TokInvalid && r.next <= n
  }

  lemma TagShort(enc: Encoding, w: Bytes, n: nat, p: nat, q: State)
    requires p < n <= |w| && InTag(q) && EndsBy(NextInTag(enc, w, p, q), p, n)
    ensures NextInTag(enc, w[..n], p, q) == NextInTag(enc, w, p, q)
  {
    CharInSlice(enc, w, n, p);
  }

  lemma RefShort(enc: Encoding, w: Bytes, n: nat, p: nat, q: State)
    requires p < n <= |w| && InRef(q) && EndsBy(NextInRef(enc, w, p, q), p, n)
    ensures NextInRef(enc, w[..n], p, q) == NextInRef(enc, w, p, q)
  {
    CharInSlice(enc, w, n, p);
  }

  lemma MarkupShort(enc: Encoding, w: Bytes, n: nat, p: nat, q: State)
    requires p < n <= |w| && At(q, p) && !InTag(q) && !InRef(q) && EndsBy(NextInMarkup(enc, w, p, q), p, n)
    ensures NextInMarkup(enc, w[..n], p, q) == NextInMarkup(enc, w, p, q)
  {
    hide KeywordMatch, CheckPiTarget;
    CharInSlice(enc, w, n, p);
    if q.CdataKeyword? && p + 6 <= n { KeywordStable(w[..n], w, p, 0); }
    if q.PiTarget? { TargetInSlice(w, n, q.start, p); }
  }

  lemma TargetInSlice(w: Bytes, n: nat, start: nat, p: nat)
    requires start <= p < n <= |w|
    ensures CheckPiTarget(w[..n], start, p) == CheckPiTarget(w, start, p)
  {
  }

  lemma CharInSlice(enc: Encoding, w: Bytes, n: nat, p: nat)
    requires p < n <= |w|
    ensures w[..n][p] == w[p]
    ensures var k := LeadLength(enc.byteType(w[p])); p + k <= n ==> w[..n][p..p + k] == w[p..p + k]
  {
  }

  /** A complete token is scanned the same way when nothing follows it. */
  lemma {:induction false} TokenByItself(enc: Encoding, w: Bytes, p: nat, q: State)
    requires p <= |w| && At(q, p)
    requires var r := ScanFrom(enc, w, p, q); !r.tok.Open() && r.tok != TokInvalid
    ensures var r := ScanFrom(enc, w, p, q); p < r.next <= |w| && ScanFrom(enc, w[..r.next], p, q) == r
    decreases |w| - p
  {
    hide ScanFrom, NextInMarkup, NextInTag, NextInRef;
    var n := ScanFrom(enc, w, p, q).next;
    ScanStep(enc, w, p, q);
    match Next(enc, w, p, q) {
      case Move(k, q') => TokenByItself(enc, w, p + k, q');
      case Halt(_) =>
    }
    if InRef(q) {
      RefShort(enc, w, n, p, q);
    } else if InTag(q) {
      TagShort(enc, w, n, p, q);
    } else {
      MarkupShort(enc, w, n, p, q);
    }
    ScanStep(enc, w[..n], p, q);
  }

  // ----- a token and the three bytes behind it -----

  lemma DataStepDecided(enc: Encoding, w: Bytes, p: nat, k: nat)
    requires p < k <= |w|
    requires match DataStep(enc, w, p) case More(n) => p + n + 2 <= k case Done(r) => r.tok.TokDataChars? && p + 3 <= k
    ensures DataStep(enc, w[..k], p) == DataStep(enc, w, p)
  {
    CharInSlice(enc, w, k, p);
  }

  lemma {:induction false} DataRunDecided(enc: Encoding, w: Bytes, p: nat, k: nat)
    requires p <= k <= |w| && DataRun(enc, w, p).tok.TokDataChars? && DataRun(enc, w, p).next + 3 <= k
    ensures DataRun(enc, w[..k], p) == DataRun(enc, w, p)
    decreases |w| - p
  {
    hide DataStep;
    DataStepFits(enc, w, p);
    match DataStep(enc, w, p) {
      case More(n) =>
        DataRunDecided(enc, w, p + n, k);
      case Done(_) =>
    }
    DataStepDecided(enc, w, p, k);
  }

  /** Three bytes behind a complete token are enough to tell where it ends. */
  lemma ContentTokDecided(enc: Encoding, w: Bytes, k: nat)
    requires var t := ContentTok(enc, w); !t.tok.Open() && t.tok != TokInvalid && t.next + 3 <= k <= |w|
    ensures ContentTok(enc, w[..k]) == ContentTok(enc, w)
  {
    hide ScanFrom, DataStep;
    var v, t, next := w[..k], enc.byteType(w[0]), ContentTok(enc, w).next;
    CharInSlice(enc, w, k, 0);
    if t == BtLt {
      ScanDecided(enc, w, k, AfterLt);
    } else if t == BtAmp {
      ScanDecided(enc, w, k, RefStart(InContent));
    } else if t == BtRsqb {
      DataRunDecided(enc, w, 1, k);
    } else if t != BtCr && t != BtLf {
      match CharClass(enc, w, 0)
      case In(n) => DataRunDecided(enc, w, n, k);
      case Out => DataRunDecided(enc, w, 1, k);
      case Stop(_) =>
    }
  }

  lemma ScanDecided(enc: Encoding, w: Bytes, k: nat, q: State)
    requires w != [] && At(q, 1) && k <= |w|
    requires var r := ScanFrom(enc, w, 1, q); !r.tok.Open() && r.tok != TokInvalid && r.next <= k
    ensures ScanFrom(enc, w[..k], 1, q) == ScanFrom(enc, w, 1, q)
  {
    hide ScanFrom;
    var n := ScanFrom(enc, w, 1, q).next;
    TokenByItself(enc, w, 1, q);
    assert w[..n] <= w[..k];
    ScanStable(enc, w[..n], w[..k], 1, q);
  }

  lemma CdataStepDecided(enc: Encoding, w: Bytes, p: nat, k: nat)
    requires p < k <= |w| && p + CdataStep(enc, w, p) < k
    ensures CdataStep(enc, w[..k], p) == CdataStep(enc, w, p)
  {
    CharInSlice(enc, w, k, p);
  }

  lemma {:induction false} CdataRunDecided(enc: Encoding, w: Bytes, p: nat, k: nat)
    requires p <= k <= |w| && CdataRun(enc, w, p) < k
    ensures CdataRun(enc, w[..k], p) == CdataRun(enc, w, p)
    decreases |w| - p
  {
    hide CdataStep;
    CdataStepFits(enc, w, p);
    var n := CdataStep(enc, w, p);
    if n != 0 {
      CdataRunDecided(enc, w, p + n, k);
    }
    CdataStepDecided(enc, w, p, k);
    CdataStepFits(enc, w[..k], p);
  }

  lemma CdataTokDecided(enc: Encoding, w: Bytes, k: nat)
    requires var t := CdataSectionTok(enc, w); !t.tok.Open() && t.tok != TokInvalid && t.next + 3 <= k <= |w|
    ensures CdataSectionTok(enc, w[..k]) == CdataSectionTok(enc, w)
  {
    hide CdataStep;
    CharInSlice(enc, w, k, 0);
    var t := enc.byteType(w[0]);
    if t == BtRsqb {
      if CdataSectionTok(enc, w).tok.TokDataChars? { CdataRunDecided(enc, w, 1, k); }
    } else if t != BtCr && t != BtLf {
      match CharClass(enc, w, 0)
      case In(n) => CdataRunDecided(enc, w, n, k);
      case Out => CdataRunDecided(enc, w, 1, k);
      case Stop(_) =>
    }
  }

  /** A run of data that fails is a run of data without the byte at which it fails. */
  lemma {:induction false} FailingRunShort(enc: Encoding, w: Bytes, p: nat)
    requires p <= |w| && DataRun(enc, w, p).tok.TokInvalid?
    ensures var m := DataRun(enc, w, p).next; DataRun(enc, w[..m], p) == Scan(TokDataChars, m - 2)
    ensures var m := DataRun(enc, w, p).next;
      enc.byteType(w[m - 2]) == BtRsqb && w[m - 1] == ASCII_RSQB && w[m] == ASCII_GT
    decreases |w| - p
  {
    hide DataStep;
    var m := DataRun(enc, w, p).next;
    DataStepFits(enc, w, p);
    match DataStep(enc, w, p)
    case More(n) =>
      FailingRunShort(enc, w, p + n);
      DataStepDecided(enc, w, p, m);
    case Done(_) =>
      LastStepShort(enc, w, p);
  }

  lemma LastStepShort(enc: Encoding, w: Bytes, p: nat)
    requires p < |w| && DataStep(enc, w, p).Done? && DataStep(enc, w, p).r.tok.TokInvalid?
    ensures DataStep(enc, w, p) == Done(Invalid(p + 2)) && p + 2 < |w|
    ensures DataStep(enc, w[..p + 2], p) == Done(Scan(TokDataChars, p))
    ensures enc.byteType(w[p]) == BtRsqb && w[p + 1] == ASCII_RSQB && w[p + 2] == ASCII_GT
  {
  }
}
