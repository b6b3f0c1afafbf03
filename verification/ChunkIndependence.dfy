/** Cutting the input into buffers does not change what is reported. */
module ChunkIndependence {
  import opened Encodings
  import opened Automaton
  import opened Stability
  import opened Errors
  import opened AttributeValues
  import opened Content
  import opened Utf8

  /** The token of the step is a run of character data, which more input may lengthen. */
  predicate IsData(enc: Encoding, at: Position, w: Bytes) {
    (if at.inCdata then CdataSectionTok(enc, w) else ContentTok(enc, w)).tok == TokDataChars
  }

  lemma ContentStepStable(env: Env, enc: Encoding, stack: seq<Bytes>, u: Bytes, w: Bytes, final: bool)
    requires u <= w && ContentTok(enc, u).tok != TokDataChars
    requires ContentStep(env, enc, stack, u, false) != Wait
    ensures ContentStep(env, enc, stack, w, final) == ContentStep(env, enc, stack, u, false)
  {
    hide ContentTok, StartTagStep, EndTagStep;
    ContentTokStable(enc, u, w);
    var n := ContentTok(enc, u).next;
    assert w[..n] == u[..n];
    if 1 < n { assert w[1..n - 1] == u[1..n - 1]; }
  }

  lemma CdataSectionStepStable(enc: Encoding, stack: seq<Bytes>, u: Bytes, w: Bytes, final: bool)
    requires u <= w && CdataSectionTok(enc, u).tok != TokDataChars
    requires CdataSectionStep(enc, stack, u, false) != Wait
    ensures CdataSectionStep(enc, stack, w, final) == CdataSectionStep(enc, stack, u, false)
  {
    hide CdataSectionTok;
    CdataTokStable(enc, u, w);
  }

  /** A step that is not a run of data is the same with more input. */
  lemma StepStable(env: Env, enc: Encoding, at: Position, u: Bytes, w: Bytes, final: bool)
    requires u <= w && !IsData(enc, at, u) && NextStep(env, enc, at, u, false) != Wait
    ensures NextStep(env, enc, at, w, final) == NextStep(env, enc, at, u, false)
  {
    hide ContentStep, CdataSectionStep;
    if at.inCdata {
      CdataSectionStepStable(enc, at.stack, u, w, final);
    } else {
      ContentStepStable(env, enc, at.stack, u, w, final);
    }
  }

  /** A step over a run of data reports it and stays where it is. */
  lemma DataStepIs(env: Env, enc: Encoding, at: Position, w: Bytes, final: bool)
    requires IsData(enc, at, w)
    ensures var n := (if at.inCdata then CdataSectionTok(enc, w) else ContentTok(enc, w)).next;
      0 < n <= |w| && NextStep(env, enc, at, w, final) == Go(n, Now(CharacterData(w[..n])), at)
  {
    hide ContentTok, CdataSectionTok;
  }

  lemma InvalidStepIs(env: Env, enc: Encoding, at: Position, w: Bytes, final: bool)
    requires !at.inCdata && ContentTok(enc, w).tok == TokInvalid
    ensures NextStep(env, enc, at, w, final) == Fail(InvalidToken, ContentTok(enc, w).next, [])
  {
    hide ContentTok;
  }

  lemma RunGoes(env: Env, enc: Encoding, at: Position, w: Bytes, final: bool, n: nat, calls: seq<Call>, next: Position)
    requires NextStep(env, enc, at, w, final) == Go(n, calls, next)
    ensures 0 < n <= |w| && Parse(env, enc, at, w, final) == After(n, calls, Parse(env, enc, next, w[n..], final))
  {
    hide NextStep;
    StepAdvances(env, enc, at, w, final);
  }

  lemma RunFails(env: Env, enc: Encoding, at: Position, w: Bytes, final: bool, error: Error, pos: nat)
    requires NextStep(env, enc, at, w, final) == Fail(error, pos, [])
    ensures Parse(env, enc, at, w, final) == Report([], Failed(error, pos))
  {
    hide NextStep;
  }

  lemma RunWaits(env: Env, enc: Encoding, at: Position, w: Bytes)
    requires NextStep(env, enc, at, w, false) == Wait
    ensures Parse(env, enc, at, w, false) == Report([], NeedMore(at, w))
  {
    hide NextStep;
  }

  /** How the token of a longer input splits where the token of a shorter one ended. */
  lemma DataTokSplits(enc: Encoding, at: Position, u: Bytes, w: Bytes) returns (n: nat, m: nat)
    requires u <= w && IsData(enc, at, u)
    ensures 0 < n <= |u| && n <= m <= |w|
    ensures n == (if at.inCdata then CdataSectionTok(enc, u) else ContentTok(enc, u)).next
    ensures var tok := (v: Bytes) => if at.inCdata then CdataSectionTok(enc, v) else ContentTok(enc, v);
      || tok(w) == Scan(TokDataChars, n)
      || (tok(w) == Scan(TokDataChars, m) && n < m && tok(w[n..]) == Scan(TokDataChars, m - n))
      || (!at.inCdata && tok(w) == Scan(TokInvalid, m) && tok(w[n..]) == Scan(TokInvalid, m - n))
  {
    hide ContentTok, CdataSectionTok;
    if at.inCdata {
      CdataTokGrows(enc, u, w);
      n, m := CdataSectionTok(enc, u).next, CdataSectionTok(enc, w).next;
    } else {
      DataTokGrows(enc, u, w);
      n, m := ContentTok(enc, u).next, ContentTok(enc, w).next;
    }
  }

  /** The same for a token that fails behind the data of the shorter one. */
  lemma FailingTokSplits(enc: Encoding, u: Bytes, w: Bytes)
    requires u <= w && ContentTok(enc, u).tok == TokDataChars && ContentTok(enc, w).tok == TokInvalid
    ensures DataFails(enc, w) && DataRun(enc, w, 0) == ContentTok(enc, w)
    ensures var n, m := ContentTok(enc, u).next, ContentTok(enc, w).next;
      n + 2 <= m && if DataFails(enc, w[n..]) then DataRun(enc, w[n..], 0) == Invalid(m - n) else m == n + 2
  {
    hide ContentTok, DataStep;
    var n := ContentTok(enc, u).next;
    DataTokIsRun(enc, u);
    DataStepStable(enc, u, w, 0);
    ContentTokInData(enc, w);
    DataRunStable(enc, u, w, 0);
    DataRunShift(enc, w, n, 0);
    if !DataFails(enc, w[n..]) {
      ShortRun(enc, w[n..]);
    }
  }

  lemma ShortRun(enc: Encoding, v: Bytes)
    requires v != [] && DataRun(enc, v, 0).tok == TokInvalid && !DataFails(enc, v)
    ensures DataRun(enc, v, 0) == Invalid(2)
  {
  }

  // ----- the first part of a run -----

  /** The run over `w` can be had in two: it comes to `n` with these calls, and goes on from there. */
  predicate Splits(env: Env, enc: Encoding, at: Position, w: Bytes, final: bool, n: nat, calls: seq<Call>,
                   next: Position)
  {
    && n <= |w|
    && IsReportOf(env, enc, at, w, final, After(n, calls, Parse(env, enc, next, w[n..], final)))
    && AllAtoms(env, enc, at, w, final) == Atoms(calls) + LaterAtoms(n, AllAtoms(env, enc, next, w[n..], final))
  }

  lemma StepSplits(env: Env, enc: Encoding, at: Position, w: Bytes, final: bool, n: nat, calls: seq<Call>,
                   next: Position)
    requires NextStep(env, enc, at, w, final) == Go(n, calls, next)
    ensures Splits(env, enc, at, w, final, n, calls, next)
  {
    hide NextStep, Parse, Atoms, LaterAtoms, After;
    RunGoes(env, enc, at, w, final, n, calls, next);
    var r := Parse(env, enc, next, w[n..], final);
    AfterAtoms(n, calls, r);
    LaterAtomsAppend(n, Atoms(r.calls), HeldBack(env, enc, next, w[n..], final));
    assert Atoms(calls) + (LaterAtoms(n, Atoms(r.calls)) + HeldBack(env, enc, at, w, final))
      == Atoms(calls) + LaterAtoms(n, Atoms(r.calls)) + HeldBack(env, enc, at, w, final);
  }

  /** A report of the rest makes one of the whole. */
  lemma SplitReport(env: Env, enc: Encoding, at: Position, w: Bytes, final: bool, n: nat, calls: seq<Call>,
                    next: Position, r: Report)
    requires Splits(env, enc, at, w, final, n, calls, next) && IsReportOf(env, enc, next, w[n..], final, r)
    ensures IsReportOf(env, enc, at, w, final, After(n, calls, r))
  {
    hide Parse, Atoms, AllAtoms;
    AfterAtoms(n, calls, r);
    AfterAtoms(n, calls, Parse(env, enc, next, w[n..], final));
  }

  lemma SplitTwice(env: Env, enc: Encoding, at: Position, w: Bytes, final: bool, n: nat, calls: seq<Call>,
                   mid: Position, m: nat, more: seq<Call>, next: Position)
    requires Splits(env, enc, at, w, final, n, calls, mid) && Splits(env, enc, mid, w[n..], final, m, more, next)
    ensures Splits(env, enc, at, w, final, n + m, calls + Later(n, more), next)
  {
    hide Parse, Atoms, AllAtoms, LaterAtoms, IsReportOf, After, Later;
    var rest := Parse(env, enc, next, w[n..][m..], final);
    assert w[n..][m..] == w[n + m..];
    SplitReport(env, enc, at, w, final, n, calls, mid, After(m, more, rest));
    AfterTwice(n, calls, m, more, rest);
    AtomsAppend(calls, Later(n, more));
    AtomsLater(n, more);
    var all := AllAtoms(env, enc, next, w[n + m..], final);
    LaterAtomsAppend(n, Atoms(more), LaterAtoms(m, all));
    LaterAtomsTwice(n, m, all);
    assert Atoms(calls) + (LaterAtoms(n, Atoms(more)) + LaterAtoms(n + m, all))
      == Atoms(calls) + LaterAtoms(n, Atoms(more)) + LaterAtoms(n + m, all);
  }

  lemma LaterAtomsTwice(n: nat, m: nat, atoms: seq<Atom>)
    ensures LaterAtoms(n, LaterAtoms(m, atoms)) == LaterAtoms(n + m, atoms)
  {
  }

  /** Nothing is left out of the run in one piece. */
  lemma ReportItself(env: Env, enc: Encoding, at: Position, w: Bytes, final: bool)
    ensures IsReportOf(env, enc, at, w, final, Parse(env, enc, at, w, final))
  {
    hide Parse, Atoms, HeldBack;
  }

  // ----- a run of data, cut in two -----

  /** A run of data may be reported up to the place where a shorter input ended. */
  lemma DataSplits(env: Env, enc: Encoding, at: Position, u: Bytes, w: Bytes, final: bool) returns (n: nat)
    requires u <= w && IsData(enc, at, u)
    ensures 0 < n <= |u| && NextStep(env, enc, at, u, false) == Go(n, Now(CharacterData(w[..n])), at)
    ensures Splits(env, enc, at, w, final, n, Now(CharacterData(w[..n])), at)
  {
    hide Parse, NextStep, ContentTok, CdataSectionTok, Splits;
    var m;
    n, m := DataTokSplits(enc, at, u, w);
    DataStepIs(env, enc, at, u, false);
    assert u[..n] == w[..n];
    var tok := if at.inCdata then CdataSectionTok(enc, w) else ContentTok(enc, w);
    if tok == Scan(TokDataChars, n) {
      DataStepIs(env, enc, at, w, final);
      StepSplits(env, enc, at, w, final, n, Now(CharacterData(w[..n])), at);
    } else if tok.tok == TokDataChars {
      DataStepIs(env, enc, at, w, final);
      DataStepIs(env, enc, at, w[n..], final);
      LongDataSplits(env, enc, at, w, final, n, m);
    } else {
      FailingTokSplits(enc, u, w);
      FailingSplits(env, enc, at, w, final, n, m);
    }
  }

  /** Character data that is reported in one piece or in two. */
  lemma LongDataSplits(env: Env, enc: Encoding, at: Position, w: Bytes, final: bool, n: nat, m: nat)
    requires 0 < n < m <= |w| && NextStep(env, enc, at, w, final) == Go(m, Now(CharacterData(w[..m])), at)
    requires NextStep(env, enc, at, w[n..], final) == Go(m - n, Now(CharacterData(w[n..][..m - n])), at)
    ensures Splits(env, enc, at, w, final, n, Now(CharacterData(w[..n])), at)
  {
    hide Parse, NextStep, Atoms, DataAtoms, AllAtoms, LaterAtoms, After, Later;
    var x, y := w[..n], w[n..][..m - n];
    var rest, all := Parse(env, enc, at, w[m..], final), AllAtoms(env, enc, at, w[m..], final);
    assert x + y == w[..m] && w[n..][m - n..] == w[m..];
    StepSplits(env, enc, at, w, final, m, Now(CharacterData(w[..m])), at);
    StepSplits(env, enc, at, w[n..], final, m - n, Now(CharacterData(y)), at);
    RunGoes(env, enc, at, w, final, m, Now(CharacterData(w[..m])), at);
    RunGoes(env, enc, at, w[n..], final, m - n, Now(CharacterData(y)), at);
    AtomsOfData(x, 0);
    AtomsOfData(y, 0);
    AtomsOfData(w[..m], 0);
    DataAtomsJoin(x, y);
    LaterAtomsAppend(n, DataAtoms(y, 0), LaterAtoms(m - n, all));
    LaterAtomsTwice(n, m - n, all);
    AfterTwice(n, Now(CharacterData(x)), m - n, Now(CharacterData(y)), rest);
    AfterInTwo(x, y, rest, m);
    assert DataAtoms(x, 0) + (LaterAtoms(n, DataAtoms(y, 0)) + LaterAtoms(m, all))
      == DataAtoms(x, 0) + LaterAtoms(n, DataAtoms(y, 0)) + LaterAtoms(m, all);
  }

  lemma AfterInTwo(x: Bytes, y: Bytes, r: Report, m: nat)
    ensures var one, two := After(m, Now(CharacterData(x + y)), r),
      After(m, Now(CharacterData(x)) + Later(|x|, Now(CharacterData(y))), r);
      one.end == two.end && Atoms(one.calls) == Atoms(two.calls)
  {
    hide Atoms;
    DataInTwo(x, y);
    AfterAtoms(m, Now(CharacterData(x + y)), r);
    AfterAtoms(m, Now(CharacterData(x)) + Later(|x|, Now(CharacterData(y))), r);
  }

  /** Before a `]]>` that is an error, character data is reported or is part of the token that fails. */
  lemma FailingSplits(env: Env, enc: Encoding, at: Position, w: Bytes, final: bool, n: nat, m: nat)
    requires 0 < n && n + 2 <= m <= |w| && !at.inCdata
    requires ContentTok(enc, w) == Invalid(m) == DataRun(enc, w, 0) && ContentTok(enc, w[n..]) == Invalid(m - n)
    requires DataFails(enc, w)
    requires if DataFails(enc, w[n..]) then DataRun(enc, w[n..], 0) == Invalid(m - n) else m == n + 2
    ensures Splits(env, enc, at, w, final, n, Now(CharacterData(w[..n])), at)
  {
    hide ContentTok, DataFails, DataRun, Atoms, NextStep;
    InvalidStepIs(env, enc, at, w, final);
    InvalidStepIs(env, enc, at, w[n..], final);
    AtomsOfData(w[..n], 0);
    var held := HeldBack(env, enc, at, w[n..], final);
    var y := w[n..][..m - n - 2];
    DataAtomsJoin(w[..n], y);
    assert w[..n] + y == w[..m - 2];
    assert held == DataAtoms(y, 0);
    AfterAtoms(n, Now(CharacterData(w[..n])), Report([], Failed(InvalidToken, m - n)));
    EmptyAtoms();
  }

  lemma EmptyAtoms()
    ensures Atoms([]) == [] && forall n :: LaterAtoms(n, []) == []
  {
  }

  // ----- any cutting -----

  /** One cut: the run over the first part, if it waits, is the first part of the run over all. */
  lemma {:induction false} RunCut(env: Env, enc: Encoding, at: Position, u: Bytes, more: Bytes, final: bool)
    ensures var r := Parse(env, enc, at, u, false);
      if r.end.NeedMore? then Splits(env, enc, at, u + more, final, |u| - |r.end.rest|, r.calls, r.end.at)
      else IsReportOf(env, enc, at, u + more, final, r)
    decreases |u|
  {
    hide IsReportOf, Splits, NextStep, IsData, Parse;
    var w := u + more;
    StepAdvances(env, enc, at, u, false);
    if NextStep(env, enc, at, u, false) == Wait {
      WaitingGoesOn(env, enc, at, u, more, final);
    } else if IsData(enc, at, u) {
      var n := DataSplits(env, enc, at, u, w, final);
      CutGoes(env, enc, at, u, more, final, n, Now(CharacterData(w[..n])), at);
    } else {
      StepStable(env, enc, at, u, w, final);
      match NextStep(env, enc, at, u, false)
      case Go(n, calls, next) =>
        StepSplits(env, enc, at, w, final, n, calls, next);
        CutGoes(env, enc, at, u, more, final, n, calls, next);
      case _ =>
        RunEnds(env, enc, at, u, w, final);
    }
  }

  lemma RunEnds(env: Env, enc: Encoding, at: Position, u: Bytes, w: Bytes, final: bool)
    requires NextStep(env, enc, at, u, false) == NextStep(env, enc, at, w, final)
    requires NextStep(env, enc, at, u, false).Finish? || NextStep(env, enc, at, u, false).Fail?
    ensures !Parse(env, enc, at, u, false).end.NeedMore?
    ensures IsReportOf(env, enc, at, w, final, Parse(env, enc, at, u, false))
  {
    hide NextStep, HeldBack;
  }

  lemma WaitingGoesOn(env: Env, enc: Encoding, at: Position, u: Bytes, more: Bytes, final: bool)
    requires NextStep(env, enc, at, u, false) == Wait
    ensures Parse(env, enc, at, u, false) == Report([], NeedMore(at, u))
    ensures Splits(env, enc, at, u + more, final, 0, [], at)
  {
    hide NextStep, HeldBack;
    RunWaits(env, enc, at, u);
    AfterNothing(Parse(env, enc, at, u + more, final));
    var all := AllAtoms(env, enc, at, u + more, final);
    assert LaterAtoms(0, all) == all;
    ReportItself(env, enc, at, u + more, final);
  }

  lemma CutGoes(env: Env, enc: Encoding, at: Position, u: Bytes, more: Bytes, final: bool, n: nat, calls: seq<Call>,
                next: Position)
    requires NextStep(env, enc, at, u, false) == Go(n, calls, next) && 0 < n <= |u|
    requires Splits(env, enc, at, u + more, final, n, calls, next)
    ensures var r := Parse(env, enc, at, u, false);
      if r.end.NeedMore? then Splits(env, enc, at, u + more, final, |u| - |r.end.rest|, r.calls, r.end.at)
      else IsReportOf(env, enc, at, u + more, final, r)
    decreases |u|, 0
  {
    hide IsReportOf, Splits, NextStep, Parse, Later;
    var r := Parse(env, enc, next, u[n..], false);
    RunGoes(env, enc, at, u, false, n, calls, next);
    RunCut(env, enc, next, u[n..], more, final);
    assert (u + more)[n..] == u[n..] + more;
    if r.end.NeedMore? {
      SplitTwice(env, enc, at, u + more, final, n, calls, next, |u| - n - |r.end.rest|, r.calls, r.end.at);
    } else {
      SplitReport(env, enc, at, u + more, final, n, calls, next, r);
    }
  }

  /**
   Element content is chunk-independent: however the document is cut into buffers, the root element is
   closed at the same place, with the same events at the same offsets, or the same error is found at the
   same place.  Only of the data before a `]]>` that is an error more or less may be reported.
   */
  lemma {:induction false} ChunksDoNotMatter(env: Env, enc: Encoding, at: Position, left: Bytes, chunks: seq<Bytes>)
    requires chunks != []
    ensures IsReportOf(env, enc, at, left + Concat(chunks), true, ParseChunks(env, enc, at, left, chunks))
    decreases |chunks|
  {
    hide Parse, IsReportOf, Splits;
    var buffer := left + chunks[0];
    var more := Concat(chunks[1..]);
    assert left + Concat(chunks) == buffer + more;
    if |chunks| == 1 {
      assert more == [] && buffer + [] == buffer;
      ReportItself(env, enc, at, buffer, true);
    } else {
      var r := Parse(env, enc, at, buffer, false);
      RunCut(env, enc, at, buffer, more, true);
      match r.end
      case NeedMore(at', rest) =>
        ChunksDoNotMatter(env, enc, at', rest, chunks[1..]);
        var n := |buffer| - |rest|;
        assert (buffer + more)[n..] == rest + more;
        SplitReport(env, enc, at, buffer + more, true, n, r.calls, at', ParseChunks(env, enc, at', rest, chunks[1..]));
      case _ =>
    }
  }

  // ----- exactly when cuts matter -----

  /** Only character data is held back. */
  lemma {:induction false} HeldBackIsData(env: Env, enc: Encoding, at: Position, w: Bytes, final: bool)
    ensures forall a :: a in HeldBack(env, enc, at, w, final) ==> a.Datum?
    decreases |w|
  {
    hide NextStep, DataFails, DataRun;
    StepAdvances(env, enc, at, w, final);
    match NextStep(env, enc, at, w, final)
    case Go(n, _, next) => HeldBackIsData(env, enc, next, w[n..], final);
    case _ =>
  }

  /** A step that goes on has a complete token and goes to its end. */
  lemma ContentGoes(env: Env, enc: Encoding, stack: seq<Bytes>, w: Bytes)
    requires ContentStep(env, enc, stack, w, true).Go?
    ensures var t := ContentTok(enc, w);
      !t.tok.Open() && t.tok != TokInvalid && ContentStep(env, enc, stack, w, true).n == t.next
  {
    hide ContentTok, StoreAtts, AttsErrorPlace, PredefinedEntity;
  }

  /** A step that goes on needs no more than three bytes behind it. */
  lemma StepDecided(env: Env, enc: Encoding, at: Position, w: Bytes, k: nat)
    requires var s := NextStep(env, enc, at, w, true); s.Go? && s.n + 3 <= k <= |w|
    ensures NextStep(env, enc, at, w[..k], false) == NextStep(env, enc, at, w, true)
  {
    if at.inCdata {
      CdataStepDecidedBy(enc, at.stack, w, k);
    } else {
      ContentStepDecidedBy(env, enc, at.stack, w, k);
    }
  }

  lemma ContentStepDecidedBy(env: Env, enc: Encoding, stack: seq<Bytes>, w: Bytes, k: nat)
    requires var s := ContentStep(env, enc, stack, w, true); s.Go? && s.n + 3 <= k <= |w|
    ensures ContentStep(env, enc, stack, w[..k], false) == ContentStep(env, enc, stack, w, true)
  {
    hide ContentTok, StartTagStep, EndTagStep;
    ContentGoes(env, enc, stack, w);
    var n := ContentTok(enc, w).next;
    ContentTokDecided(enc, w, k);
    assert w[..k][..n] == w[..n];
    if n > 1 { assert w[..k][1..n - 1] == w[1..n - 1]; }
  }

  lemma CdataStepDecidedBy(enc: Encoding, stack: seq<Bytes>, w: Bytes, k: nat)
    requires var s := CdataSectionStep(enc, stack, w, true); s.Go? && s.n + 3 <= k <= |w|
    ensures CdataSectionStep(enc, stack, w[..k], false) == CdataSectionStep(enc, stack, w, true)
  {
    hide CdataSectionTok;
    CdataTokDecided(enc, w, k);
    assert w[..k][..CdataSectionTok(enc, w).next] == w[..CdataSectionTok(enc, w).next];
  }

  /** Cut before the `>`, the data that one piece holds back is reported. */
  lemma FailingTokCut(env: Env, enc: Encoding, at: Position, w: Bytes)
    requires !at.inCdata && DataFails(enc, w)
    ensures Parse(env, enc, at, w, true) == Report([], Failed(InvalidToken, DataRun(enc, w, 0).next))
    ensures var k := DataRun(enc, w, 0).next;
      var r := Parse(env, enc, at, w[..k], false);
      2 < k && HeldBack(env, enc, at, w, true) == Atoms(r.calls) == DataAtoms(w[..k - 2], 0) && r.end.NeedMore?
  {
    hide DataStep, Parse, NextStep, Atoms, ContentTok;
    var k := DataRun(enc, w, 0).next;
    var u := w[..k];
    FailingRunShort(enc, w, 0);
    DataStepFits(enc, w, 0);
    DataStepDecided(enc, w, 0, k);
    ContentTokInData(enc, w);
    ContentTokInData(enc, u);
    InvalidStepIs(env, enc, at, w, true);
    RunFails(env, enc, at, w, true, InvalidToken, k);
    DataStepIs(env, enc, at, u, false);
    RunGoes(env, enc, at, u, false, k - 2, Now(CharacterData(u[..k - 2])), at);
    BracketsWait(env, enc, at, u[k - 2..]);
    assert u[..k - 2] == w[..k - 2];
    AtomsOfData(w[..k - 2], 0);
    NoCallsLater(k - 2);
  }

  lemma NoCallsLater(n: nat)
    ensures forall calls: seq<Call> :: calls + Later(n, []) == calls
  {
  }

  lemma BracketsWait(env: Env, enc: Encoding, at: Position, v: Bytes)
    requires !at.inCdata && |v| == 2 && enc.byteType(v[0]) == BtRsqb && v[1] == ASCII_RSQB
    ensures Parse(env, enc, at, v, false) == Report([], NeedMore(at, v))
  {
    assert ContentTok(enc, v) == Scan(TokTrailingRsqb, 0);
  }

  /** A cut at which all the data that one piece holds back is reported. */
  lemma {:induction false} CutThatReports(env: Env, enc: Encoding, at: Position, w: Bytes) returns (k: nat)
    requires HeldBack(env, enc, at, w, true) != []
    ensures 2 < k <= |w| && Parse(env, enc, at, w[..k], false).end.NeedMore?
    ensures Atoms(Parse(env, enc, at, w[..k], false).calls) == AllAtoms(env, enc, at, w, true)
    decreases |w|
  {
    hide Parse, NextStep, DataFails, Atoms, LaterAtoms, AllAtoms, DataAtoms;
    EmptyAtoms();
    match NextStep(env, enc, at, w, true)
    case Go(n, calls, next) =>
      StepAdvances(env, enc, at, w, true);
      k := CutThatReports(env, enc, next, w[n..]);
      k := n + k;
      StepDecided(env, enc, at, w, k);
      RunGoes(env, enc, at, w[..k], false, n, calls, next);
      assert w[..k][n..] == w[n..][..k - n];
      AfterAtoms(n, calls, Parse(env, enc, next, w[n..][..k - n], false));
      StepSplits(env, enc, at, w, true, n, calls, next);
    case Fail(_, _, _) =>
      FailingTokCut(env, enc, at, w);
      k := DataRun(enc, w, 0).next;
      AllIsHeld(env, enc, at, w);
  }

  lemma AllIsHeld(env: Env, enc: Encoding, at: Position, w: Bytes)
    requires Parse(env, enc, at, w, true).calls == []
    ensures AllAtoms(env, enc, at, w, true) == HeldBack(env, enc, at, w, true)
  {
    hide Parse, HeldBack;
  }

  /** What is reported for these buffers is what is reported in one piece, and no more. */
  predicate NothingMore(env: Env, enc: Encoding, at: Position, chunks: seq<Bytes>)
    requires chunks != []
  {
    Atoms(ParseChunks(env, enc, at, [], chunks).calls) == Atoms(Parse(env, enc, at, Concat(chunks), true).calls)
  }

  /**
   Every cutting gives exactly the events of one piece if and only if the run does not fail at a `]]>` with
   character data before it in the same token.
   */
  lemma CutsMatter(env: Env, enc: Encoding, at: Position, w: Bytes)
    ensures (forall chunks: seq<Bytes> :: chunks != [] && Concat(chunks) == w ==> NothingMore(env, enc, at, chunks))
       <==> HeldBack(env, enc, at, w, true) == []
  {
    hide Parse, ParseChunks, Atoms, HeldBack;
    if HeldBack(env, enc, at, w, true) == [] {
      forall chunks: seq<Bytes> | chunks != [] && Concat(chunks) == w
        ensures NothingMore(env, enc, at, chunks)
      {
        ChunksDoNotMatter(env, enc, at, [], chunks);
        assert [] + w == w;
      }
    } else {
      var k := CutThatReports(env, enc, at, w);
      var chunks := [w[..k], w[k..]];
      TwoChunks(env, enc, at, w[..k], w[k..]);
      assert Concat(chunks) == w;
      assert !NothingMore(env, enc, at, chunks);
    }
  }

  lemma TwoChunks(env: Env, enc: Encoding, at: Position, u: Bytes, v: Bytes)
    requires Parse(env, enc, at, u, false).end.NeedMore?
    ensures Concat([u, v]) == u + v
    ensures Atoms(Parse(env, enc, at, u, false).calls) <= Atoms(ParseChunks(env, enc, at, [], [u, v]).calls)
  {
    hide Parse, Atoms;
    var r := Parse(env, enc, at, u, false);
    assert [u, v][1..] == [v] && [v][1..] == [] && [] + u == u;
    assert Concat([v]) == v + [] == v;
    AfterAtoms(|u| - |r.end.rest|, r.calls, ParseChunks(env, enc, r.end.at, r.end.rest, [v]));
  }

  /** `x]]>`: in one piece only the error is reported, cut behind the `x` that is reported before it. */
  lemma TextBeforeBrackets(env: Env, ns: bool, internal: bool, isName: Bytes -> bool, isNmstrt: Bytes -> bool,
                           stack: seq<Bytes>)
    ensures var enc, at := Utf8Encoding(ns, internal, isName, isNmstrt), Position(false, stack);
      && Parse(env, enc, at, X_BRACKETS, true) == Report([], Failed(InvalidToken, 3))
      && ParseChunks(env, enc, at, [], [X_BRACKETS[..1], X_BRACKETS[1..]])
           == Report([Call(CharacterData([0x78]), 0)], Failed(InvalidToken, 3))
  {
    hide Parse, NextStep, ContentTok, Utf8Encoding;
    var enc, at := Utf8Encoding(ns, internal, isName, isNmstrt), Position(false, stack);
    TokensOfBrackets(ns, internal, isName, isNmstrt);
    InvalidStepIs(env, enc, at, X_BRACKETS, true);
    RunFails(env, enc, at, X_BRACKETS, true, InvalidToken, 3);
    assert X_BRACKETS[..1] == [0x78];
    OneByOne(env, enc, at, X_BRACKETS[..1], X_BRACKETS[1..]);
  }

  lemma OneByOne(env: Env, enc: Encoding, at: Position, x: Bytes, v: Bytes)
    requires |x| == 1 && ContentTok(enc, x) == Scan(TokDataChars, 1) && ContentTok(enc, v) == Invalid(2) && !at.inCdata
    ensures ParseChunks(env, enc, at, [], [x, v]) == Report([Call(CharacterData(x), 0)], Failed(InvalidToken, 3))
  {
    hide Parse, NextStep, ContentTok, Later;
    assert [] + x == x && [] + v == v && [x, v][1..] == [v];
    assert x[1..] == [] && x[..1] == x;
    DataStepIs(env, enc, at, x, false);
    RunGoes(env, enc, at, x, false, 1, Now(CharacterData(x)), at);
    EmptyWaits(env, enc, at);
    InvalidStepIs(env, enc, at, v, true);
    RunFails(env, enc, at, v, true, InvalidToken, 2);
    NoCallsLater(1);
  }

  lemma TokensOfBrackets(ns: bool, internal: bool, isName: Bytes -> bool, isNmstrt: Bytes -> bool)
    ensures var enc := Utf8Encoding(ns, internal, isName, isNmstrt);
      && ContentTok(enc, X_BRACKETS) == Invalid(3)
      && ContentTok(enc, X_BRACKETS[..1]) == Scan(TokDataChars, 1) && ContentTok(enc, X_BRACKETS[1..]) == Invalid(2)
  {
    var enc := Utf8Encoding(ns, internal, isName, isNmstrt);
    var x, brackets := enc.byteType(0x78), enc.byteType(ASCII_RSQB);
    assert x == BtNmstrt && brackets == BtRsqb;
    hide Utf8Encoding;
    assert DataRun(enc, X_BRACKETS, 1) == Invalid(3);
  }

  const X_BRACKETS: Bytes := [0x78, ASCII_RSQB, ASCII_RSQB, ASCII_GT]

  lemma EmptyWaits(env: Env, enc: Encoding, at: Position)
    ensures Parse(env, enc, at, [], false) == Report([], NeedMore(at, []))
  {
  }
}
