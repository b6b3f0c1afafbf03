/**
 CDATA sections: what a section means, character by character, and that the parser finds exactly that,
 with the same end or the same error at the same place, however the input is cut into buffers.
 */
module CdataSections {
  import opened Encodings
  import opened Automaton
  import opened Stability
  import opened Errors
  import opened AttributeValues
  import opened Content
  import opened ChunkIndependence

  /** How a section ends: it waits with what it could not use, it is closed, or there is an error. */
  datatype Outcome = Waits(rest: Bytes) | Ends(pos: nat) | Stops(error: Error, pos: nat)

  /** The data of a section byte by byte, each with its offset. */
  datatype Section = Section(data: seq<Atom>, end: Outcome)

  /** A section that first has `data` in `n` bytes. */
  function With(n: nat, data: seq<Atom>, s: Section): Section {
    Section(data + LaterAtoms(n, s.data),
      match s.end
      case Waits(rest) => Waits(rest)
      case Ends(pos) => Ends(n + pos)
      case Stops(error, pos) => Stops(error, n + pos))
  }

  /**
   What a section begins with: a character and its data, the end, what can be in no section, or too little
   to tell.
   */
  datatype Piece = Character(n: nat, data: Bytes) | Delimiter | NoCharacter | TooShort(error: Error)

  /** The first character of a section; a line end is a single line feed, section 2.11 of XML 1.0. */
  function FirstPiece(enc: Encoding, w: Bytes): (p: Piece)
    ensures p.Character? ==> 0 < p.n <= |w|
    ensures p.Delimiter? ==> |w| >= 3
  {
    if w == [] then TooShort(UnclosedCdataSection)
    else
      var t, n := enc.byteType(w[0]), LeadLength(enc.byteType(w[0]));
      if t == BtRsqb && w[1..] <= [ASCII_RSQB] then TooShort(UnclosedCdataSection)
      else if t == BtRsqb && [ASCII_RSQB, ASCII_GT] <= w[1..] then Delimiter
      else if t == BtCr && |w| == 1 then TooShort(UnclosedCdataSection)
      else if t == BtCr then Character(if enc.byteType(w[1]) == BtLf then 2 else 1, NEWLINE)
      else if t == BtLf then Character(1, NEWLINE)
      else if |w| < n then TooShort(Error.PartialChar)
      else if IsNonCharType(t) || (n > 0 && enc.isInvalid(w[..n])) then NoCharacter
      else if n > 0 then Character(n, w[..n])
      else Character(1, w[..1])
  }

  /**
   The section that begins with `w`: its characters up to the first `]]>`, section 2.7 of XML 1.0.
   What may be the beginning of a delimiter, a line end or a character waits for more input.
   */
  function SectionOf(enc: Encoding, w: Bytes, final: bool): (s: Section)
    ensures s.end.Ends? ==> 3 <= s.end.pos <= |w|
    ensures s.end.Waits? ==> |s.end.rest| <= |w| && s.end.rest == w[|w| - |s.end.rest|..]
    decreases |w|
  {
    match FirstPiece(enc, w)
    case Character(n, data) => With(n, DataAtoms(data, 0), SectionOf(enc, w[n..], final))
    case Delimiter => Section([], Ends(3))
    case NoCharacter => Section([], Stops(InvalidToken, 0))
    case TooShort(error) => Section([], if final then Stops(error, 0) else Waits(w))
  }

  lemma WithNothing(s: Section)
    ensures With(0, [], s) == s
  {
    assert LaterAtoms(0, s.data) == s.data;
    assert [] + s.data == s.data;
  }

  lemma WithTwice(n: nat, x: seq<Atom>, m: nat, y: seq<Atom>, s: Section)
    ensures With(n, x, With(m, y, s)) == With(n + m, x + LaterAtoms(n, y), s)
  {
    LaterAtomsAppend(n, y, LaterAtoms(m, s.data));
    LaterAtomsTwice(n, m, s.data);
    assert x + (LaterAtoms(n, y) + LaterAtoms(n + m, s.data)) == x + LaterAtoms(n, y) + LaterAtoms(n + m, s.data);
  }

  lemma LaterAtomsTwice(n: nat, m: nat, atoms: seq<Atom>)
    ensures LaterAtoms(n, LaterAtoms(m, atoms)) == LaterAtoms(n + m, atoms)
  {
  }

  lemma DataJoined(n: nat, x: Bytes, y: Bytes)
    requires |x| == n
    ensures DataAtoms(x, 0) + LaterAtoms(n, DataAtoms(y, 0)) == DataAtoms(x + y, 0)
  {
  }

  // ----- in several buffers -----

  /** What follows a section that has been read as far as `s`, when more input comes. */
  function GoesOn(enc: Encoding, s: Section, size: nat, more: Bytes, final: bool): Section {
    match s.end
    case Waits(rest) => if |rest| <= size then With(size - |rest|, s.data, SectionOf(enc, rest + more, final)) else s
    case _ => s
  }

  lemma CharacterIs(enc: Encoding, w: Bytes, final: bool)
    requires FirstPiece(enc, w).Character?
    ensures var p := FirstPiece(enc, w);
      SectionOf(enc, w, final) == With(p.n, DataAtoms(p.data, 0), SectionOf(enc, w[p.n..], final))
  {
    hide FirstPiece;
  }

  lemma OverIs(enc: Encoding, w: Bytes, final: bool)
    requires !FirstPiece(enc, w).Character?
    ensures FirstPiece(enc, w).Delimiter? ==> SectionOf(enc, w, final) == Section([], Ends(3))
    ensures FirstPiece(enc, w).NoCharacter? ==> SectionOf(enc, w, final) == Section([], Stops(InvalidToken, 0))
    ensures FirstPiece(enc, w).TooShort? ==>
      SectionOf(enc, w, final) == Section([], if final then Stops(FirstPiece(enc, w).error, 0) else Waits(w))
  {
    hide FirstPiece;
  }

  lemma PieceStable(enc: Encoding, u: Bytes, w: Bytes)
    requires u <= w && !FirstPiece(enc, u).TooShort?
    ensures FirstPiece(enc, w) == FirstPiece(enc, u)
  {
    if 1 < |u| { assert w[1] == u[1]; }
    var n := LeadLength(enc.byteType(u[0]));
    if n <= |u| { assert w[..n] == u[..n]; }
    assert w[..1] == u[..1];
  }

  /** A section that is cut anywhere is read on where it waited. */
  lemma {:induction false} SectionCut(enc: Encoding, u: Bytes, more: Bytes, final: bool)
    ensures SectionOf(enc, u + more, final) == GoesOn(enc, SectionOf(enc, u, false), |u|, more, final)
    decreases |u|
  {
    hide FirstPiece, SectionOf;
    var w, p := u + more, FirstPiece(enc, u);
    if !p.TooShort? {
      PieceStable(enc, u, w);
    }
    if p.Character? {
      CharacterIs(enc, u, false);
      CharacterIs(enc, w, final);
      assert w[p.n..] == u[p.n..] + more;
      SectionCut(enc, u[p.n..], more, final);
      CutBehind(enc, p.n, DataAtoms(p.data, 0), SectionOf(enc, u[p.n..], false), |u| - p.n, more, final);
    } else {
      OverIs(enc, u, false);
      if p.TooShort? {
        WithNothing(SectionOf(enc, w, final));
      } else {
        OverIs(enc, w, final);
      }
    }
  }

  lemma CutBehind(enc: Encoding, n: nat, data: seq<Atom>, s: Section, size: nat, more: Bytes, final: bool)
    requires s.end.Waits? ==> |s.end.rest| <= size
    ensures GoesOn(enc, With(n, data, s), n + size, more, final) == With(n, data, GoesOn(enc, s, size, more, final))
  {
    hide SectionOf;
    if s.end.Waits? {
      WithTwice(n, data, size - |s.end.rest|, s.data, SectionOf(enc, s.end.rest + more, final));
    }
  }

  /** The section in several buffers: what a buffer leaves over is read again with the next; the last one is final. */
  function SectionOfChunks(enc: Encoding, left: Bytes, chunks: seq<Bytes>): Section
    requires chunks != []
    decreases |chunks|
  {
    var buffer := left + chunks[0];
    var s := SectionOf(enc, buffer, |chunks| == 1);
    match s.end
    case Waits(rest) =>
      if |chunks| == 1 then s else With(|buffer| - |rest|, s.data, SectionOfChunks(enc, rest, chunks[1..]))
    case _ => s
  }

  /** Data, end and error, and their places, are those of the input in one piece. */
  lemma {:induction false} CutsDoNotMatter(enc: Encoding, left: Bytes, chunks: seq<Bytes>)
    requires chunks != []
    ensures SectionOfChunks(enc, left, chunks) == SectionOf(enc, left + Concat(chunks), true)
    decreases |chunks|
  {
    hide SectionOf, FirstPiece;
    var buffer, more := left + chunks[0], Concat(chunks[1..]);
    assert left + Concat(chunks) == buffer + more;
    if |chunks| == 1 {
      assert buffer + more == buffer;
      FinalIsOver(enc, buffer);
    } else {
      SectionCut(enc, buffer, more, true);
      var s := SectionOf(enc, buffer, false);
      if s.end.Waits? {
        CutsDoNotMatter(enc, s.end.rest, chunks[1..]);
      }
    }
  }

  lemma {:induction false} FinalIsOver(enc: Encoding, w: Bytes)
    ensures !SectionOf(enc, w, true).end.Waits?
    decreases |w|
  {
    hide FirstPiece;
    var p := FirstPiece(enc, w);
    if p.Character? {
      FinalIsOver(enc, w[p.n..]);
    }
  }

  // ----- what the tokenizer finds -----

  /** A run of data is so many characters of the section. */
  lemma {:induction false} RunIsCharacters(enc: Encoding, w: Bytes, final: bool)
    ensures var k := CdataRun(enc, w, 0);
      SectionOf(enc, w, final) == With(k, DataAtoms(w[..k], 0), SectionOf(enc, w[k..], final))
    decreases |w|
  {
    hide SectionOf, FirstPiece, CdataStep;
    var k := CdataRun(enc, w, 0);
    var n := if w == [] then 0 else CdataStep(enc, w, 0);
    if n == 0 {
      assert k == 0 && w[0..] == w;
      WithNothing(SectionOf(enc, w, final));
    } else {
      CdataStepFits(enc, w, 0);
      StepIsCharacter(enc, w, final);
      RunIsCharacters(enc, w[n..], final);
      CdataRunShift(enc, w, n, 0);
      var m := CdataRun(enc, w[n..], 0);
      assert k == n + m && w[n..][m..] == w[k..] && w[..n] + w[n..][..m] == w[..k];
      WithTwice(n, DataAtoms(w[..n], 0), m, DataAtoms(w[n..][..m], 0), SectionOf(enc, w[k..], final));
      DataJoined(n, w[..n], w[n..][..m]);
    }
  }

  lemma StepIsCharacter(enc: Encoding, w: Bytes, final: bool)
    requires w != [] && CdataStep(enc, w, 0) != 0
    ensures var n := CdataStep(enc, w, 0);
      n <= |w| && SectionOf(enc, w, final) == With(n, DataAtoms(w[..n], 0), SectionOf(enc, w[n..], final))
  {
    var n := CdataStep(enc, w, 0);
    assert w[0..n] == w[..n];
    assert FirstPiece(enc, w) == Character(n, w[..n]);
  }

  /** A token other than a run of data, and what the section begins with. */
  predicate TokenFits(t: Scan, p: Piece) {
    match t.tok
    case TokCdataSectClose => p == Delimiter && t.next == 3
    case TokDataNewline => p == Character(t.next, NEWLINE)
    case TokInvalid => p == NoCharacter && t.next == 0
    case TokPartialChar => p == TooShort(Error.PartialChar)
    case TokPartial => p == TooShort(UnclosedCdataSection)
    case TokNone => p == TooShort(UnclosedCdataSection)
    case _ => false
  }

  lemma OtherToken(enc: Encoding, w: Bytes)
    requires CdataSectionTok(enc, w).tok != TokDataChars
    ensures TokenFits(CdataSectionTok(enc, w), FirstPiece(enc, w))
  {
    if w != [] && LeadLength(enc.byteType(w[0])) > 0 && LeadLength(enc.byteType(w[0])) <= |w| {
      assert w[0..LeadLength(enc.byteType(w[0]))] == w[..LeadLength(enc.byteType(w[0]))];
    }
  }

  /** A run of data is its first character and those behind it. */
  lemma DataToken(enc: Encoding, w: Bytes, final: bool)
    requires CdataSectionTok(enc, w).tok == TokDataChars
    ensures var n := CdataSectionTok(enc, w).next;
      0 < n <= |w| && SectionOf(enc, w, final) == With(n, DataAtoms(w[..n], 0), SectionOf(enc, w[n..], final))
  {
    hide FirstPiece, CdataSectionTok, SectionOf, CdataRun, CdataStep;
    var n := CdataSectionTok(enc, w).next;
    var k := FirstOfRun(enc, w);
    CharacterIs(enc, w, final);
    CdataRunShift(enc, w, k, 0);
    RunIsCharacters(enc, w[k..], final);
    var m := CdataRun(enc, w[k..], 0);
    assert w[k..][m..] == w[n..] && w[..k] + w[k..][..m] == w[..n];
    WithTwice(k, DataAtoms(w[..k], 0), m, DataAtoms(w[k..][..m], 0), SectionOf(enc, w[n..], final));
    DataJoined(k, w[..k], w[k..][..m]);
  }

  lemma FirstOfRun(enc: Encoding, w: Bytes) returns (k: nat)
    requires CdataSectionTok(enc, w).tok == TokDataChars
    ensures 0 < k <= |w| && FirstPiece(enc, w) == Character(k, w[..k])
    ensures CdataSectionTok(enc, w).next == CdataRun(enc, w, k)
  {
    hide CdataRun;
    k := LeadLength(enc.byteType(w[0]));
    if 0 < k <= |w| {
      assert w[0..k] == w[..k];
    }
    if k == 0 { k := 1; }
  }

  // ----- what the parser reports -----

  /** The data of a section that ends at `pos`, its end, and the content behind it. */
  function WithContent(data: seq<Atom>, pos: nat, more: seq<Atom>): seq<Atom>
    requires pos >= 3
  {
    data + [Mark(EndCdataSection, pos - 3)] + LaterAtoms(pos, more)
  }

  /**
   The report of a parser in a section: its data, each byte at its offset, and its end or its error, with
   nothing more and nothing less; `behind` is the report of the content behind it.
   */
  predicate IsReported(r: Report, s: Section, stack: seq<Bytes>, behind: Report) {
    match s.end
    case Ends(pos) =>
      && pos >= 3 && r.end == After(pos, [], behind).end
      && Atoms(r.calls) == WithContent(s.data, pos, Atoms(behind.calls))
    case Stops(error, pos) => r.end == Failed(error, pos) && Atoms(r.calls) == s.data
    case Waits(rest) => r.end == NeedMore(Position(true, stack), rest) && Atoms(r.calls) == s.data
  }

  lemma ReportedBehind(n: nat, calls: seq<Call>, r: Report, s: Section, stack: seq<Bytes>, behind: Report)
    requires IsReported(r, s, stack, behind)
    ensures IsReported(After(n, calls, r), With(n, Atoms(calls), s), stack, behind)
  {
    hide Atoms, LaterAtoms, After, WithContent;
    AfterAtoms(n, calls, r);
    EndAfter(n, calls, r);
    if s.end.Ends? {
      EndAfter(s.end.pos, [], behind);
      EndAfter(n + s.end.pos, [], behind);
      LaterContent(n, Atoms(calls), s.data, s.end.pos, Atoms(behind.calls));
    }
  }

  lemma EndAfter(n: nat, calls: seq<Call>, r: Report)
    ensures After(n, calls, r).end == match r.end
      case NeedMore(at, rest) => r.end
      case Closed(pos) => Closed(n + pos)
      case Failed(error, pos) => Failed(error, n + pos)
  {
  }

  lemma LaterContent(n: nat, first: seq<Atom>, data: seq<Atom>, pos: nat, more: seq<Atom>)
    requires pos >= 3
    ensures first + LaterAtoms(n, WithContent(data, pos, more))
      == WithContent(first + LaterAtoms(n, data), n + pos, more)
  {
    hide LaterAtoms;
    var mark := [Mark(EndCdataSection, pos - 3)];
    LaterAtomsAppend(n, data + mark, LaterAtoms(pos, more));
    LaterAtomsAppend(n, data, mark);
    LaterMark(n, pos - 3);
    LaterAtomsTwice(n, pos, more);
  }

  lemma MoreContent(data: seq<Atom>, pos: nat, more: seq<Atom>, n: nat, rest: seq<Atom>)
    requires pos >= 3
    ensures WithContent(data, pos, more + LaterAtoms(n, rest))
      == WithContent(data, pos, more) + LaterAtoms(pos + n, rest)
  {
    hide LaterAtoms;
    LaterAtomsAppend(pos, more, LaterAtoms(n, rest));
    LaterAtomsTwice(pos, n, rest);
  }

  lemma LaterMark(n: nat, at: nat)
    ensures LaterAtoms(n, [Mark(EndCdataSection, at)]) == [Mark(EndCdataSection, n + at)]
  {
  }

  /** The content behind a section that ends. */
  function Behind(env: Env, enc: Encoding, stack: seq<Bytes>, w: Bytes, final: bool): Report {
    var s := SectionOf(enc, w, final);
    if s.end.Ends? then Parse(env, enc, Position(false, stack), w[s.end.pos..], final)
    else Report([], NeedMore(Position(false, stack), []))
  }

  lemma BehindFirst(env: Env, enc: Encoding, stack: seq<Bytes>, w: Bytes, final: bool, n: nat, x: seq<Atom>)
    requires n <= |w| && SectionOf(enc, w, final) == With(n, x, SectionOf(enc, w[n..], final))
    ensures Behind(env, enc, stack, w, final) == Behind(env, enc, stack, w[n..], final)
  {
    hide SectionOf, Parse;
    var s := SectionOf(enc, w[n..], final);
    if s.end.Ends? {
      assert w[n..][s.end.pos..] == w[n + s.end.pos..];
    }
  }

  /** The parser reports the section as it is, the place where it ends included, and goes on behind it. */
  lemma {:induction false} SectionIsReported(env: Env, enc: Encoding, stack: seq<Bytes>, w: Bytes, final: bool)
    ensures IsReported(Parse(env, enc, Position(true, stack), w, final), SectionOf(enc, w, final), stack,
                       Behind(env, enc, stack, w, final))
    decreases |w|
  {
    hide SectionOf, Parse, Atoms, CdataSectionTok, FirstPiece, Behind, IsReported, DataAtoms;
    var t := CdataSectionTok(enc, w);
    if t.tok == TokDataChars {
      DataToken(enc, w, final);
      GoesReported(env, enc, stack, w, final, t.next, w[..t.next]);
    } else if t.tok == TokDataNewline {
      OtherToken(enc, w);
      CharacterIs(enc, w, final);
      GoesReported(env, enc, stack, w, final, t.next, NEWLINE);
    } else {
      OtherToken(enc, w);
      EndIsReported(env, enc, stack, w, final);
    }
  }

  lemma GoesReported(env: Env, enc: Encoding, stack: seq<Bytes>, w: Bytes, final: bool, n: nat, x: Bytes)
    requires 0 < n <= |w|
    requires CdataSectionStep(enc, stack, w, final) == Go(n, Now(CharacterData(x)), Position(true, stack))
    requires SectionOf(enc, w, final) == With(n, DataAtoms(x, 0), SectionOf(enc, w[n..], final))
    ensures IsReported(Parse(env, enc, Position(true, stack), w, final), SectionOf(enc, w, final), stack,
                       Behind(env, enc, stack, w, final))
    decreases |w|, 0
  {
    hide SectionOf, Parse, Atoms, CdataSectionStep, Behind, ContentStep, DataAtoms, IsReported, With;
    var at := Position(true, stack);
    RunGoes(env, enc, at, w, final, n, Now(CharacterData(x)), at);
    SectionIsReported(env, enc, stack, w[n..], final);
    BehindFirst(env, enc, stack, w, final, n, DataAtoms(x, 0));
    AtomsOfData(x, 0);
    ReportedBehind(n, Now(CharacterData(x)), Parse(env, enc, at, w[n..], final), SectionOf(enc, w[n..], final), stack,
                   Behind(env, enc, stack, w, final));
  }

  /** The last step. */
  lemma EndIsReported(env: Env, enc: Encoding, stack: seq<Bytes>, w: Bytes, final: bool)
    requires !FirstPiece(enc, w).Character? && TokenFits(CdataSectionTok(enc, w), FirstPiece(enc, w))
    ensures IsReported(Parse(env, enc, Position(true, stack), w, final), SectionOf(enc, w, final), stack,
                       Behind(env, enc, stack, w, final))
  {
    hide CdataSectionTok, FirstPiece, Atoms, LaterAtoms, Parse, SectionOf, ContentStep;
    OverIs(enc, w, final);
    NoAtoms();
    var p, at := FirstPiece(enc, w), Position(true, stack);
    if p.Delimiter? {
      var behind := Parse(env, enc, Position(false, stack), w[3..], final);
      RunGoes(env, enc, at, w, final, 3, Now(EndCdataSection), Position(false, stack));
      AfterAtoms(3, Now(EndCdataSection), behind);
    } else if p.NoCharacter? {
      RunFails(env, enc, at, w, final, InvalidToken, 0);
    } else if final {
      RunFails(env, enc, at, w, final, p.error, 0);
    } else {
      RunWaits(env, enc, at, w);
    }
  }

  lemma NoAtoms()
    ensures Atoms([]) == [] && Atoms(Now(EndCdataSection)) == [Mark(EndCdataSection, 0)]
  {
    assert Now(EndCdataSection)[1..] == [];
  }

  // ----- what it reports for several buffers -----

  /** More buffers: how the report goes on behind the first one. */
  function WithRest(env: Env, enc: Encoding, r: Report, size: nat, chunks: seq<Bytes>): Report
    requires chunks != []
  {
    match r.end
    case NeedMore(at, rest) =>
      if |rest| <= size then After(size - |rest|, r.calls, ParseChunks(env, enc, at, rest, chunks)) else r
    case _ => r
  }

  lemma RestBehind(env: Env, enc: Encoding, r: Report, s: Section, stack: seq<Bytes>, behind: Report, size: nat,
                   chunks: seq<Bytes>)
    requires chunks != [] && IsReported(r, s, stack, behind) && s.end.Ends? && s.end.pos <= size
    requires behind.end.NeedMore? ==> |behind.end.rest| <= size - s.end.pos
    ensures IsReported(WithRest(env, enc, r, size, chunks), s, stack,
                       WithRest(env, enc, behind, size - s.end.pos, chunks))
  {
    hide Atoms, LaterAtoms, ParseChunks, WithContent, After;
    var pos := s.end.pos;
    EndAfter(pos, [], behind);
    if behind.end.NeedMore? {
      MoreBehind(r, s, stack, behind, size - pos - |behind.end.rest|,
                 ParseChunks(env, enc, behind.end.at, behind.end.rest, chunks));
    }
  }

  lemma MoreBehind(r: Report, s: Section, stack: seq<Bytes>, behind: Report, n: nat, p: Report)
    requires IsReported(r, s, stack, behind) && s.end.Ends?
    ensures IsReported(After(s.end.pos + n, r.calls, p), s, stack, After(n, behind.calls, p))
  {
    hide Atoms, LaterAtoms, WithContent, After;
    var pos := s.end.pos;
    AfterAtoms(pos + n, r.calls, p);
    AfterAtoms(n, behind.calls, p);
    EndAfter(pos + n, r.calls, p);
    EndAfter(n, behind.calls, p);
    EndAfter(pos, [], After(n, behind.calls, p));
    MoreContent(s.data, pos, Atoms(behind.calls), n, Atoms(p.calls));
  }

  /**
   However the input is cut into buffers, a parser in a section reports exactly the section in it: data, end or
   error, and their places.  The content behind it is reported as that of one buffer is.
   */
  lemma {:induction false} ChunkedSectionIsReported(env: Env, enc: Encoding, stack: seq<Bytes>, left: Bytes,
                                                    chunks: seq<Bytes>) returns (behind: Report)
    requires chunks != []
    ensures ReportsSection(env, enc, stack, left + Concat(chunks),
                           ParseChunks(env, enc, Position(true, stack), left, chunks), behind)
    decreases |chunks|
  {
    hide SectionOf, Parse, IsReported, FirstPiece, IsReportOf, Behind;
    var buffer, more := left + chunks[0], Concat(chunks[1..]);
    var w := left + Concat(chunks);
    assert w == buffer + more;
    if |chunks| == 1 {
      assert w == buffer;
      SectionIsReported(env, enc, stack, w, true);
      behind := Behind(env, enc, stack, w, true);
      BehindIs(env, enc, stack, w, true);
      if SectionOf(enc, w, true).end.Ends? {
        ReportItself(env, enc, Position(false, stack), w[SectionOf(enc, w, true).end.pos..], true);
      }
      return;
    }
    var s, r := SectionOf(enc, buffer, false), Parse(env, enc, Position(true, stack), buffer, false);
    SectionIsReported(env, enc, stack, buffer, false);
    SectionCut(enc, buffer, more, true);
    match s.end {
      case Ends(pos) =>
        behind := EndsInFirst(env, enc, stack, left, chunks);
      case Waits(rest) =>
        WaitsSo(r, s, stack, Behind(env, enc, stack, buffer, false));
        behind := ChunkedSectionIsReported(env, enc, stack, rest, chunks[1..]);
        WaitsInFirst(env, enc, stack, buffer, more, ParseChunks(env, enc, Position(true, stack), rest, chunks[1..]),
                     behind);
      case Stops(_, _) =>
        behind := Behind(env, enc, stack, buffer, false);
        StopsSo(r, s, stack, behind);
    }
  }

  /** The report `r` of input `w` is that of its section, and of the content behind it. */
  ghost predicate ReportsSection(env: Env, enc: Encoding, stack: seq<Bytes>, w: Bytes, r: Report, behind: Report) {
    var s := SectionOf(enc, w, true);
    && IsReported(r, s, stack, behind)
    && (s.end.Ends? ==> IsReportOf(env, enc, Position(false, stack), w[s.end.pos..], true, behind))
  }

  lemma BehindIs(env: Env, enc: Encoding, stack: seq<Bytes>, w: Bytes, final: bool)
    ensures var s := SectionOf(enc, w, final);
      s.end.Ends? ==>
        Behind(env, enc, stack, w, final) == Parse(env, enc, Position(false, stack), w[s.end.pos..], final)
  {
    hide SectionOf, Parse;
  }

  lemma EndsInFirst(env: Env, enc: Encoding, stack: seq<Bytes>, left: Bytes, chunks: seq<Bytes>)
    returns (behind: Report)
    requires |chunks| > 1 && SectionOf(enc, left + chunks[0], false).end.Ends?
    ensures ReportsSection(env, enc, stack, left + Concat(chunks),
                           ParseChunks(env, enc, Position(true, stack), left, chunks), behind)
  {
    hide SectionOf, Parse, IsReported, FirstPiece, IsReportOf, Behind;
    var buffer, rest := left + chunks[0], chunks[1..];
    var w := left + Concat(chunks);
    assert w == buffer + Concat(rest);
    var s, r := SectionOf(enc, buffer, false), Parse(env, enc, Position(true, stack), buffer, false);
    var pos := s.end.pos;
    SectionIsReported(env, enc, stack, buffer, false);
    SectionCut(enc, buffer, Concat(rest), true);
    var first := Behind(env, enc, stack, buffer, false);
    BehindIs(env, enc, stack, buffer, false);
    EndsSame(r, s, stack, first);
    RestBehind(env, enc, r, s, stack, first, |buffer|, rest);
    behind := WithRest(env, enc, first, |buffer| - pos, rest);
    var cut := [buffer[pos..]] + rest;
    assert [] + buffer[pos..] == buffer[pos..] && cut[1..] == rest;
    ChunksDoNotMatter(env, enc, Position(false, stack), [], cut);
    assert [] + Concat(cut) == buffer[pos..] + Concat(rest) == w[pos..];
  }

  lemma WaitsInFirst(env: Env, enc: Encoding, stack: seq<Bytes>, buffer: Bytes, more: Bytes, r: Report, behind: Report)
    requires var s := SectionOf(enc, buffer, false);
      s.end.Waits? && ReportsSection(env, enc, stack, s.end.rest + more, r, behind)
    requires Atoms(Parse(env, enc, Position(true, stack), buffer, false).calls) == SectionOf(enc, buffer, false).data
    ensures var rest, calls := SectionOf(enc, buffer, false).end.rest,
      Parse(env, enc, Position(true, stack), buffer, false).calls;
      ReportsSection(env, enc, stack, buffer + more, After(|buffer| - |rest|, calls, r), behind)
  {
    hide SectionOf, Parse, IsReported, FirstPiece, IsReportOf, Atoms;
    var rest := SectionOf(enc, buffer, false).end.rest;
    SectionCut(enc, buffer, more, true);
    var s := SectionOf(enc, rest + more, true);
    ReportedBehind(|buffer| - |rest|, Parse(env, enc, Position(true, stack), buffer, false).calls, r, s, stack, behind);
    if s.end.Ends? {
      RestOf(buffer, rest, more, s.end.pos);
    }
  }

  lemma EndsSame(r: Report, s: Section, stack: seq<Bytes>, behind: Report)
    requires IsReported(r, s, stack, behind) && s.end.Ends?
    ensures r.end.NeedMore? <==> behind.end.NeedMore?
    ensures r.end.NeedMore? ==> r.end == behind.end
  {
  }

  lemma WaitsSo(r: Report, s: Section, stack: seq<Bytes>, behind: Report)
    requires IsReported(r, s, stack, behind) && s.end.Waits?
    ensures r.end == NeedMore(Position(true, stack), s.end.rest) && Atoms(r.calls) == s.data
  {
  }

  lemma StopsSo(r: Report, s: Section, stack: seq<Bytes>, behind: Report)
    requires IsReported(r, s, stack, behind) && s.end.Stops?
    ensures r.end.Failed?
  {
  }

  lemma RestOf(buffer: Bytes, rest: Bytes, more: Bytes, pos: nat)
    requires |rest| <= |buffer| && rest == buffer[|buffer| - |rest|..] && pos <= |rest + more|
    ensures (buffer + more)[|buffer| - |rest| + pos..] == (rest + more)[pos..]
  {
    assert buffer + more == buffer[..|buffer| - |rest|] + (rest + more);
  }
}
