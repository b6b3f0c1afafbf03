/**
 The token grammar of element content as one automaton.

 A token is scanned from the start of `w`, the bytes that are available; positions are relative
 to that start.  `Next` makes one move, `ScanFrom` runs to the end of the token.  The nested
 loops of the scanners (module Scanners) are proved to compute exactly this automaton.
 */
module Automaton {
  import opened Encodings

  datatype Token =
    | TokTrailingRsqb | TokNone | TokTrailingCr | TokPartialChar | TokPartial | TokInvalid
    | TokStartTagWithAtts | TokStartTagNoAtts | TokEmptyElementWithAtts | TokEmptyElementNoAtts
    | TokEndTag | TokDataChars | TokDataNewline | TokCdataSectOpen | TokEntityRef | TokCharRef
    | TokPi | TokXmlDecl | TokComment | TokAttributeValueS | TokCdataSectClose
  {
    /** More input may change the answer. */
    predicate Open() {
      TokTrailingRsqb? || TokNone? || TokTrailingCr? || TokPartialChar? || TokPartial?
    }

    predicate Data() { TokDataChars? || TokDataNewline? }
  }

  /** A token and where it ends; an invalid token ends at the offending character, an open one nowhere (0). */
  datatype Scan = Scan(tok: Token, next: nat)

  const PARTIAL := Scan(TokPartial, 0)
  const PARTIAL_CHAR := Scan(TokPartialChar, 0)

  function Invalid(p: nat): Scan { Scan(TokInvalid, p) }

  /** What one character does inside a character class: go past it, end the scan, or not belong. */
  datatype Class = In(n: nat) | Stop(r: Scan) | Out

  function LeadClass(w: Bytes, p: nat, n: nat, ok: bool): Class {
    if |w| < p + n then Stop(PARTIAL_CHAR) else if ok then In(n) else Stop(Invalid(p))
  }

  function NmstrtClass(enc: Encoding, w: Bytes, p: nat): Class
    requires p < |w|
  {
    var t := enc.byteType(w[p]);
    var n := LeadLength(t);
    if IsNmstrtType(t) then In(1)
    else if n > 0 then LeadClass(w, p, n, p + n <= |w| && enc.isNmstrt(w[p..p + n]))
    else Out
  }

  function NameClass(enc: Encoding, w: Bytes, p: nat): Class
    requires p < |w|
  {
    var t := enc.byteType(w[p]);
    var n := LeadLength(t);
    if IsNameType(t) then In(1)
    else if n > 0 then LeadClass(w, p, n, p + n <= |w| && enc.isName(w[p..p + n]))
    else Out
  }

  /** Any character: a multibyte one must be valid; the single bytes are left to the caller. */
  function CharClass(enc: Encoding, w: Bytes, p: nat): Class
    requires p < |w|
  {
    var t := enc.byteType(w[p]);
    var n := LeadLength(t);
    if IsNonCharType(t) then Stop(Invalid(p))
    else if n > 0 then LeadClass(w, p, n, p + n <= |w| && !enc.isInvalid(w[p..p + n]))
    else Out
  }

  /** Where a reference was met: in content, or inside an attribute value closed by that quote. */
  datatype Context = InContent | InValue(quote: ByteType)

  datatype State =
    | AfterLt | AfterExcl | CommentDash | InComment | CdataKeyword
    | PiStart | PiTarget(start: nat) | InPi(tok: Token)
    | EndTagStart | EndTagName | EndTagSpace
    | TagName(hadColon: bool) | TagColon | TagSpace | TagSlash(atts: bool)
    | AttName(hadColon: bool) | AttColon | AttNameSpace | AttEquals
    | AttValue(quote: ByteType) | AttQuoted | AttSpace
    | RefStart(ctx: Context) | RefName(ctx: Context)
    | CharRefStart(ctx: Context) | DecCharRef(ctx: Context)
    | HexCharRefStart(ctx: Context) | HexCharRef(ctx: Context)

  datatype Step = Move(n: nat, q: State) | Halt(r: Scan)

  function StepClass(c: Class, q: State, out: Step): Step {
    match c
    case In(n) => Move(n, q)
    case Stop(r) => Halt(r)
    case Out => out
  }

  const CDATA_LSQB: Bytes := [0x43, 0x44, 0x41, 0x54, 0x41, 0x5B]

  /** The first position of `CDATA[` that does not match, 6 if all do. */
  function KeywordMatch(w: Bytes, p: nat, i: nat): (r: nat)
    requires i <= 6 && p + 6 <= |w|
    ensures i <= r <= 6
    decreases 6 - i
  {
    if i == 6 || w[p + i] != CDATA_LSQB[i] then i else KeywordMatch(w, p, i + 1)
  }

  /** Is the target allowed?  `xml` is the XML declaration, other spellings of it are reserved. */
  datatype TargetCheck = Reserved | Target(tok: Token)

  function CheckPiTarget(w: Bytes, p: nat, end: nat): TargetCheck
    requires p <= end <= |w|
  {
    if end - p != 3 || w[p] !in {0x78, 0x58} || w[p + 1] !in {0x6D, 0x4D} || w[p + 2] !in {0x6C, 0x4C}
    then Target(TokPi)
    else if w[p] == 0x58 || w[p + 1] == 0x4D || w[p + 2] == 0x4C then Reserved
    else Target(TokXmlDecl)
  }

  /** The byte after `p` must be `>`: `tok` ends there. */
  function ExpectGt(w: Bytes, p: nat, tok: Token): Scan
    requires p < |w|
  {
    if p + 1 == |w| then PARTIAL
    else if w[p + 1] == ASCII_GT then Scan(tok, p + 2)
    else Invalid(p + 1)
  }

  /** The end of a reference: a token in content, back to the value in an attribute. */
  function EndRef(ctx: Context, tok: Token, p: nat): Step {
    match ctx
    case InContent => Halt(Scan(tok, p + 1))
    case InValue(quote) => Move(1, AttValue(quote))
  }

  /** A state the automaton can be in at position `p`. */
  predicate At(q: State, p: nat) {
    && (q.PiTarget? ==> q.start <= p)
    && (q.InPi? ==> q.tok.TokPi? || q.tok.TokXmlDecl?)
  }

  predicate InTag(q: State) {
    || q.TagName? || q.TagColon? || q.TagSpace? || q.TagSlash?
    || q.AttName? || q.AttColon? || q.AttNameSpace? || q.AttEquals?
    || q.AttValue? || q.AttQuoted? || q.AttSpace?
  }

  predicate InRef(q: State) {
    || q.RefStart? || q.RefName?
    || q.CharRefStart? || q.DecCharRef? || q.HexCharRefStart? || q.HexCharRef?
  }

  /** After `<`. */
  function AfterLtRow(enc: Encoding, w: Bytes, p: nat): Step
    requires p < |w|
  {
    var t := enc.byteType(w[p]);
    StepClass(NmstrtClass(enc, w, p), TagName(false),
      if t == BtExcl then Move(1, AfterExcl)
      else if t == BtQuest then Move(1, PiStart)
      else if t == BtSol then Move(1, EndTagStart)
      else Halt(Invalid(p)))
  }

  /** After `<!`. */
  function AfterExclRow(enc: Encoding, w: Bytes, p: nat): Step
    requires p < |w|
  {
    var t := enc.byteType(w[p]);
    if t == BtMinus then Move(1, CommentDash)
    else if t == BtLsqb then Move(1, CdataKeyword)
    else Halt(Invalid(p))
  }

  /** In the target of a processing instruction that begins at `start`. */
  function PiTargetRow(enc: Encoding, w: Bytes, p: nat, start: nat): Step
    requires p < |w| && start <= p
  {
    var t := enc.byteType(w[p]);
    StepClass(NameClass(enc, w, p), PiTarget(start),
      if !IsSpaceType(t) && t != BtQuest then Halt(Invalid(p))
      else
        match CheckPiTarget(w, start, p)
        case Reserved => Halt(Invalid(p))
        case Target(tok) =>
          if IsSpaceType(t) then Move(1, InPi(tok)) else Halt(ExpectGt(w, p, tok)))
  }

  /** In the name of an end tag. */
  function EndTagNameRow(enc: Encoding, w: Bytes, p: nat): Step
    requires p < |w|
  {
    var t := enc.byteType(w[p]);
    StepClass(NameClass(enc, w, p), EndTagName,
      if IsSpaceType(t) then Move(1, EndTagSpace)
      else if t == BtColon then Move(1, EndTagName)
      else if t == BtGt then Halt(Scan(TokEndTag, p + 1))
      else Halt(Invalid(p)))
  }

  /** In the name of a start tag. */
  function TagNameRow(enc: Encoding, w: Bytes, p: nat, hadColon: bool): Step
    requires p < |w|
  {
    var t := enc.byteType(w[p]);
    StepClass(NameClass(enc, w, p), TagName(hadColon),
      if t == BtColon then (if hadColon then Halt(Invalid(p)) else Move(1, TagColon))
      else if IsSpaceType(t) then Move(1, TagSpace)
      else if t == BtGt then Halt(Scan(TokStartTagNoAtts, p + 1))
      else if t == BtSol then Move(1, TagSlash(false))
      else Halt(Invalid(p)))
  }

  /** In the name of an attribute. */
  function AttNameRow(enc: Encoding, w: Bytes, p: nat, hadColon: bool): Step
    requires p < |w|
  {
    var t := enc.byteType(w[p]);
    StepClass(NameClass(enc, w, p), AttName(hadColon),
      if t == BtColon then (if hadColon then Halt(Invalid(p)) else Move(1, AttColon))
      else if IsSpaceType(t) then Move(1, AttNameSpace)
      else if t == BtEquals then Move(1, AttEquals)
      else Halt(Invalid(p)))
  }

  /** After a closing quote. */
  function AttQuotedRow(enc: Encoding, w: Bytes, p: nat): Step
    requires p < |w|
  {
    var t := enc.byteType(w[p]);
    if IsSpaceType(t) then Move(1, AttSpace)
    else if t == BtSol then Move(1, TagSlash(true))
    else if t == BtGt then Halt(Scan(TokStartTagWithAtts, p + 1))
    else Halt(Invalid(p))
  }

  /** After a closing quote and white space. */
  function AttSpaceRow(enc: Encoding, w: Bytes, p: nat): Step
    requires p < |w|
  {
    var t := enc.byteType(w[p]);
    StepClass(NmstrtClass(enc, w, p), AttName(false),
      if IsSpaceType(t) then Move(1, AttSpace)
      else if t == BtGt then Halt(Scan(TokStartTagWithAtts, p + 1))
      else if t == BtSol then Move(1, TagSlash(true))
      else Halt(Invalid(p)))
  }

  /** Declarations, comments, processing instructions and end tags. */
  function NextInMarkup(enc: Encoding, w: Bytes, p: nat, q: State): Step
    requires p < |w| && At(q, p) && !InTag(q) && !InRef(q)
  {
    var t := enc.byteType(w[p]);
    var bad := Halt(Invalid(p));
    match q
    case AfterLt => AfterLtRow(enc, w, p)
    case AfterExcl => AfterExclRow(enc, w, p)
    case CommentDash => if w[p] == ASCII_MINUS then Move(1, InComment) else bad
    case InComment =>
      StepClass(CharClass(enc, w, p), InComment,
        if t != BtMinus then Move(1, InComment)
        else if p + 1 == |w| then Halt(PARTIAL)
        else if w[p + 1] == ASCII_MINUS then Halt(ExpectGt(w, p + 1, TokComment))
        else Move(1, InComment))
    case CdataKeyword =>
      if |w| < p + 6 then Halt(PARTIAL)
      else
        var i := KeywordMatch(w, p, 0);
        if i == 6 then Halt(Scan(TokCdataSectOpen, p + 6)) else Halt(Invalid(p + i))
    case PiStart => StepClass(NmstrtClass(enc, w, p), PiTarget(p), bad)
    case PiTarget(start) => PiTargetRow(enc, w, p, start)
    case InPi(tok) =>
      StepClass(CharClass(enc, w, p), q,
        if t != BtQuest then Move(1, q)
        else if p + 1 == |w| then Halt(PARTIAL)
        else if w[p + 1] == ASCII_GT then Halt(Scan(tok, p + 2))
        else Move(1, q))
    case EndTagStart => StepClass(NmstrtClass(enc, w, p), EndTagName, bad)
    case EndTagName => EndTagNameRow(enc, w, p)
    case EndTagSpace =>
      if IsSpaceType(t) then Move(1, q)
      else if t == BtGt then Halt(Scan(TokEndTag, p + 1))
      else bad
  }

  /** Start tags and empty-element tags. */
  function NextInTag(enc: Encoding, w: Bytes, p: nat, q: State): Step
    requires p < |w| && At(q, p) && InTag(q)
  {
    var t := enc.byteType(w[p]);
    var bad := Halt(Invalid(p));
    match q
    case TagName(hadColon) => TagNameRow(enc, w, p, hadColon)
    case TagColon => StepClass(NmstrtClass(enc, w, p), TagName(true), bad)
    case TagSpace =>
      StepClass(NmstrtClass(enc, w, p), AttName(false),
        if t == BtGt then Halt(Scan(TokStartTagNoAtts, p + 1))
        else if t == BtSol then Move(1, TagSlash(false))
        else if IsSpaceType(t) then Move(1, q)
        else bad)
    case TagSlash(atts) =>
      if w[p] != ASCII_GT then bad
      else Halt(Scan(if atts then TokEmptyElementWithAtts else TokEmptyElementNoAtts, p + 1))
    case AttName(hadColon) => AttNameRow(enc, w, p, hadColon)
    case AttColon => StepClass(NmstrtClass(enc, w, p), AttName(true), bad)
    case AttNameSpace =>
      if t == BtEquals then Move(1, AttEquals)
      else if IsSpaceType(t) then Move(1, q)
      else bad
    case AttEquals =>
      if t == BtQuot || t == BtApos then Move(1, AttValue(t))
      else if IsSpaceType(t) then Move(1, q)
      else bad
    case AttValue(quote) =>
      if t == quote then Move(1, AttQuoted)
      else
        StepClass(CharClass(enc, w, p), q,
          if t == BtAmp then Move(1, RefStart(InValue(quote)))
          else if t == BtLt then bad
          else Move(1, q))
    case AttQuoted => AttQuotedRow(enc, w, p)
    case AttSpace => AttSpaceRow(enc, w, p)
  }

  /** References. */
  function NextInRef(enc: Encoding, w: Bytes, p: nat, q: State): Step
    requires p < |w| && At(q, p) && InRef(q)
  {
    var t := enc.byteType(w[p]);
    var bad := Halt(Invalid(p));
    match q
    case RefStart(ctx) =>
      StepClass(NmstrtClass(enc, w, p), RefName(ctx),
        if t == BtNum then Move(1, CharRefStart(ctx)) else bad)
    case RefName(ctx) =>
      StepClass(NameClass(enc, w, p), q,
        if t == BtSemi then EndRef(ctx, TokEntityRef, p) else bad)
    case CharRefStart(ctx) =>
      if w[p] == ASCII_x then Move(1, HexCharRefStart(ctx))
      else if t == BtDigit then Move(1, DecCharRef(ctx))
      else bad
    case DecCharRef(ctx) =>
      if t == BtDigit then Move(1, q)
      else if t == BtSemi then EndRef(ctx, TokCharRef, p)
      else bad
    case HexCharRefStart(ctx) =>
      if t == BtDigit || t == BtHex then Move(1, HexCharRef(ctx)) else bad
    case HexCharRef(ctx) =>
      if t == BtDigit || t == BtHex then Move(1, q)
      else if t == BtSemi then EndRef(ctx, TokCharRef, p)
      else bad
  }

  function Next(enc: Encoding, w: Bytes, p: nat, q: State): Step
    requires p < |w| && At(q, p)
  {
    if InRef(q) then NextInRef(enc, w, p, q)
    else if InTag(q) then NextInTag(enc, w, p, q)
    else NextInMarkup(enc, w, p, q)
  }

  /** A step stays inside the input, goes forward, and ends only with markup, never with data. */
  predicate Sound(w: Bytes, p: nat, s: Step) {
    match s
    case Move(n, q') => 0 < n && p + n <= |w| && At(q', p + n)
    case Halt(r) =>
      !r.tok.Data() && if r.tok.Open() then r.next == 0 else p <= r.next <= |w| && (r.tok != TokInvalid ==> p < r.next)
  }

  lemma MarkupSound(enc: Encoding, w: Bytes, p: nat, q: State)
    requires p < |w| && At(q, p) && !InTag(q) && !InRef(q)
    ensures Sound(w, p, NextInMarkup(enc, w, p, q))
  {
  }

  lemma TagSound(enc: Encoding, w: Bytes, p: nat, q: State)
    requires p < |w| && At(q, p) && InTag(q)
    ensures Sound(w, p, NextInTag(enc, w, p, q))
  {
  }

  lemma RefSound(enc: Encoding, w: Bytes, p: nat, q: State)
    requires p < |w| && At(q, p) && InRef(q)
    ensures Sound(w, p, NextInRef(enc, w, p, q))
  {
  }

  lemma NextSound(enc: Encoding, w: Bytes, p: nat, q: State)
    requires p < |w| && At(q, p)
    ensures Sound(w, p, Next(enc, w, p, q))
  {
    if InRef(q) {
      RefSound(enc, w, p, q);
    } else if InTag(q) {
      TagSound(enc, w, p, q);
    } else {
      MarkupSound(enc, w, p, q);
    }
  }

  /** The moves of an automaton as a value, so that facts about whole scans need not look at its table. */
  type Moves = (Bytes, nat, State) -> Step

  ghost predicate AllSound(next: Moves) {
    forall w: Bytes, p: nat, q: State :: p < |w| && At(q, p) ==> Sound(w, p, next(w, p, q))
  }

  function MovesOf(enc: Encoding): (next: Moves)
    ensures AllSound(next)
  {
    forall w: Bytes, p: nat, q | p < |w| && At(q, p) ensures Sound(w, p, Next(enc, w, p, q)) {
      NextSound(enc, w, p, q);
    }
    (w: Bytes, p: nat, q: State) => if p < |w| && At(q, p) then Next(enc, w, p, q) else Halt(PARTIAL)
  }

  /** Runs an automaton from position `p` in state `q`. */
  function Run(next: Moves, w: Bytes, p: nat, q: State): (r: Scan)
    requires AllSound(next) && p <= |w| && At(q, p)
    ensures if r.tok.Open() then r.next == 0 else p <= r.next <= |w|
    ensures !r.tok.Open() && r.tok != TokInvalid ==> p < r.next
    ensures !r.tok.Data()
    decreases |w| - p
  {
    if p == |w| then PARTIAL
    else
      assert Sound(w, p, next(w, p, q));
      match next(w, p, q)
      case Move(n, q') => Run(next, w, p + n, q')
      case Halt(r) => r
  }

  /** The rest of a token whose automaton is in state `q` at position `p`. */
  function ScanFrom(enc: Encoding, w: Bytes, p: nat, q: State): (r: Scan)
    requires p <= |w| && At(q, p)
    ensures if r.tok.Open() then r.next == 0 else p <= r.next <= |w|
    ensures !r.tok.Open() && r.tok != TokInvalid ==> p < r.next
    ensures !r.tok.Data()
    ensures p == |w| ==> r == PARTIAL
  {
    Run(MovesOf(enc), w, p, q)
  }

  /** One step of a scan. */
  lemma ScanStep(enc: Encoding, w: Bytes, p: nat, q: State)
    requires p < |w| && At(q, p)
    ensures match Next(enc, w, p, q)
      case Move(n, q') => 0 < n && p + n <= |w| && At(q', p + n)
        && ScanFrom(enc, w, p, q) == ScanFrom(enc, w, p + n, q')
      case Halt(r) => ScanFrom(enc, w, p, q) == r
  {
    NextSound(enc, w, p, q);
    assert MovesOf(enc)(w, p, q) == Next(enc, w, p, q);
  }

  /** The step is what the scan does next. */
  predicate Leads(enc: Encoding, w: Bytes, p: nat, q: State, step: Step)
    requires p <= |w| && At(q, p)
  {
    match step
    case Move(n, q') => 0 < n && p + n <= |w| && At(q', p + n) && ScanFrom(enc, w, p, q) == ScanFrom(enc, w, p + n, q')
    case Halt(r) => ScanFrom(enc, w, p, q) == r
  }

  /** One step of a run of data: the next character belongs to it, or the run is over. */
  datatype RunStep = More(n: nat) | Done(r: Scan)

  /** The character at `p` in a run of data; `]` needs up to two bytes more to be told from `]]>`. */
  function DataStep(enc: Encoding, w: Bytes, p: nat): (s: RunStep)
    requires p < |w|
  {
    var t := enc.byteType(w[p]);
    var n := LeadLength(t);
    var here := Done(Scan(TokDataChars, p));
    if n > 0 then
      if |w| < p + n || enc.isInvalid(w[p..p + n]) then here else More(n)
    else if t == BtRsqb then
      if p + 1 == |w| then here
      else if w[p + 1] != ASCII_RSQB then More(1)
      else if p + 2 == |w| then here
      else if w[p + 2] != ASCII_GT then More(1)
      else Done(Invalid(p + 2))
    else if t == BtAmp || t == BtLt || t == BtCr || t == BtLf || IsNonCharType(t) then here
    else More(1)
  }

  lemma DataStepFits(enc: Encoding, w: Bytes, p: nat)
    requires p < |w|
    ensures match DataStep(enc, w, p)
      case More(n) => 0 < n && p + n <= |w|
      case Done(r) => p <= r.next <= |w| && (r == Scan(TokDataChars, p) || r.tok.TokInvalid?)
  {
  }

  function DataRun(enc: Encoding, w: Bytes, p: nat): (r: Scan)
    requires p <= |w|
    ensures p <= r.next <= |w| && (r.tok.TokDataChars? || (r.tok.TokInvalid? && p + 2 <= r.next < |w|))
    decreases |w| - p
  {
    if p == |w| then Scan(TokDataChars, p)
    else
      match DataStep(enc, w, p)
      case More(n) => DataRun(enc, w, p + n)
      case Done(r) => r
  }

  /** A carriage return with the line feed that may follow it. */
  function CrLf(enc: Encoding, w: Bytes, open: Token): Scan
    requires 1 <= |w|
  {
    if |w| == 1 then Scan(open, 0)
    else if enc.byteType(w[1]) == BtLf then Scan(TokDataNewline, 2)
    else Scan(TokDataNewline, 1)
  }

  /** The next token of element content. */
  function ContentTok(enc: Encoding, w: Bytes): (r: Scan)
    ensures if r.tok.Open() then r.next == 0 else r.next <= |w|
    ensures !r.tok.Open() && r.tok != TokInvalid ==> 0 < r.next
    ensures r.tok == TokEntityRef || r.tok == TokEndTag ==> 1 < r.next
  {
    if |w| == 0 then Scan(TokNone, 0)
    else
      var t := enc.byteType(w[0]);
      if t == BtLt then ScanFrom(enc, w, 1, AfterLt)
      else if t == BtAmp then ScanFrom(enc, w, 1, RefStart(InContent))
      else if t == BtCr then CrLf(enc, w, TokTrailingCr)
      else if t == BtLf then Scan(TokDataNewline, 1)
      else if t == BtRsqb then
        if |w| == 1 then Scan(TokTrailingRsqb, 0)
        else if w[1] != ASCII_RSQB then DataRun(enc, w, 1)
        else if |w| == 2 then Scan(TokTrailingRsqb, 0)
        else if w[2] != ASCII_GT then DataRun(enc, w, 1)
        else Invalid(2)
      else
        match CharClass(enc, w, 0)
        case Stop(r) => r
        case In(n) => DataRun(enc, w, n)
        case Out => DataRun(enc, w, 1)
  }

  /** How many bytes a run of data in a CDATA section takes at `p`; 0 if it is over. */
  function CdataStep(enc: Encoding, w: Bytes, p: nat): nat
    requires p < |w|
  {
    var t := enc.byteType(w[p]);
    var n := LeadLength(t);
    if n > 0 then
      if |w| < p + n || enc.isInvalid(w[p..p + n]) then 0 else n
    else if t == BtCr || t == BtLf || t == BtRsqb || IsNonCharType(t) then 0
    else 1
  }

  function CdataRun(enc: Encoding, w: Bytes, p: nat): (r: nat)
    requires p <= |w|
    ensures p <= r <= |w|
    decreases |w| - p
  {
    if p == |w| then p
    else
      var n := CdataStep(enc, w, p);
      if n == 0 then p else CdataRun(enc, w, p + n)
  }

  /** The next token of a CDATA section. */
  function CdataSectionTok(enc: Encoding, w: Bytes): (r: Scan)
    ensures if r.tok.Open() then r.next == 0 else r.next <= |w|
    ensures !r.tok.Open() && r.tok != TokInvalid ==> 0 < r.next
    ensures !r.tok.TokTrailingRsqb? && !r.tok.TokTrailingCr?
  {
    if |w| == 0 then Scan(TokNone, 0)
    else
      var t := enc.byteType(w[0]);
      if t == BtRsqb then
        if |w| == 1 then PARTIAL
        else if w[1] != ASCII_RSQB then Scan(TokDataChars, CdataRun(enc, w, 1))
        else if |w| == 2 then PARTIAL
        else if w[2] != ASCII_GT then Scan(TokDataChars, CdataRun(enc, w, 1))
        else Scan(TokCdataSectClose, 3)
      else if t == BtCr then CrLf(enc, w, TokPartial)
      else if t == BtLf then Scan(TokDataNewline, 1)
      else
        match CharClass(enc, w, 0)
        case Stop(r) => r
        case In(n) => Scan(TokDataChars, CdataRun(enc, w, n))
        case Out => Scan(TokDataChars, CdataRun(enc, w, 1))
  }
}
