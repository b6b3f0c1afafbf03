/**
 The scanners of element content, with the loops and branches of the parser.

 Each one gets the position after the characters its caller has matched and is proved to give the
 token, and the position, that the automaton gives from the corresponding state.
 */
module Scanners {
  import opened Encodings
  import opened Automaton

  /** The step of the states with many branches, by name. */
  function Row(enc: Encoding, w: Bytes, p: nat, q: State): Step
    requires p < |w| && At(q, p)
  {
    match q
    case AfterLt => AfterLtRow(enc, w, p)
    case AfterExcl => AfterExclRow(enc, w, p)
    case PiTarget(start) => PiTargetRow(enc, w, p, start)
    case EndTagName => EndTagNameRow(enc, w, p)
    case TagName(hadColon) => TagNameRow(enc, w, p, hadColon)
    case AttName(hadColon) => AttNameRow(enc, w, p, hadColon)
    case AttQuoted => AttQuotedRow(enc, w, p)
    case AttSpace => AttSpaceRow(enc, w, p)
    case _ => Next(enc, w, p, q)
  }

  lemma RowLeads(enc: Encoding, w: Bytes, p: nat, q: State)
    requires p < |w| && At(q, p)
    ensures Leads(enc, w, p, q, Row(enc, w, p, q))
  {
    hide ScanFrom, AfterLtRow, AfterExclRow, PiTargetRow, EndTagNameRow, TagNameRow, AttNameRow, AttQuotedRow,
         AttSpaceRow;
    hide NmstrtClass, NameClass, CharClass, CheckPiTarget, ExpectGt, StepClass;
    ScanStep(enc, w, p, q);
  }

  /** Within a name. */
  lemma NameGoes(enc: Encoding, w: Bytes, p: nat, q: State)
    requires p < |w| && At(q, p) && (q.PiTarget? || q.EndTagName? || q.TagName? || q.AttName?)
    ensures match NameClass(enc, w, p)
      case Stop(s) => ScanFrom(enc, w, p, q) == s
      case In(n) => 0 < n && p + n <= |w| && ScanFrom(enc, w, p, q) == ScanFrom(enc, w, p + n, q)
      case Out => true
  {
    hide ScanFrom, NameClass, CheckPiTarget, ExpectGt, Next;
    RowLeads(enc, w, p, q);
  }

  /** A state in which a name must begin, at `p`, and the state within the name. */
  predicate NameBegins(q: State, p: nat, within: State) {
    || (q == PiStart && within == PiTarget(p)) || (q == EndTagStart && within == EndTagName)
    || (q == TagColon && within == TagName(true)) || (q == AttColon && within == AttName(true))
  }

  lemma NameStartLeads(enc: Encoding, w: Bytes, p: nat, q: State, within: State)
    requires p < |w| && NameBegins(q, p, within)
    ensures Leads(enc, w, p, q, StepClass(NmstrtClass(enc, w, p), within, Halt(Invalid(p))))
  {
    hide ScanFrom, AfterLtRow, AfterExclRow, PiTargetRow, EndTagNameRow, TagNameRow, AttNameRow, AttQuotedRow,
         AttSpaceRow;
    hide NmstrtClass, NameClass, CharClass, CheckPiTarget, ExpectGt, StepClass;
    ScanStep(enc, w, p, q);
  }

  /** Where a part of a scanner leaves off: at a position to go on from, or with the token. */
  datatype Found = Found(p: nat) | Ended(r: Scan)

  /** Past the first character of a name. */
  method PassNameStart(enc: Encoding, w: Bytes, ptr: nat, ghost q: State, ghost within: State) returns (f: Found)
    requires ptr <= |w| && NameBegins(q, ptr, within)
    ensures match f
      case Ended(r) => r == ScanFrom(enc, w, ptr, q)
      case Found(p) => ptr < p <= |w| && At(within, p) && ScanFrom(enc, w, p, within) == ScanFrom(enc, w, ptr, q)
  {
    hide ScanFrom, NmstrtClass;
    if ptr == |w| { return Ended(PARTIAL); }
    NameStartLeads(enc, w, ptr, q, within);
    match NmstrtClass(enc, w, ptr) {
      case Stop(s) => return Ended(s);
      case In(n) => return Found(ptr + n);
      case Out => return Ended(Invalid(ptr));
    }
  }

  /** After `<!-`. */
  method ScanComment(enc: Encoding, w: Bytes, ptr: nat) returns (r: Scan)
    requires ptr <= |w|
    ensures r == ScanFrom(enc, w, ptr, CommentDash)
  {
    hide ScanFrom, NmstrtClass, NameClass, CharClass, NextInTag, NextInRef;
    var p := ptr;
    if p != |w| {
      ScanStep(enc, w, p, CommentDash);
      if w[p] != ASCII_MINUS { return Invalid(p); }
      p := p + 1;
      while p != |w|
        invariant p <= |w| && ScanFrom(enc, w, p, InComment) == ScanFrom(enc, w, ptr, CommentDash)
        decreases |w| - p
      {
        ScanStep(enc, w, p, InComment);
        match CharClass(enc, w, p) {
          case Stop(s) => return s;
          case In(n) => p := p + n;
          case Out =>
            if enc.byteType(w[p]) == BtMinus {
              p := p + 1;
              if p == |w| { return PARTIAL; }
              if w[p] == ASCII_MINUS {
                p := p + 1;
                if p == |w| { return PARTIAL; }
                if w[p] != ASCII_GT { return Invalid(p); }
                return Scan(TokComment, p + 1);
              }
            } else {
              p := p + 1;
            }
        }
      }
    }
    return PARTIAL;
  }

  /** After `<?`. */
  method ScanPi(enc: Encoding, w: Bytes, ptr: nat) returns (r: Scan)
    requires ptr <= |w|
    ensures r == ScanFrom(enc, w, ptr, PiStart)
  {
    hide CheckPiTarget, ScanFrom, Next, NmstrtClass, NameClass, CharClass, NextInMarkup, NextInTag, NextInRef,
      PiTargetRow;
    var p := ptr;
    var target := p;
    var f := PassNameStart(enc, w, p, PiStart, PiTarget(p));
    if f.Ended? { return f.r; }
    p := f.p;
    while p != |w|
      invariant target <= p <= |w| && ScanFrom(enc, w, p, PiTarget(target)) == ScanFrom(enc, w, ptr, PiStart)
      decreases |w| - p
    {
      NameGoes(enc, w, p, PiTarget(target));
      match NameClass(enc, w, p) {
        case Stop(s) => return s;
        case In(n) => p := p + n;
        case Out =>
          r := ScanAfterTarget(enc, w, p, target);
          return;
      }
    }
    return PARTIAL;
  }

  /** Behind the target that begins at `target`. */
  method ScanAfterTarget(enc: Encoding, w: Bytes, ptr: nat, target: nat) returns (r: Scan)
    requires target <= ptr < |w| && NameClass(enc, w, ptr) == Out
    ensures r == ScanFrom(enc, w, ptr, PiTarget(target))
  {
    hide CheckPiTarget, ScanFrom, Next, NmstrtClass, NameClass, CharClass, NextInMarkup, NextInTag, NextInRef;
    RowLeads(enc, w, ptr, PiTarget(target));
    var t := enc.byteType(w[ptr]);
    if !IsSpaceType(t) && t != BtQuest { return Invalid(ptr); }
    var check := CheckPiTarget(w, target, ptr);
    if check == Reserved { return Invalid(ptr); }
    if IsSpaceType(t) {
      r := ScanPiBody(enc, w, ptr + 1, check.tok);
      return;
    }
    if ptr + 1 == |w| { return PARTIAL; }
    if w[ptr + 1] == ASCII_GT { return Scan(check.tok, ptr + 2); }
    return Invalid(ptr + 1);
  }

  /** The inner loop of `ScanPi`: after the target and one white space character. */
  method ScanPiBody(enc: Encoding, w: Bytes, ptr: nat, tok: Token) returns (r: Scan)
    requires ptr <= |w| && (tok == TokPi || tok == TokXmlDecl)
    ensures r == ScanFrom(enc, w, ptr, InPi(tok))
  {
    hide ScanFrom, NmstrtClass, NameClass, CharClass, NextInTag, NextInRef;
    var p := ptr;
    while p != |w|
      invariant p <= |w| && ScanFrom(enc, w, p, InPi(tok)) == ScanFrom(enc, w, ptr, InPi(tok))
      decreases |w| - p
    {
      ScanStep(enc, w, p, InPi(tok));
      match CharClass(enc, w, p) {
        case Stop(s) => return s;
        case In(n) => p := p + n;
        case Out =>
          if enc.byteType(w[p]) == BtQuest {
            p := p + 1;
            if p == |w| { return PARTIAL; }
            if w[p] == ASCII_GT { return Scan(tok, p + 1); }
          } else {
            p := p + 1;
          }
      }
    }
    return PARTIAL;
  }

  /** After `<![`. */
  method ScanCdataSection(enc: Encoding, w: Bytes, ptr: nat) returns (r: Scan)
    requires ptr <= |w|
    ensures r == ScanFrom(enc, w, ptr, CdataKeyword)
  {
    hide NextInTag, NextInRef;
    if ptr < |w| { ScanStep(enc, w, ptr, CdataKeyword); }
    if |w| - ptr < 6 { return PARTIAL; }
    var i := 0;
    while i < 6
      invariant 0 <= i <= 6 && KeywordMatch(w, ptr, i) == KeywordMatch(w, ptr, 0)
    {
      if w[ptr + i] != CDATA_LSQB[i] { return Invalid(ptr + i); }
      i := i + 1;
    }
    return Scan(TokCdataSectOpen, ptr + 6);
  }

  /** After `</`. */
  method ScanEndTag(enc: Encoding, w: Bytes, ptr: nat) returns (r: Scan)
    requires ptr <= |w|
    ensures r == ScanFrom(enc, w, ptr, EndTagStart)
  {
    hide ScanFrom, Next, NmstrtClass, NameClass, CharClass, NextInMarkup, NextInTag, NextInRef;
    var p := ptr;
    var f := PassNameStart(enc, w, p, EndTagStart, EndTagName);
    if f.Ended? { return f.r; }
    p := f.p;
    while p != |w|
      invariant p <= |w| && ScanFrom(enc, w, p, EndTagName) == ScanFrom(enc, w, ptr, EndTagStart)
      decreases |w| - p
    {
      RowLeads(enc, w, p, EndTagName);
      match NameClass(enc, w, p) {
        case Stop(s) => return s;
        case In(n) => p := p + n;
        case Out =>
          var t := enc.byteType(w[p]);
          if IsSpaceType(t) {
            p := p + 1;
            r := ScanEndTagSpace(enc, w, p);
            return;
          } else if t == BtColon {
            p := p + 1;
          } else if t == BtGt {
            return Scan(TokEndTag, p + 1);
          } else {
            return Invalid(p);
          }
      }
    }
    return PARTIAL;
  }

  /** The inner loop of `ScanEndTag`: after the name and one white space character. */
  method ScanEndTagSpace(enc: Encoding, w: Bytes, ptr: nat) returns (r: Scan)
    requires ptr <= |w|
    ensures r == ScanFrom(enc, w, ptr, EndTagSpace)
  {
    hide ScanFrom, NextInTag, NextInRef;
    var p := ptr;
    while p != |w|
      invariant p <= |w| && ScanFrom(enc, w, p, EndTagSpace) == ScanFrom(enc, w, ptr, EndTagSpace)
      decreases |w| - p
    {
      ScanStep(enc, w, p, EndTagSpace);
      var u := enc.byteType(w[p]);
      if u == BtGt { return Scan(TokEndTag, p + 1); }
      if !IsSpaceType(u) { return Invalid(p); }
      p := p + 1;
    }
    return PARTIAL;
  }

  /** After `&#x`. */
  method ScanHexCharRef(enc: Encoding, w: Bytes, ptr: nat) returns (r: Scan)
    requires ptr <= |w|
    ensures r == ScanFrom(enc, w, ptr, HexCharRefStart(InContent))
  {
    hide ScanFrom, NmstrtClass, NameClass, CharClass, NextInTag, NextInMarkup;
    var p := ptr;
    if p != |w| {
      ScanStep(enc, w, p, HexCharRefStart(InContent));
      var t := enc.byteType(w[p]);
      if t != BtDigit && t != BtHex { return Invalid(p); }
      p := p + 1;
      while p != |w|
        invariant p <= |w|
        invariant ScanFrom(enc, w, p, HexCharRef(InContent)) == ScanFrom(enc, w, ptr, HexCharRefStart(InContent))
        decreases |w| - p
      {
        ScanStep(enc, w, p, HexCharRef(InContent));
        var u := enc.byteType(w[p]);
        if u == BtSemi { return Scan(TokCharRef, p + 1); }
        if u != BtDigit && u != BtHex { return Invalid(p); }
        p := p + 1;
      }
    }
    return PARTIAL;
  }

  /** After `&#`. */
  method ScanCharRef(enc: Encoding, w: Bytes, ptr: nat) returns (r: Scan)
    requires ptr <= |w|
    ensures r == ScanFrom(enc, w, ptr, CharRefStart(InContent))
  {
    hide ScanFrom, NmstrtClass, NameClass, CharClass, NextInTag, NextInMarkup;
    var p := ptr;
    if p != |w| {
      ScanStep(enc, w, p, CharRefStart(InContent));
      if w[p] == ASCII_x {
        r := ScanHexCharRef(enc, w, p + 1);
        return;
      }
      if enc.byteType(w[p]) != BtDigit { return Invalid(p); }
      p := p + 1;
      while p != |w|
        invariant p <= |w|
        invariant ScanFrom(enc, w, p, DecCharRef(InContent)) == ScanFrom(enc, w, ptr, CharRefStart(InContent))
        decreases |w| - p
      {
        ScanStep(enc, w, p, DecCharRef(InContent));
        var u := enc.byteType(w[p]);
        if u == BtSemi { return Scan(TokCharRef, p + 1); }
        if u != BtDigit { return Invalid(p); }
        p := p + 1;
      }
    }
    return PARTIAL;
  }

  /** After `&`. */
  method ScanRef(enc: Encoding, w: Bytes, ptr: nat) returns (r: Scan)
    requires ptr <= |w|
    ensures r == ScanFrom(enc, w, ptr, RefStart(InContent))
  {
    hide ScanFrom, NmstrtClass, NameClass, CharClass, NextInTag, NextInMarkup;
    var p := ptr;
    if p == |w| { return PARTIAL; }
    ScanStep(enc, w, p, RefStart(InContent));
    match NmstrtClass(enc, w, p) {
      case Stop(s) => return s;
      case In(n) => p := p + n;
      case Out =>
        if enc.byteType(w[p]) == BtNum {
          r := ScanCharRef(enc, w, p + 1);
          return;
        }
        return Invalid(p);
    }
    while p != |w|
      invariant p <= |w| && ScanFrom(enc, w, p, RefName(InContent)) == ScanFrom(enc, w, ptr, RefStart(InContent))
      decreases |w| - p
    {
      ScanStep(enc, w, p, RefName(InContent));
      match NameClass(enc, w, p) {
        case Stop(s) => return s;
        case In(n) => p := p + n;
        case Out =>
          if enc.byteType(w[p]) == BtSemi { return Scan(TokEntityRef, p + 1); }
          return Invalid(p);
      }
    }
    return PARTIAL;
  }

  // ----- start tags -----

  /** The same state of a reference, met in an attribute value. */
  function InAttribute(q: State, quote: ByteType): State
    requires InRef(q)
  {
    q.(ctx := InValue(quote))
  }

  /** A reference is scanned the same way in a value, which then goes on behind it. */
  lemma {:induction false} RefInValue(enc: Encoding, w: Bytes, p: nat, q: State, quote: ByteType)
    requires p <= |w| && InRef(q) && q.ctx == InContent
    ensures var r := ScanFrom(enc, w, p, q);
      && (r.tok.TokEntityRef? || r.tok.TokCharRef? || r.tok.TokPartial? || r.tok.TokPartialChar? || r.tok.TokInvalid?)
      && ScanFrom(enc, w, p, InAttribute(q, quote)) ==
         if r.tok == TokEntityRef || r.tok == TokCharRef then ScanFrom(enc, w, r.next, AttValue(quote)) else r
    decreases |w| - p
  {
    hide *;
    RefState(q, quote, p);
    if p == |w| {
    } else {
      ScanStep(enc, w, p, q);
      ScanStep(enc, w, p, InAttribute(q, quote));
      match Next(enc, w, p, q)
      case Move(n, q') =>
        RefMoves(enc, w, p, q, quote);
        RefInValue(enc, w, p + n, q', quote);
      case Halt(_) =>
        RefHalts(enc, w, p, q, quote);
        RefState(AttValue(quote), quote, p + 1);
    }
  }

  lemma RefState(q: State, quote: ByteType, p: nat)
    ensures InRef(q) ==> At(q, p) && At(InAttribute(q, quote), p) && InRef(InAttribute(q, quote))
    ensures At(AttValue(quote), p) && PARTIAL.tok == TokPartial
  {
  }

  lemma RefMoves(enc: Encoding, w: Bytes, p: nat, q: State, quote: ByteType)
    requires p < |w| && InRef(q) && q.ctx == InContent && Next(enc, w, p, q).Move?
    ensures match Next(enc, w, p, q)
      case Move(n, q') => InRef(q') && q'.ctx == InContent
        && Next(enc, w, p, InAttribute(q, quote)) == Move(n, InAttribute(q', quote))
      case Halt(_) => true
  {
  }

  lemma RefHalts(enc: Encoding, w: Bytes, p: nat, q: State, quote: ByteType)
    requires p < |w| && InRef(q) && q.ctx == InContent && Next(enc, w, p, q).Halt?
    ensures var r := Next(enc, w, p, q).r;
      if r.tok == TokEntityRef || r.tok == TokCharRef
      then r.next == p + 1 && Next(enc, w, p, InAttribute(q, quote)) == Move(1, AttValue(quote))
      else
        && (r.tok.TokPartial? || r.tok.TokPartialChar? || r.tok.TokInvalid?)
        && Next(enc, w, p, InAttribute(q, quote)) == Halt(r)
  {
  }

  /** After an attribute name and one white space character: to the character after `=`. */
  method FindEquals(enc: Encoding, w: Bytes, ptr: nat) returns (f: Found)
    requires ptr <= |w|
    ensures match f
      case Ended(r) => r == ScanFrom(enc, w, ptr, AttNameSpace)
      case Found(p) => ptr < p <= |w| && ScanFrom(enc, w, p, AttEquals) == ScanFrom(enc, w, ptr, AttNameSpace)
  {
    hide ScanFrom, NextInMarkup, NextInRef;
    var p := ptr;
    while p != |w|
      invariant ptr <= p <= |w| && ScanFrom(enc, w, p, AttNameSpace) == ScanFrom(enc, w, ptr, AttNameSpace)
      decreases |w| - p
    {
      ScanStep(enc, w, p, AttNameSpace);
      var t := enc.byteType(w[p]);
      if t == BtEquals { return Found(p + 1); }
      if !IsSpaceType(t) { return Ended(Invalid(p)); }
      p := p + 1;
    }
    return Ended(PARTIAL);
  }

  /** After `=`: to the character after the opening quote. */
  method FindQuote(enc: Encoding, w: Bytes, ptr: nat) returns (f: Found, open: ByteType)
    requires ptr <= |w|
    ensures match f
      case Ended(r) => r == ScanFrom(enc, w, ptr, AttEquals)
      case Found(p) => ptr < p <= |w| && ScanFrom(enc, w, p, AttValue(open)) == ScanFrom(enc, w, ptr, AttEquals)
  {
    hide ScanFrom, NextInMarkup, NextInRef;
    var p := ptr;
    open := BtOther;
    while p != |w|
      invariant ptr <= p <= |w| && ScanFrom(enc, w, p, AttEquals) == ScanFrom(enc, w, ptr, AttEquals)
      decreases |w| - p
    {
      ScanStep(enc, w, p, AttEquals);
      open := enc.byteType(w[p]);
      if open == BtQuot || open == BtApos { return Found(p + 1), open; }
      if !IsSpaceType(open) { return Ended(Invalid(p)), open; }
      p := p + 1;
    }
    return Ended(PARTIAL), open;
  }

  /** In a value: to the character after the closing quote. */
  method FindClosingQuote(enc: Encoding, w: Bytes, ptr: nat, open: ByteType) returns (f: Found)
    requires ptr <= |w|
    ensures match f
      case Ended(r) => r == ScanFrom(enc, w, ptr, AttValue(open))
      case Found(p) => ptr < p <= |w| && ScanFrom(enc, w, p, AttQuoted) == ScanFrom(enc, w, ptr, AttValue(open))
  {
    hide ScanFrom, NmstrtClass, NameClass, CharClass, NextInMarkup, NextInRef;
    var p := ptr;
    while p != |w|
      invariant ptr <= p <= |w| && ScanFrom(enc, w, p, AttValue(open)) == ScanFrom(enc, w, ptr, AttValue(open))
      decreases |w| - p
    {
      ScanStep(enc, w, p, AttValue(open));
      var t := enc.byteType(w[p]);
      if t == open { return Found(p + 1); }
      match CharClass(enc, w, p) {
        case Stop(s) => return Ended(s);
        case In(n) => p := p + n;
        case Out =>
          if t == BtAmp {
            RefInValue(enc, w, p + 1, RefStart(InContent), open);
            var ref := ScanRef(enc, w, p + 1);
            if ref.tok.Open() || ref.tok == TokInvalid { return Ended(ref); }
            p := ref.next;
          } else if t == BtLt {
            return Ended(Invalid(p));
          } else {
            p := p + 1;
          }
      }
    }
    return Ended(PARTIAL);
  }

  /** After `/`. */
  method ScanSlash(enc: Encoding, w: Bytes, ptr: nat, atts: bool) returns (r: Scan)
    requires ptr <= |w|
    ensures r == ScanFrom(enc, w, ptr, TagSlash(atts))
  {
    hide ScanFrom, NextInMarkup, NextInRef;
    if ptr == |w| { return PARTIAL; }
    ScanStep(enc, w, ptr, TagSlash(atts));
    if w[ptr] != ASCII_GT { return Invalid(ptr); }
    return Scan(if atts then TokEmptyElementWithAtts else TokEmptyElementNoAtts, ptr + 1);
  }

  /** After a closing quote: to the character after the first one of the next name, or to the end of the tag. */
  method FindNextName(enc: Encoding, w: Bytes, ptr: nat) returns (f: Found)
    requires ptr <= |w|
    ensures match f
      case Ended(r) => r == ScanFrom(enc, w, ptr, AttQuoted)
      case Found(p) => ptr < p <= |w| && ScanFrom(enc, w, p, AttName(false)) == ScanFrom(enc, w, ptr, AttQuoted)
  {
    hide ScanFrom, Next, NmstrtClass, NameClass, CharClass, NextInMarkup, NextInTag, NextInRef;
    var p := ptr;
    if p == |w| { return Ended(PARTIAL); }
    RowLeads(enc, w, p, AttQuoted);
    var t := enc.byteType(w[p]);
    if t == BtSol {
      var r := ScanSlash(enc, w, p + 1, true);
      return Ended(r);
    }
    if t == BtGt { return Ended(Scan(TokStartTagWithAtts, p + 1)); }
    if !IsSpaceType(t) { return Ended(Invalid(p)); }
    f := FindNameInSpace(enc, w, p + 1);
  }

  lemma SpaceGoes(enc: Encoding, w: Bytes, p: nat)
    requires p < |w|
    ensures match NmstrtClass(enc, w, p)
      case Stop(s) => ScanFrom(enc, w, p, AttSpace) == s
      case In(n) => 0 < n && p + n <= |w| && ScanFrom(enc, w, p, AttSpace) == ScanFrom(enc, w, p + n, AttName(false))
      case Out => IsSpaceType(enc.byteType(w[p])) ==> ScanFrom(enc, w, p, AttSpace) == ScanFrom(enc, w, p + 1, AttSpace)
  {
    hide ScanFrom, NmstrtClass, Next;
    RowLeads(enc, w, p, AttSpace);
  }

  /** The same after a closing quote and one white space character. */
  method FindNameInSpace(enc: Encoding, w: Bytes, ptr: nat) returns (f: Found)
    requires ptr <= |w|
    ensures match f
      case Ended(r) => r == ScanFrom(enc, w, ptr, AttSpace)
      case Found(p) => ptr < p <= |w| && ScanFrom(enc, w, p, AttName(false)) == ScanFrom(enc, w, ptr, AttSpace)
  {
    hide ScanFrom, Next, NmstrtClass, NameClass, CharClass, NextInMarkup, NextInTag, NextInRef, AttSpaceRow,
      IsSpaceType;
    var p := ptr;
    while p != |w|
      invariant ptr <= p <= |w| && ScanFrom(enc, w, p, AttSpace) == ScanFrom(enc, w, ptr, AttSpace)
      decreases |w| - p
    {
      SpaceGoes(enc, w, p);
      match NmstrtClass(enc, w, p) {
        case Stop(s) => return Ended(s);
        case In(n) => return Found(p + n);
        case Out =>
          if !IsSpaceType(enc.byteType(w[p])) {
            var r := ScanAfterSpace(enc, w, p);
            return Ended(r);
          }
          p := p + 1;
      }
    }
    return Ended(PARTIAL);
  }

  /** After attributes and white space, where neither goes on. */
  method ScanAfterSpace(enc: Encoding, w: Bytes, ptr: nat) returns (r: Scan)
    requires ptr < |w| && NmstrtClass(enc, w, ptr) == Out && !IsSpaceType(enc.byteType(w[ptr]))
    ensures r == ScanFrom(enc, w, ptr, AttSpace)
  {
    hide ScanFrom, Next, NmstrtClass, NameClass, CharClass, NextInMarkup, NextInTag, NextInRef;
    RowLeads(enc, w, ptr, AttSpace);
    var t := enc.byteType(w[ptr]);
    if t == BtGt { return Scan(TokStartTagWithAtts, ptr + 1); }
    if t != BtSol { return Invalid(ptr); }
    r := ScanSlash(enc, w, ptr + 1, true);
  }

  /** Behind an attribute name: past `=` and the value, to the character after the first one of the next name. */
  method FindValue(enc: Encoding, w: Bytes, ptr: nat, ghost hadColon: bool) returns (f: Found)
    requires ptr < |w| && NameClass(enc, w, ptr) == Out
    requires var t := enc.byteType(w[ptr]); IsSpaceType(t) || t == BtEquals
    ensures match f
      case Ended(r) => r == ScanFrom(enc, w, ptr, AttName(hadColon))
      case Found(p) => ptr < p <= |w| && ScanFrom(enc, w, p, AttName(false)) == ScanFrom(enc, w, ptr, AttName(hadColon))
  {
    hide ScanFrom, Next, NameClass, NextInMarkup, NextInTag, NextInRef;
    RowLeads(enc, w, ptr, AttName(hadColon));
    f := Found(ptr + 1);
    if IsSpaceType(enc.byteType(w[ptr])) { f := FindEquals(enc, w, ptr + 1); }
    if f.Ended? { return; }
    var open;
    f, open := FindQuote(enc, w, f.p);
    if f.Ended? { return; }
    f := FindClosingQuote(enc, w, f.p, open);
    if f.Ended? { return; }
    f := FindNextName(enc, w, f.p);
  }

  /** After the first character of an attribute name. */
  method ScanAtts(enc: Encoding, w: Bytes, ptr: nat) returns (r: Scan)
    requires ptr <= |w|
    ensures r == ScanFrom(enc, w, ptr, AttName(false))
  {
    hide ScanFrom, Next, NmstrtClass, NameClass, CharClass, NextInMarkup, NextInTag, NextInRef;
    var p := ptr;
    var hadColon := false;
    while p != |w|
      invariant p <= |w| && ScanFrom(enc, w, p, AttName(hadColon)) == ScanFrom(enc, w, ptr, AttName(false))
      decreases |w| - p
    {
      RowLeads(enc, w, p, AttName(hadColon));
      match NameClass(enc, w, p) {
        case Stop(s) => return s;
        case In(n) => p := p + n;
        case Out =>
          var t := enc.byteType(w[p]);
          if t == BtColon {
            if hadColon { return Invalid(p); }
            hadColon := true;
            var f := PassNameStart(enc, w, p + 1, AttColon, AttName(true));
            if f.Ended? { return f.r; }
            p := f.p;
          } else if IsSpaceType(t) || t == BtEquals {
            var f := FindValue(enc, w, p, hadColon);
            if f.Ended? { return f.r; }
            hadColon := false;
            p := f.p;
          } else {
            return Invalid(p);
          }
      }
    }
    return PARTIAL;
  }

  /** After a tag name and one white space character. */
  method ScanTagSpace(enc: Encoding, w: Bytes, ptr: nat) returns (r: Scan)
    requires ptr <= |w|
    ensures r == ScanFrom(enc, w, ptr, TagSpace)
  {
    hide ScanFrom, NmstrtClass, NameClass, CharClass, NextInMarkup, NextInRef;
    var p := ptr;
    while p != |w|
      invariant p <= |w| && ScanFrom(enc, w, p, TagSpace) == ScanFrom(enc, w, ptr, TagSpace)
      decreases |w| - p
    {
      ScanStep(enc, w, p, TagSpace);
      match NmstrtClass(enc, w, p) {
        case Stop(s) => return s;
        case In(n) =>
          r := ScanAtts(enc, w, p + n);
          return;
        case Out =>
          var t := enc.byteType(w[p]);
          if t == BtGt { return Scan(TokStartTagNoAtts, p + 1); }
          if t == BtSol {
            r := ScanSlash(enc, w, p + 1, false);
            return;
          }
          if !IsSpaceType(t) { return Invalid(p); }
          p := p + 1;
      }
    }
    return PARTIAL;
  }

  /** After the first character of the name of a start tag. */
  method ScanStartTag(enc: Encoding, w: Bytes, ptr: nat) returns (r: Scan)
    requires ptr <= |w|
    ensures r == ScanFrom(enc, w, ptr, TagName(false))
  {
    hide ScanFrom, Next, NmstrtClass, NameClass, CharClass, NextInMarkup, NextInTag, NextInRef;
    var p := ptr;
    var hadColon := false;
    while p != |w|
      invariant p <= |w| && ScanFrom(enc, w, p, TagName(hadColon)) == ScanFrom(enc, w, ptr, TagName(false))
      decreases |w| - p
    {
      RowLeads(enc, w, p, TagName(hadColon));
      match NameClass(enc, w, p) {
        case Stop(s) => return s;
        case In(n) => p := p + n;
        case Out =>
          var t := enc.byteType(w[p]);
          if t == BtColon {
            if hadColon { return Invalid(p); }
            hadColon := true;
            var f := PassNameStart(enc, w, p + 1, TagColon, TagName(true));
            if f.Ended? { return f.r; }
            p := f.p;
          } else if IsSpaceType(t) {
            r := ScanTagSpace(enc, w, p + 1);
            return;
          } else if t == BtGt {
            return Scan(TokStartTagNoAtts, p + 1);
          } else if t == BtSol {
            r := ScanSlash(enc, w, p + 1, false);
            return;
          } else {
            return Invalid(p);
          }
      }
    }
    return PARTIAL;
  }

  /** After `<!`. */
  method ScanExcl(enc: Encoding, w: Bytes, ptr: nat) returns (r: Scan)
    requires ptr <= |w|
    ensures r == ScanFrom(enc, w, ptr, AfterExcl)
  {
    hide ScanFrom, Next, NmstrtClass, NameClass, CharClass, NextInMarkup, NextInTag, NextInRef;
    if ptr == |w| { return PARTIAL; }
    RowLeads(enc, w, ptr, AfterExcl);
    var t := enc.byteType(w[ptr]);
    if t == BtMinus {
      r := ScanComment(enc, w, ptr + 1);
    } else if t == BtLsqb {
      r := ScanCdataSection(enc, w, ptr + 1);
    } else {
      r := Invalid(ptr);
    }
  }

  /** After `<`. */
  method ScanLt(enc: Encoding, w: Bytes, ptr: nat) returns (r: Scan)
    requires ptr <= |w|
    ensures r == ScanFrom(enc, w, ptr, AfterLt)
  {
    hide ScanFrom, Next, NmstrtClass, NameClass, CharClass, NextInMarkup, NextInTag, NextInRef;
    var p := ptr;
    if p == |w| { return PARTIAL; }
    RowLeads(enc, w, p, AfterLt);
    match NmstrtClass(enc, w, p) {
      case Stop(s) => return s;
      case In(n) => r := ScanStartTag(enc, w, p + n);
      case Out =>
        var t := enc.byteType(w[p]);
        if t == BtExcl {
          r := ScanExcl(enc, w, p + 1);
        } else if t == BtQuest {
          r := ScanPi(enc, w, p + 1);
        } else if t == BtSol {
          r := ScanEndTag(enc, w, p + 1);
        } else {
          r := Invalid(p);
        }
    }
  }

  // ----- content and CDATA sections -----

  /** The loop over data characters, up to the first one that ends the run. */
  method ScanDataRun(enc: Encoding, w: Bytes, ptr: nat) returns (r: Scan)
    requires ptr <= |w|
    ensures r == DataRun(enc, w, ptr)
  {
    hide DataStep;
    var p := ptr;
    while p != |w|
      invariant p <= |w| && DataRun(enc, w, p) == DataRun(enc, w, ptr)
      decreases |w| - p
    {
      DataStepFits(enc, w, p);
      match DataStep(enc, w, p)
      case More(n) => p := p + n;
      case Done(s) => return s;
    }
    return Scan(TokDataChars, p);
  }

  method ReadContentTok(enc: Encoding, w: Bytes) returns (r: Scan)
    ensures r == ContentTok(enc, w)
  {
    hide ScanFrom, DataRun;
    if |w| == 0 { return Scan(TokNone, 0); }
    var t := enc.byteType(w[0]);
    if t == BtLt {
      r := ScanLt(enc, w, 1);
    } else if t == BtAmp {
      r := ScanRef(enc, w, 1);
    } else if t == BtCr {
      if |w| == 1 { return Scan(TokTrailingCr, 0); }
      return Scan(TokDataNewline, if enc.byteType(w[1]) == BtLf then 2 else 1);
    } else if t == BtLf {
      return Scan(TokDataNewline, 1);
    } else if t == BtRsqb {
      if |w| == 1 { return Scan(TokTrailingRsqb, 0); }
      if w[1] == ASCII_RSQB {
        if |w| == 2 { return Scan(TokTrailingRsqb, 0); }
        if w[2] == ASCII_GT { return Invalid(2); }
      }
      r := ScanDataRun(enc, w, 1);
    } else {
      match CharClass(enc, w, 0) {
        case Stop(s) => return s;
        case In(n) => r := ScanDataRun(enc, w, n);
        case Out => r := ScanDataRun(enc, w, 1);
      }
    }
  }

  method ReadCdataSectionTok(enc: Encoding, w: Bytes) returns (r: Scan)
    ensures r == CdataSectionTok(enc, w)
  {
    if |w| == 0 { return Scan(TokNone, 0); }
    var p := 1;
    var t := enc.byteType(w[0]);
    if t == BtRsqb {
      if |w| == 1 { return PARTIAL; }
      if w[1] == ASCII_RSQB {
        if |w| == 2 { return PARTIAL; }
        if w[2] == ASCII_GT { return Scan(TokCdataSectClose, 3); }
      }
    } else if t == BtCr {
      if |w| == 1 { return PARTIAL; }
      return Scan(TokDataNewline, if enc.byteType(w[1]) == BtLf then 2 else 1);
    } else if t == BtLf {
      return Scan(TokDataNewline, 1);
    } else {
      match CharClass(enc, w, 0) {
        case Stop(s) => return s;
        case In(n) => p := n;
        case Out =>
      }
    }
    ghost var start := p;
    while p != |w|
      invariant start <= p <= |w| && CdataRun(enc, w, p) == CdataRun(enc, w, start)
      decreases |w| - p
    {
      var n := CdataStep(enc, w, p);
      if n == 0 { return Scan(TokDataChars, p); }
      p := p + n;
    }
    return Scan(TokDataChars, p);
  }
}
