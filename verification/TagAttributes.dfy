/**
 The attributes of a tag.

 `Spans` reads names and values off the run of the automaton that accepted the tag.  `GetAtts`
 rescans the tag with three states of its own and finds the same; a value it marks as normalized is
 one that normalization would leave as it is.
 */
module TagAttributes {
  import opened Encodings
  import opened Automaton
  import opened Errors
  import opened AttributeValues

  /** Where a name starts, where its value starts and ends, and whether the value is normalized already. */
  datatype Attribute = Attribute(name: nat, valuePtr: nat, valueEnd: nat, normalized: bool)

  predicate IsTag(tok: Token) {
    tok.TokStartTagWithAtts? || tok.TokStartTagNoAtts? || tok.TokEmptyElementWithAtts? || tok.TokEmptyElementNoAtts?
  }

  /** A character that normalization might touch: a reference, white space other than single inner spaces. */
  predicate Remarkable(enc: Encoding, w: Bytes, p: nat, start: nat, closing: Kind)
    requires p < |w|
  {
    var t := enc.byteType(w[p]);
    || t == BtAmp || t == BtCr || t == BtLf
    || (t == BtS && (p == start || w[p] != ASCII_SPACE || p + 1 == |w| || w[p + 1] == ASCII_SPACE
                     || KindOf(enc.byteType(w[p + 1])) == closing))
  }

  /** The attribute being read, after the step from `q` to `q'` at `p`. */
  function Track(enc: Encoding, w: Bytes, p: nat, q: State, q': State, a: Attribute): Attribute
    requires p < |w|
  {
    if q'.AttName? && (q.TagSpace? || q.AttSpace?) then a.(name := p, normalized := true)
    else if q.AttEquals? && q'.AttValue? then a.(valuePtr := p + 1)
    else if q.AttValue? && q'.AttQuoted? then a.(valueEnd := p)
    else if q.AttValue? && Remarkable(enc, w, p, a.valuePtr, KindOf(q.quote)) then a.(normalized := false)
    else a
  }

  /** The attributes whose values end from here on; `a` is the one being read. */
  function Spans(enc: Encoding, w: Bytes, p: nat, q: State, a: Attribute): seq<Attribute>
    requires p <= |w| && At(q, p)
    decreases |w| - p
  {
    if p == |w| then []
    else
      NextSound(enc, w, p, q);
      match Next(enc, w, p, q)
      case Halt(_) => []
      case Move(n, q') =>
        var a' := Track(enc, w, p, q, q', a);
        if q.AttValue? && q'.AttQuoted? then [a'] + Spans(enc, w, p + n, q', a') else Spans(enc, w, p + n, q', a')
  }

  const NO_ATTRIBUTE := Attribute(0, 0, 0, true)

  /** The attributes of the tag `w` starts with. */
  function TagSpans(enc: Encoding, w: Bytes): seq<Attribute>
    requires w != []
  {
    Spans(enc, w, 1, AfterLt, NO_ATTRIBUTE)
  }

  // ----- the rescan -----

  /** Byte types as the rescan tells them apart. */
  datatype Kind = NameStart | Quote | Apostrophe | Ampersand | Space | TagEnd | OtherKind

  function KindOf(t: ByteType): Kind {
    match t
    case BtLead2 => NameStart
    case BtLead3 => NameStart
    case BtLead4 => NameStart
    case BtNmstrt => NameStart
    case BtHex => NameStart
    case BtQuot => Quote
    case BtApos => Apostrophe
    case BtAmp => Ampersand
    case BtS => Space
    case BtCr => Space
    case BtLf => Space
    case BtGt => TagEnd
    case BtSol => TagEnd
    case _ => OtherKind
  }

  lemma Kinds(t: ByteType)
    ensures KindOf(t).Space? <==> IsSpaceType(t)
    ensures KindOf(t).NameStart? <==> IsNmstrtType(t) || LeadLength(t) > 0
    ensures KindOf(t).TagEnd? <==> t == BtGt || t == BtSol
    ensures (KindOf(t).Quote? <==> t == BtQuot) && (KindOf(t).Apostrophe? <==> t == BtApos)
    ensures (KindOf(t).Ampersand? <==> t == BtAmp)
    ensures LeadLength(t) > 0 ==>
      !IsSpaceType(t) && !IsNameType(t) && t != BtColon && t != BtEquals && t != BtGt && t != BtSol
    ensures LeadLength(t) > 0 ==>
      t != BtQuot && t != BtApos && t != BtAmp && t != BtLt && t != BtNum && t != BtSemi && !IsNonCharType(t)
  {
  }

  /** Where in a tag: in a name or in a gap, of an attribute (`att`) or not, behind `=`, or in a value. */
  datatype Phase = NamePhase(att: bool) | GapPhase(att: bool) | EqualsPhase | ValuePhase(closing: Kind) | NoPhase

  function PhaseOf(q: State): Phase {
    match q
    case AfterLt => NamePhase(false)
    case TagName(_) => NamePhase(false)
    case TagColon => NamePhase(false)
    case TagSpace => GapPhase(false)
    case AttName(_) => NamePhase(true)
    case AttColon => NamePhase(true)
    case AttNameSpace => GapPhase(true)
    case AttEquals => EqualsPhase
    case AttValue(quote) => ValuePhase(KindOf(quote))
    case AttQuoted => GapPhase(false)
    case AttSpace => GapPhase(false)
    case RefStart(ctx) => RefPhase(ctx)
    case RefName(ctx) => RefPhase(ctx)
    case CharRefStart(ctx) => RefPhase(ctx)
    case DecCharRef(ctx) => RefPhase(ctx)
    case HexCharRefStart(ctx) => RefPhase(ctx)
    case HexCharRef(ctx) => RefPhase(ctx)
    case _ => NoPhase
  }

  function RefPhase(ctx: Context): Phase {
    match ctx
    case InContent => NoPhase
    case InValue(quote) => ValuePhase(KindOf(quote))
  }

  /** The phase after a character of a tag that will be accepted. */
  predicate Follows(ph: Phase, k: Kind, ph': Phase) {
    match ph
    case NamePhase(att) =>
      if k.Space? then ph' == GapPhase(att)
      else (k.NameStart? || k.OtherKind?) && (ph' == ph || (att && k.OtherKind? && ph' == EqualsPhase))
    case GapPhase(att) =>
      if k.Space? then ph' == ph
      else if att then k.OtherKind? && ph' == EqualsPhase
      else k.NameStart? && ph' == NamePhase(true)
    case EqualsPhase => if k.Space? then ph' == ph else (k.Quote? || k.Apostrophe?) && ph' == ValuePhase(k)
    case ValuePhase(closing) => ph' == if k == closing then GapPhase(false) else ph
    case NoPhase => false
  }

  function CharSize(t: ByteType): (n: nat)
    ensures n > 0
  {
    if LeadLength(t) > 0 then LeadLength(t) else 1
  }

  /** `q` is inside a tag; in a value, the quote is a quote. */
  predicate InPhase(q: State) {
    var ph := PhaseOf(q);
    !ph.NoPhase? && (ph.ValuePhase? ==> ph.closing.Quote? || ph.closing.Apostrophe?)
  }

  /** In a reference inside a value no character is one of those the rescan looks for. */
  predicate QuietInRef(q: State, k: Kind) { InRef(q) ==> k.NameStart? || k.OtherKind? }

  /** A character of a tag ends it, is followed as described, or makes it no tag. */
  ghost predicate GoodTagStep(enc: Encoding, w: Bytes, p: nat, q: State)
    requires p < |w| && At(q, p)
  {
    var t := enc.byteType(w[p]);
    if KindOf(t).TagEnd? && !PhaseOf(q).ValuePhase? then
      Next(enc, w, p, q).Halt? || Next(enc, w, p, q).q.TagSlash? || q.AfterLt?
    else
      match Next(enc, w, p, q)
      case Move(n, q') => q.AfterLt?
        || (n == CharSize(t) && Follows(PhaseOf(q), KindOf(t), PhaseOf(q')) && InPhase(q') && QuietInRef(q, KindOf(t)))
      case Halt(r) => !IsTag(r.tok)
  }

  lemma RefStep(enc: Encoding, w: Bytes, p: nat, q: State)
    requires Standard(enc) && p < |w| && InRef(q) && InPhase(q)
    ensures GoodTagStep(enc, w, p, q)
  {
    hide Standard, GoodTagStep;
    if q.RefStart? || q.RefName? {
      EntityRefStep(enc, w, p, q);
    } else {
      CharRefStep(enc, w, p, q);
    }
  }

  lemma EntityRefStep(enc: Encoding, w: Bytes, p: nat, q: State)
    requires p < |w| && (q.RefStart? || q.RefName?) && InPhase(q)
    ensures GoodTagStep(enc, w, p, q)
  {
    hide GoodTagStep;
    if q.RefStart? {
      RefStartStep(enc, w, p, q);
    } else {
      RefNameStep(enc, w, p, q);
    }
  }

  lemma RefStartStep(enc: Encoding, w: Bytes, p: nat, q: State)
    requires p < |w| && q.RefStart? && InPhase(q)
    ensures GoodTagStep(enc, w, p, q)
  {
    hide KindOf, LeadLength, NextInTag, NextInMarkup;
    Kinds(enc.byteType(w[p]));
  }

  lemma RefNameStep(enc: Encoding, w: Bytes, p: nat, q: State)
    requires p < |w| && q.RefName? && InPhase(q)
    ensures GoodTagStep(enc, w, p, q)
  {
    hide KindOf, LeadLength, NextInTag, NextInMarkup;
    Kinds(enc.byteType(w[p]));
  }

  lemma CharRefStep(enc: Encoding, w: Bytes, p: nat, q: State)
    requires Standard(enc) && p < |w| && InRef(q) && !q.RefStart? && !q.RefName? && InPhase(q)
    ensures GoodTagStep(enc, w, p, q)
  {
    hide Standard, KindOf, LeadLength, NextInTag, NextInMarkup;
    Kinds(enc.byteType(w[p]));
    XIsName(enc);
  }

  lemma XIsName(enc: Encoding)
    requires Standard(enc)
    ensures enc.byteType(ASCII_x) == BtNmstrt
  {
  }

  lemma ValueStep(enc: Encoding, w: Bytes, p: nat, q: State)
    requires p < |w| && (q.AttEquals? || q.AttValue?) && InPhase(q)
    ensures GoodTagStep(enc, w, p, q)
  {
    hide GoodTagStep;
    if q.AttEquals? {
      BeforeValueStep(enc, w, p);
    } else {
      InValueStep(enc, w, p, q);
    }
  }

  lemma BeforeValueStep(enc: Encoding, w: Bytes, p: nat)
    requires p < |w|
    ensures GoodTagStep(enc, w, p, AttEquals)
  {
    hide KindOf, LeadLength, NextInRef, NextInMarkup;
    Kinds(enc.byteType(w[p]));
    Kinds(BtQuot);
    Kinds(BtApos);
  }

  lemma InValueStep(enc: Encoding, w: Bytes, p: nat, q: State)
    requires p < |w| && q.AttValue? && InPhase(q)
    ensures GoodTagStep(enc, w, p, q)
  {
    hide KindOf, LeadLength, NextInRef, NextInMarkup;
    Kinds(enc.byteType(w[p]));
    Kinds(q.quote);
  }

  lemma GapStep(enc: Encoding, w: Bytes, p: nat, q: State)
    requires p < |w| && (q.TagSpace? || q.AttNameSpace? || q.AttQuoted? || q.AttSpace?)
    ensures GoodTagStep(enc, w, p, q)
  {
    hide KindOf, LeadLength, NextInRef, NextInMarkup;
    Kinds(enc.byteType(w[p]));
  }

  lemma NameStep(enc: Encoding, w: Bytes, p: nat, q: State)
    requires p < |w| && (q.TagName? || q.TagColon? || q.AttName? || q.AttColon?)
    ensures GoodTagStep(enc, w, p, q)
  {
    hide GoodTagStep;
    if q.TagName? || q.TagColon? {
      TagNameStep(enc, w, p, q);
    } else {
      AttNameStep(enc, w, p, q);
    }
  }

  lemma TagNameStep(enc: Encoding, w: Bytes, p: nat, q: State)
    requires p < |w| && (q.TagName? || q.TagColon?)
    ensures GoodTagStep(enc, w, p, q)
  {
    hide KindOf, LeadLength, NextInRef, NextInMarkup;
    Kinds(enc.byteType(w[p]));
  }

  lemma AttNameStep(enc: Encoding, w: Bytes, p: nat, q: State)
    requires p < |w| && (q.AttName? || q.AttColon?)
    ensures GoodTagStep(enc, w, p, q)
  {
    hide KindOf, LeadLength, NextInRef, NextInMarkup;
    Kinds(enc.byteType(w[p]));
  }

  /** A state in a tag that the automaton will accept. */
  ghost predicate Accepting(enc: Encoding, w: Bytes, p: nat, q: State) {
    p <= |w| && At(q, p) && InPhase(q) && IsTag(ScanFrom(enc, w, p, q).tok)
  }

  lemma AfterLtStep(enc: Encoding, w: Bytes, p: nat)
    requires p < |w|
    requires match Next(enc, w, p, AfterLt)
      case Move(n, q') => p + n <= |w| && At(q', p + n) && IsTag(ScanFrom(enc, w, p + n, q').tok)
      case Halt(r) => IsTag(r.tok)
    ensures var t := enc.byteType(w[p]);
      Next(enc, w, p, AfterLt) == Move(CharSize(t), TagName(false)) && KindOf(t).NameStart?
  {
    hide ScanFrom;
    var t := enc.byteType(w[p]);
    if t == BtExcl {
      NotTag(enc, w, p + 1, AfterExcl);
    } else if t == BtQuest {
      NotTag(enc, w, p + 1, PiStart);
    } else if t == BtSol {
      NotTag(enc, w, p + 1, EndTagStart);
    }
  }

  /** Declarations, comments, processing instructions and end tags never become tags with attributes. */
  lemma {:induction false} NotTag(enc: Encoding, w: Bytes, p: nat, q: State)
    requires p <= |w| && At(q, p) && !InTag(q) && !InRef(q) && !q.AfterLt?
    ensures !IsTag(ScanFrom(enc, w, p, q).tok)
    decreases |w| - p
  {
    hide ScanFrom, Next;
    if p < |w| {
      ScanStep(enc, w, p, q);
      NotTagStep(enc, w, p, q);
      match Next(enc, w, p, q)
      case Move(n, q') => NotTag(enc, w, p + n, q');
      case Halt(_) =>
    }
  }

  lemma NotTagStep(enc: Encoding, w: Bytes, p: nat, q: State)
    requires p < |w| && At(q, p) && !InTag(q) && !InRef(q) && !q.AfterLt?
    ensures match Next(enc, w, p, q)
      case Move(n, q') => !InTag(q') && !InRef(q') && !q'.AfterLt?
      case Halt(r) => !IsTag(r.tok)
  {
  }

  lemma TagStep(enc: Encoding, w: Bytes, p: nat, q: State)
    requires Standard(enc) && Accepting(enc, w, p, q)
    ensures p < |w|
    ensures var t := enc.byteType(w[p]);
      if KindOf(t).TagEnd? && !PhaseOf(q).ValuePhase?
      then Next(enc, w, p, q).Halt? || Next(enc, w, p, q).q.TagSlash?
      else match Next(enc, w, p, q)
        case Move(n, q') => n == CharSize(t) && p + n < |w| && Accepting(enc, w, p + n, q')
          && Follows(PhaseOf(q), KindOf(t), PhaseOf(q')) && QuietInRef(q, KindOf(t))
        case Halt(_) => false
  {
    hide ScanFrom, Next, Standard;
    ScanStep(enc, w, p, q);
    if InRef(q) {
      RefStep(enc, w, p, q);
    } else if q.AfterLt? {
      AfterLtStep(enc, w, p);
    } else if q.AttEquals? || q.AttValue? {
      ValueStep(enc, w, p, q);
    } else if q.TagSpace? || q.AttNameSpace? || q.AttQuoted? || q.AttSpace? {
      GapStep(enc, w, p, q);
    } else {
      NameStep(enc, w, p, q);
    }
  }

  // ----- getAtts -----

  /** The three states of the rescan. */
  datatype Mode = BetweenNames | ReadingName | ReadingValue

  predicate Matches(ph: Phase, state: Mode, open: Kind) {
    match ph
    case NamePhase(_) => state == ReadingName
    case GapPhase(_) => state == BetweenNames
    case EqualsPhase => state != ReadingValue
    case ValuePhase(closing) => state == ReadingValue && open == closing
    case NoPhase => false
  }

  /** The attribute being read has its name. */
  predicate Named(ph: Phase) {
    match ph
    case NamePhase(att) => att
    case GapPhase(att) => att
    case _ => true
  }

  function TrackPhase(enc: Encoding, w: Bytes, p: nat, ph: Phase, ph': Phase, a: Attribute): Attribute
    requires p < |w|
  {
    if ph == GapPhase(false) && ph' == NamePhase(true) then a.(name := p, normalized := true)
    else if ph.EqualsPhase? && ph'.ValuePhase? then a.(valuePtr := p + 1)
    else if ph.ValuePhase? && ph' == GapPhase(false) then a.(valueEnd := p)
    else if ph.ValuePhase? && Remarkable(enc, w, p, a.valuePtr, ph.closing) then a.(normalized := false)
    else a
  }

  lemma TrackIsTrackPhase(enc: Encoding, w: Bytes, p: nat, q: State, q': State, a: Attribute)
    requires p < |w| && At(q, p) && InPhase(q) && InPhase(q')
    requires match Next(enc, w, p, q) case Move(_, q1) => q1 == q' case Halt(_) => false
    requires Follows(PhaseOf(q), KindOf(enc.byteType(w[p])), PhaseOf(q')) && QuietInRef(q, KindOf(enc.byteType(w[p])))
    ensures Track(enc, w, p, q, q', a) == TrackPhase(enc, w, p, PhaseOf(q), PhaseOf(q'), a)
    ensures q.AttValue? && q'.AttQuoted? <==> PhaseOf(q).ValuePhase? && PhaseOf(q') == GapPhase(false)
  {
  }

  /** One character of the tag: how the spans that are left change. */
  lemma SpansStep(enc: Encoding, w: Bytes, p: nat, q: State, a: Attribute) returns (q': State)
    requires Standard(enc) && Accepting(enc, w, p, q)
    ensures p < |w| && At(q, p)
    ensures (PhaseOf(q).ValuePhase? ==> PhaseOf(q).closing.Quote? || PhaseOf(q).closing.Apostrophe?)
    ensures var k := KindOf(enc.byteType(w[p]));
      var ph := PhaseOf(q);
      if k.TagEnd? && !ph.ValuePhase? then Spans(enc, w, p, q, a) == []
      else
        var n := CharSize(enc.byteType(w[p]));
        var ph' := PhaseOf(q');
        var a' := TrackPhase(enc, w, p, ph, ph', a);
        && Next(enc, w, p, q) == Move(n, q')
        && Follows(ph, k, ph') && p + n < |w| && At(q', p + n) && Accepting(enc, w, p + n, q')
        && Spans(enc, w, p, q, a) ==
           (if ph.ValuePhase? && ph' == GapPhase(false) then [a'] else []) + Spans(enc, w, p + n, q', a')
  {
    hide ScanFrom, Next, Standard, Track, TrackPhase, PhaseOf, KindOf, Follows;
    q' := q;
    TagStep(enc, w, p, q);
    var t := enc.byteType(w[p]);
    if KindOf(t).TagEnd? && !PhaseOf(q).ValuePhase? {
      NoMoreSpans(enc, w, p, q, a);
    } else {
      q' := Next(enc, w, p, q).q;
      TrackIsTrackPhase(enc, w, p, q, q', a);
    }
  }

  lemma SlashHalts(enc: Encoding, w: Bytes, p: nat, q: State)
    requires p < |w| && q.TagSlash?
    ensures Next(enc, w, p, q).Halt?
  {
  }

  lemma NoMoreSpans(enc: Encoding, w: Bytes, p: nat, q: State, a: Attribute)
    requires p < |w| && At(q, p) && !PhaseOf(q).ValuePhase?
    requires Next(enc, w, p, q).Halt? || Next(enc, w, p, q).q.TagSlash?
    ensures Spans(enc, w, p, q, a) == []
  {
    hide PhaseOf;
    match Next(enc, w, p, q)
    case Halt(_) =>
    case Move(n, q') =>
      NextSound(enc, w, p, q);
      if p + n < |w| { SlashHalts(enc, w, p + n, q'); }
  }

  /**
   Counts the attributes of a tag and stores the first `attsMax` of them.  The tag must have been
   accepted by the scanner.
   */
  method GetAtts(enc: Encoding, w: Bytes, attsMax: nat, atts: array<Attribute>) returns (nAtts: nat)
    requires Standard(enc) && w != [] && IsTag(ScanFrom(enc, w, 1, AfterLt).tok)
    requires attsMax <= atts.Length
    modifies atts
    ensures nAtts == |TagSpans(enc, w)|
    ensures forall i :: 0 <= i < nAtts && i < attsMax ==> atts[i] == TagSpans(enc, w)[i]
  {
    hide ScanFrom, Next, Standard, Spans, PhaseOf, Accepting, At;
    var state := ReadingName;
    var open := OtherKind;
    var p := 1;
    nAtts := 0;
    ghost var q := AfterLt;
    ghost var a := NO_ATTRIBUTE;
    ghost var done: seq<Attribute> := [];
    ghost var all := TagSpans(enc, w);
    RescanStart(enc, w);
    assert all == done + Spans(enc, w, p, q, a);
    while true
      invariant p <= |w| && At(q, p) && Accepting(enc, w, p, q)
      invariant all == done + Spans(enc, w, p, q, a)
      invariant nAtts == |done| && forall i :: 0 <= i < nAtts && i < attsMax ==> atts[i] == done[i]
      invariant Matches(PhaseOf(q), state, open)
      invariant Named(PhaseOf(q)) && nAtts < attsMax ==>
        atts[nAtts].name == a.name && atts[nAtts].normalized == a.normalized
      invariant state == ReadingValue && nAtts < attsMax ==> atts[nAtts].valuePtr == a.valuePtr
      decreases |w| - p
    {
      ghost var q' := SpansStep(enc, w, p, q, a);
      ghost var ph, ph' := PhaseOf(q), PhaseOf(q');
      var t := enc.byteType(w[p]);
      match KindOf(t) {
        case NameStart =>
          if state == BetweenNames {
            if nAtts < attsMax {
              atts[nAtts] := atts[nAtts].(name := p, normalized := true);
            }
            state := ReadingName;
          }
        case Ampersand =>
          if nAtts < attsMax {
            atts[nAtts] := atts[nAtts].(normalized := false);
          }
        case Space =>
          if state == ReadingName {
            state := BetweenNames;
          } else if state == ReadingValue && nAtts < attsMax {
            if t != BtS {
              atts[nAtts] := atts[nAtts].(normalized := false);
            } else if atts[nAtts].normalized
                      && (p == atts[nAtts].valuePtr || w[p] != ASCII_SPACE || w[p + 1] == ASCII_SPACE
                          || KindOf(enc.byteType(w[p + 1])) == open) {
              atts[nAtts] := atts[nAtts].(normalized := false);
            }
          }
        case TagEnd =>
          if state != ReadingValue { return; }
        case OtherKind =>
        case k =>
          if state != ReadingValue {
            if nAtts < attsMax {
              atts[nAtts] := atts[nAtts].(valuePtr := p + 1);
            }
            state := ReadingValue;
            open := k;
          } else if open == k {
            state := BetweenNames;
            if nAtts < attsMax {
              atts[nAtts] := atts[nAtts].(valueEnd := p);
            }
            nAtts := nAtts + 1;
          }
      }
      a := TrackPhase(enc, w, p, ph, ph', a);
      if ph.ValuePhase? && ph' == GapPhase(false) { done := done + [a]; }
      p := p + CharSize(t);
      q := q';
    }
  }

  lemma RescanStart(enc: Encoding, w: Bytes)
    requires w != [] && IsTag(ScanFrom(enc, w, 1, AfterLt).tok)
    ensures Accepting(enc, w, 1, AfterLt) && PhaseOf(AfterLt) == NamePhase(false) && At(AfterLt, 1)
  {
    hide ScanFrom;
  }
}
