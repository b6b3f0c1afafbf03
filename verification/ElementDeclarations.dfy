/**
 The parser of element declarations: the handlers of the prolog machine give each token a role, and
 the cases of `doProlog` build the scaffold and, at the end, the content model.
 */
module ElementDeclarations {
  import opened Errors
  import opened ContentModels
  import opened Scaffolds
  import opened PackedModels

  const INIT_GROUPS := 32
  const INIT_SCAFFOLD_ELEMENTS := 32

  datatype Role =
    | RoleError | ElementNone | ElementName | ContentAny | ContentEmpty | ContentPcdata
    | ContentElement(quant: Quant) | GroupOpen | GroupClose(quant: Quant) | GroupChoice | GroupSequence

  /** The role a handler gives to a token. */
  function RoleFor(h: Handler, t: Token): Role {
    if t == Space then ElementNone
    else if t.Name? then
      if h == Element0 || h == Element4 then
        if t.quant != NoQuant then RoleError else if h == Element0 then ElementName else ContentElement(NoQuant)
      else if h == Element1 then
        if t == Name("EMPTY", NoQuant) then ContentEmpty else if t == Name("ANY", NoQuant) then ContentAny
        else RoleError
      else if h == Element2 || h == Element6 then ContentElement(t.quant)
      else RoleError
    else if t.PoundName? then (if h == Element2 && t.text == "PCDATA" then ContentPcdata else RoleError)
    else if t.OpenParen? then (if h == Element1 || h == Element2 || h == Element6 then GroupOpen else RoleError)
    else if t.CloseParen? then
      if h == Element7 || ((h == Element3 || h == Element5) && t.quant == Rep) || (h == Element3 && t.quant == NoQuant)
      then GroupClose(t.quant) else RoleError
    else if t.Or? then
      (if h == Element7 then GroupChoice else if h == Element3 || h == Element5 then ElementNone else RoleError)
    else if t.Comma? then (if h == Element7 then GroupSequence else RoleError)
    else if t.DeclClose? then (if h == AtClose then ElementNone else RoleError)
    else RoleError
  }

  /** The handler of the next token; `last` says that a group that is closed is the outermost. */
  function HandlerAfter(h: Handler, t: Token, last: bool): Handler {
    if t == Space || RoleFor(h, t) == RoleError then h
    else
      match h
      case Element0 => Element1
      case Element1 => if t == OpenParen then Element2 else AtClose
      case Element2 => if t.PoundName? then Element3 else if t == OpenParen then Element6 else Element7
      case Element3 => if t == Or then Element4 else AtClose
      case Element4 => Element5
      case Element5 => if t == Or then Element4 else AtClose
      case Element6 => if t == OpenParen then Element6 else Element7
      case Element7 => if !t.CloseParen? then Element6 else if last then AtClose else Element7
      case AtClose => Declared
      case Declared => Declared
  }

  lemma HandlerOfStep(m: Machine, t: Token)
    requires Good(m) && Step(m, t).Ok?
    ensures Step(m, t).value.handler == HandlerAfter(m.handler, t, |m.open| == 1)
  {
    hide AddLeaf, WellFormed, Waiting, Rested;
    if t.Name? && m.open != [] { AddLeafGoes(m, t); }
  }

  lemma AddLeafGoes(m: Machine, t: Token)
    requires m.open != [] && t.Name?
    ensures forall h :: AddLeaf(m, t, h).Ok? && AddLeaf(m, t, h).value.handler == h
  {
  }

  function LevelAfter(handler: Handler, role: Role, level: nat): nat {
    if role == GroupOpen then (match handler case Element1 => 1 case Element2 => 2 case _ => level + 1)
    else if role.GroupClose? && handler == Element7 && level > 0 then level - 1 else level
  }

  /** `PROLOG_STATE` */
  class PrologState {
    var handler: Handler
    var level: nat

    constructor ()
      ensures handler == Element0 && level == 0
    {
      handler, level := Element0, 0;
    }

    /** `element0` to `element7` and `declClose` */
    method TokenRole(t: Token) returns (role: Role)
      requires handler == Element7 ==> level > 0
      modifies this
      ensures role == RoleFor(old(handler), t)
      ensures handler == HandlerAfter(old(handler), t, old(level) == 1)
      ensures level == LevelAfter(old(handler), role, old(level))
    {
      if t == Space { return ElementNone; }
      match handler {
      case Element0 =>
        if t.Name? && t.quant == NoQuant { handler := Element1; return ElementName; }
      case Element1 =>
        if t == Name("EMPTY", NoQuant) { handler := AtClose; return ContentEmpty; }
        if t == Name("ANY", NoQuant) { handler := AtClose; return ContentAny; }
        if t == OpenParen { handler := Element2; level := 1; return GroupOpen; }
      case Element2 =>
        if t == PoundName("PCDATA") { handler := Element3; return ContentPcdata; }
        if t == OpenParen { level := 2; handler := Element6; return GroupOpen; }
        if t.Name? { handler := Element7; return ContentElement(t.quant); }
      case Element3 =>
        if t.CloseParen? && (t.quant == NoQuant || t.quant == Rep) { handler := AtClose; return GroupClose(t.quant); }
        if t == Or { handler := Element4; return ElementNone; }
      case Element4 =>
        if t.Name? && t.quant == NoQuant { handler := Element5; return ContentElement(NoQuant); }
      case Element5 =>
        if t == CloseParen(Rep) { handler := AtClose; return GroupClose(Rep); }
        if t == Or { handler := Element4; return ElementNone; }
      case Element6 =>
        if t == OpenParen { level := level + 1; return GroupOpen; }
        if t.Name? { handler := Element7; return ContentElement(t.quant); }
      case Element7 =>
        if t.CloseParen? {
          level := level - 1;
          if level == 0 { handler := AtClose; }
          return GroupClose(t.quant);
        }
        if t == Comma { handler := Element6; return GroupSequence; }
        if t == Or { handler := Element6; return GroupChoice; }
      case AtClose =>
        if t == DeclClose { handler := Declared; return ElementNone; }
      case Declared =>
      }
      return RoleError;
    }
  }

  // ----- the tables -----

  function OpenChars(open: seq<Frame>): nat {
    if open == [] then 0 else OpenChars(open[..|open| - 1]) + CharsOf(Last(open).children, |Last(open).children|)
  }

  /** The part of `DTD` and of the parser that element declarations use. */
  class Declaration {
    const state: PrologState
    var groupConnector: array<Connector>
    var inEldecl: bool
    var scaffold: array<Scaffold>
    var scaffCount: nat
    var scaffIndex: array<nat>
    var scaffLevel: nat
    var contentStringLen: nat
    /** What the element declaration handler is called with. */
    var declElementType: string
    var cells: array<Cell>
    var chars: array<char>
    ghost var machine: Machine

    /** The open groups as the tables hold them. */
    ghost predicate Reading(open: seq<Frame>)
      reads `groupConnector, `scaffold, `scaffCount, `scaffIndex, `scaffLevel, `contentStringLen
      reads groupConnector, scaffold, scaffIndex
    {
      && scaffLevel == |open| <= scaffIndex.Length && scaffCount <= scaffold.Length
      && Represents(scaffold[..scaffCount], scaffIndex[..scaffLevel], open)
      && (open != [] ==> |open| < groupConnector.Length)
      && (forall k :: 0 <= k < |open| ==> groupConnector[k + 1] == open[k].connector)
      && contentStringLen == OpenChars(open)
      && TablesFit()
    }

    ghost predicate TablesFit()
      reads `groupConnector, `scaffIndex
    {
      && (scaffIndex.Length == 0 || scaffIndex.Length == groupConnector.Length)
      && (groupConnector.Length == 0 || groupConnector.Length >= INIT_GROUPS)
    }

    /** The cells and characters handed to the handler are those of the content. */
    ghost predicate Delivered(c: Content)
      reads `cells, `chars, cells, chars
    {
      match c
      case EmptyContent => cells[..] == [Cell(EmptyType, NoQuant, None, 0, None)]
      case AnyContent => cells[..] == [Cell(AnyType, NoQuant, None, 0, None)]
      case Model(t) => cells.Length == Size(t) && chars.Length == Chars(t) && Denotes(cells[..], chars[..], 0, t)
    }

    /** The fields say what the state of the declaration is. */
    ghost predicate Tables(m: Machine)
      reads `groupConnector, `scaffold, `scaffCount, `scaffIndex, `scaffLevel, `contentStringLen
      reads `declElementType, `inEldecl, `cells, `chars, groupConnector, scaffold, scaffIndex, cells, chars
    {
      && TablesFit()
      && (m.handler != Element0 ==> declElementType == m.name)
      && (InGroup(m.handler) || m.handler == Element1 ==> inEldecl && Reading(m.open))
      && (m.handler == AtClose || m.handler == Declared ==> !inEldecl && Delivered(m.content))
      && (!InGroup(m.handler) ==> contentStringLen == 0)
    }

    ghost predicate Valid()
      reads this, state, groupConnector, scaffold, scaffIndex, cells, chars
    {
      && Good(machine) && Tables(machine) && state.handler == machine.handler
      && (InGroup(machine.handler) ==> state.level == |machine.open|)
    }

    constructor ()
      ensures Valid() && machine == START && fresh(state)
      ensures fresh(groupConnector) && fresh(scaffold) && fresh(scaffIndex) && fresh(cells) && fresh(chars)
    {
      state := new PrologState();
      groupConnector, scaffold, scaffIndex := new Connector[0], new Scaffold[0], new nat[0];
      inEldecl, scaffCount, scaffLevel, contentStringLen, declElementType := false, 0, 0, 0, "";
      cells, chars := new Cell[0], new char[0];
      machine := START;
    }

    /** Room for one more part; the table doubles when it is full. */
    method GrowScaffold()
      requires scaffCount <= scaffold.Length
      modifies this`scaffold
      ensures scaffCount < scaffold.Length && scaffold[..scaffCount] == old(scaffold[..scaffCount])
      ensures scaffold == old(scaffold) || fresh(scaffold)
    {
      if scaffCount >= scaffold.Length {
        var temp := new Scaffold[if scaffold.Length != 0 then scaffold.Length * 2
                                 else INIT_SCAFFOLD_ELEMENTS](_ => NO_PART);
        forall i | 0 <= i < scaffCount {
          temp[i] := scaffold[i];
        }
        assert temp[..scaffCount] == scaffold[..scaffCount];
        scaffold := temp;
      }
    }

    /** The part `next` becomes the last child of the one at `at`. */
    method LinkPart(at: nat, next: nat)
      requires at < next < scaffold.Length && scaffold[at].lastchild < next
      modifies scaffold
      ensures scaffold[..next] == Link(old(scaffold[..next]), at, next)
    {
      var parent := scaffold[at];
      if parent.lastchild != 0 {
        scaffold[parent.lastchild] := scaffold[parent.lastchild].(nextsib := next);
      }
      if parent.childcnt == 0 {
        scaffold[at] := scaffold[at].(firstchild := next);
      }
      scaffold[at] := scaffold[at].(lastchild := next, childcnt := parent.childcnt + 1);
    }

    /** The next declaration: the tables are used again as they are. */
    method Begin()
      requires Valid() && machine.handler == Declared
      modifies this`machine, state
      ensures Valid() && machine == START
    {
      state.handler := Element0;
      machine := START;
    }

    /** `nextScaffoldPart`: a new last child of the innermost group. */
    method NextScaffoldPart() returns (next: nat)
      requires scaffCount <= scaffold.Length && scaffLevel <= groupConnector.Length
      requires scaffIndex.Length == 0 || scaffIndex.Length == groupConnector.Length
      requires scaffLevel <= scaffIndex.Length && LinkOk(scaffold[..scaffCount], scaffIndex[..scaffLevel])
      modifies this`scaffold, this`scaffCount, this`scaffIndex, scaffold
      ensures next == old(scaffCount) && scaffCount == next + 1 <= scaffold.Length
      ensures scaffIndex.Length == groupConnector.Length && scaffIndex[..scaffLevel] == old(scaffIndex[..scaffLevel])
      ensures (scaffIndex == old(scaffIndex) || fresh(scaffIndex)) && (scaffold == old(scaffold) || fresh(scaffold))
      ensures var c := scaffold[next]; c.firstchild == c.lastchild == c.childcnt == c.nextsib == 0
      ensures scaffold[..next] == Linked(old(scaffold[..scaffCount]), old(scaffIndex[..scaffLevel]), next)
    {
      hide Link;
      if scaffIndex.Length == 0 {
        scaffIndex := new nat[groupConnector.Length](_ => 0);
      }
      ghost var s := scaffold[..scaffCount];
      GrowScaffold();
      next := scaffCount;
      scaffCount := scaffCount + 1;
      assert s == scaffold[..next];
      if scaffLevel != 0 {
        assert scaffold[scaffIndex[scaffLevel - 1]] == s[scaffIndex[scaffLevel - 1]];
        LinkPart(scaffIndex[scaffLevel - 1], next);
      }
      ghost var linked := scaffold[..next];
      scaffold[next] := scaffold[next].(firstchild := 0, lastchild := 0, childcnt := 0, nextsib := 0);
      assert scaffold[..next] == linked;
    }

    /** Room in the tables for a group at `state.level`. */
    method GrowGroups(ghost n: nat)
      requires TablesFit() && state.level == n && 1 <= n && (n == 1 || n <= groupConnector.Length)
      modifies this`groupConnector, this`scaffIndex
      ensures TablesFit() && state.level < groupConnector.Length
      ensures (groupConnector == old(groupConnector) || fresh(groupConnector))
      ensures (scaffIndex == old(scaffIndex) || fresh(scaffIndex))
      ensures forall k :: 0 <= k < n && k < old(groupConnector.Length) ==> groupConnector[k] == old(groupConnector[k])
      ensures old(scaffIndex.Length) <= scaffIndex.Length && scaffIndex[..old(scaffIndex.Length)] == old(scaffIndex[..])
    {
      if state.level >= groupConnector.Length {
        var connectors := new Connector[if groupConnector.Length != 0 then groupConnector.Length * 2
                                        else INIT_GROUPS](_ => Unconnected);
        forall k | 0 <= k < groupConnector.Length {
          connectors[k] := groupConnector[k];
        }
        if groupConnector.Length != 0 && scaffIndex.Length != 0 {
          var temp := new nat[connectors.Length](_ => 0);
          forall k | 0 <= k < scaffIndex.Length {
            temp[k] := scaffIndex[k];
          }
          assert temp[..scaffIndex.Length] == scaffIndex[..];
          scaffIndex := temp;
        }
        groupConnector := connectors;
      }
    }

    /** The connector of a new group is not yet known. */
    method StartConnector(ghost open: seq<Frame>)
      requires Reading(open) && state.level == |open| + 1
      modifies this`groupConnector, this`scaffIndex, groupConnector
      ensures Reading(open) && state.level < groupConnector.Length && groupConnector[state.level] == Unconnected
      ensures groupConnector == old(groupConnector) || fresh(groupConnector)
      ensures scaffIndex == old(scaffIndex) || fresh(scaffIndex)
    {
      hide Represents, OpenChars;
      ghost var index := scaffIndex[..scaffLevel];
      GrowGroups(|open| + 1);
      groupConnector[state.level] := Unconnected;
      assert scaffIndex[..scaffLevel] == index;
    }

    /** A part for a new group, which is now the innermost one. */
    method PushPart(ghost open: seq<Frame>)
      requires Reading(open) && |open| + 1 < groupConnector.Length && groupConnector[|open| + 1] == Unconnected
      modifies this`scaffIndex, this`scaffold, this`scaffCount, this`scaffLevel, scaffIndex, scaffold
      ensures Reading(open + [Frame(Unconnected, Seq, [])])
      ensures (scaffIndex == old(scaffIndex) || fresh(scaffIndex)) && (scaffold == old(scaffold) || fresh(scaffold))
    {
      hide Represents, Link, OpenChars, Linked, LinkOk;
      ghost var s, index := scaffold[..scaffCount], scaffIndex[..scaffLevel];
      LinkFits(s, index, open);
      var myindex := NextScaffoldPart();
      scaffIndex[scaffLevel] := myindex;
      scaffLevel := scaffLevel + 1;
      scaffold[myindex] := scaffold[myindex].(ctype := SeqType);
      PartAdded(s, index, open);
      NewGroupIsEmpty(open);
    }

    lemma PartAdded(s: seq<Scaffold>, index: seq<nat>, open: seq<Frame>)
      requires Represents(s, index, open) && LinkOk(s, index)
      requires scaffCount == |s| + 1 <= scaffold.Length && scaffLevel == |index| + 1 <= scaffIndex.Length
      requires scaffold[..|s|] == Linked(s, index, |s|) && scaffIndex[..|index|] == index && scaffIndex[|index|] == |s|
      requires var c := scaffold[|s|]; c.ctype == SeqType && c.childcnt == c.lastchild == 0
      ensures Represents(scaffold[..scaffCount], scaffIndex[..scaffLevel], open + [Frame(Unconnected, Seq, [])])
    {
      hide Represents, Linked, LinkOk;
      assert scaffIndex[..scaffLevel] == index + [|s|];
      assert scaffold[..scaffCount] == Linked(s, index, |s|) + [scaffold[|s|]];
      AnyOpens(s, index, open, scaffold[|s|]);
    }

    /** A group is opened. */
    method OpenGroupPart(ghost open: seq<Frame>)
      requires Reading(open) && state.level == |open| + 1
      modifies this`groupConnector, this`scaffIndex, this`scaffold, this`scaffCount, this`scaffLevel
      modifies groupConnector, scaffIndex, scaffold
      ensures inEldecl ==> Reading(open + [Frame(Unconnected, Seq, [])])
      ensures groupConnector == old(groupConnector) || fresh(groupConnector)
      ensures (scaffIndex == old(scaffIndex) || fresh(scaffIndex)) && (scaffold == old(scaffold) || fresh(scaffold))
    {
      hide Represents, OpenChars;
      StartConnector(open);
      if inEldecl {
        PushPart(open);
      }
    }

    lemma NewGroupIsEmpty(open: seq<Frame>)
      ensures OpenChars(open + [Frame(Unconnected, Seq, [])]) == OpenChars(open)
    {
      NoChildren([]);
    }

    /** An element name is read. */
    method LeafPart(name: string, quant: Quant, ghost open: seq<Frame>)
      requires Reading(open) && inEldecl && open != []
      modifies this`scaffIndex, this`scaffold, this`scaffCount, this`contentStringLen, scaffIndex, scaffold
      ensures Reading(SetTop(open, Append(Last(open), Leaf(name, quant))))
      ensures (scaffIndex == old(scaffIndex) || fresh(scaffIndex)) && (scaffold == old(scaffold) || fresh(scaffold))
    {
      hide Represents, Link, OpenChars;
      ghost var s, index := scaffold[..scaffCount], scaffIndex[..scaffLevel];
      LinkFits(s, index, open);
      var myindex := NextScaffoldPart();
      scaffold[myindex] := scaffold[myindex].(ctype := NameType, quant := quant, name := name);
      contentStringLen := contentStringLen + |name| + 1;
      LeafJoins(s, index, open, scaffold[myindex]);
      assert scaffold[..scaffCount] == Link(s, Last(index), |s|) + [scaffold[myindex]];
      CharsOfRead(open, Leaf(name, quant));
    }

    /** `#PCDATA`: the group is mixed content. */
    method MixedPart(ghost open: seq<Frame>)
      requires Reading(open) && inEldecl && open != [] && Last(open).children == []
      modifies scaffold
      ensures Reading(SetTop(open, Last(open).(kind := Mixed)))
    {
      hide Represents, OpenChars;
      ghost var s, index, f := scaffold[..scaffCount], scaffIndex[..scaffLevel], Last(open).(kind := Mixed);
      TopFrame(s, index, open);
      var at := scaffIndex[scaffLevel - 1];
      scaffold[at] := scaffold[at].(ctype := MixedType);
      GroupRetyped(s, index, open, f);
      assert scaffold[..scaffCount] == s[at := s[at].(ctype := TypeOf(Mixed))];
      SameChildren(open, f);
    }

    /** `,` or `|`: false if the group has the other one. */
    method ConnectPart(pipe: bool, ghost open: seq<Frame>, ghost m: Machine) returns (ok: bool)
      requires Reading(open) && inEldecl && open != [] && state.level == |open| && m.open == open
      modifies groupConnector, scaffold
      ensures ok <==> Connect(m, if pipe then Or else Comma).Ok?
      ensures ok ==> Reading(Connect(m, if pipe then Or else Comma).value.open)
    {
      hide Represents, OpenChars;
      ghost var s, index, f := scaffold[..scaffCount], scaffIndex[..scaffLevel], Last(open);
      TopFrame(s, index, open);
      if groupConnector[state.level] == if pipe then CommaConnector else PipeConnector { return false; }
      ghost var f' := Top(Connect(m, if pipe then Or else Comma).value);
      var at := scaffIndex[scaffLevel - 1];
      KindIsSeen(s, at, f);
      if pipe && groupConnector[state.level] == Unconnected && scaffold[at].ctype != MixedType {
        scaffold[at] := scaffold[at].(ctype := ChoiceType);
      }
      groupConnector[state.level] := if pipe then PipeConnector else CommaConnector;
      GroupRetyped(s, index, open, f');
      assert scaffold[..scaffCount] == s[at := s[at].(ctype := TypeOf(f'.kind))];
      SameChildren(open, f');
      return true;
    }

    lemma KindIsSeen(s: seq<Scaffold>, at: nat, f: Frame)
      requires FrameHolds(s, at, f, None)
      ensures at < |s| && s[at].ctype == TypeOf(f.kind)
    {
    }

    /** A group within another one is closed, or the last one: then the model is built. */
    method CloseGroupPart(quant: Quant, ghost open: seq<Frame>)
      requires Reading(open) && inEldecl && open != []
      modifies this`scaffLevel, this`inEldecl, this`contentStringLen, this`cells, this`chars, scaffold
      ensures var closed := Group(Last(open).kind, quant, Last(open).children);
        if |open| > 1 then inEldecl && Reading(SetTop(open[..|open| - 1], Append(open[|open| - 2], closed)))
        else !inEldecl && Delivered(Model(closed)) && contentStringLen == 0
      ensures (cells == old(cells) || fresh(cells)) && (chars == old(chars) || fresh(chars))
    {
      hide Represents, OpenChars, Holds, Denotes, Built;
      ghost var s, index := scaffold[..scaffCount], scaffIndex[..scaffLevel];
      ghost var closed := Group(Last(open).kind, quant, Last(open).children);
      ghost var outer := open[..|open| - 1];
      Closed(s, index, open, quant);
      scaffLevel := scaffLevel - 1;
      var at := scaffIndex[scaffLevel];
      scaffold[at] := scaffold[at].(quant := quant);
      ghost var s' := scaffold[..scaffCount];
      assert s' == s[at := s[at].(quant := quant)];
      CharsOfClosed(open, quant);
      if scaffLevel == 0 {
        TopFrame(s, index, open);
        HoldsStill(s', scaffold[..], 0, closed);
        ghost var writes;
        cells, chars, writes := BuildModel(scaffold, scaffCount, contentStringLen, closed);
        inEldecl := false;
        contentStringLen := 0;
      } else {
        GroupCloses(s, index, open, quant);
        assert scaffIndex[..scaffLevel] == index[..|index| - 1];
      }
    }

    /** `EMPTY` and `ANY`: a single cell. */
    method SingleCell(ctype: ContentType)
      modifies this`cells, this`inEldecl
      ensures cells[..] == [Cell(ctype, NoQuant, None, 0, None)] && fresh(cells) && (old(inEldecl) ==> !inEldecl)
    {
      cells := new Cell[1](_ => Cell(ctype, NoQuant, None, 0, None));
      inEldecl := false;
    }

    /** The cases of `doProlog` for the roles of a child that is a name. */
    method DoNameRole(role: Role, t: Token, ghost m: Machine)
      requires Good(m) && m.handler != Declared && Tables(m) && role == RoleFor(m.handler, t)
      requires role == ContentPcdata || role.ContentElement?
      modifies this, groupConnector, scaffold, scaffIndex
      ensures Step(m, t).Ok? && Tables(Step(m, t).value) && groupConnector == old(groupConnector)
      ensures (scaffIndex == old(scaffIndex) || fresh(scaffIndex)) && (scaffold == old(scaffold) || fresh(scaffold))
      ensures cells == old(cells) && chars == old(chars)
    {
      hide Reading, Denotes, Connect, SetTop, Step, RoleFor, Good;
      RoleMeans(m, t);
      if role == ContentPcdata {
        MixedPart(m.open);
      } else {
        LeafPart(t.text, role.quant, m.open);
      }
      FitsWhileReading();
    }

    /** The cases of `doProlog` for the roles of a group. */
    method DoGroupRole(role: Role, t: Token, ghost m: Machine)
      requires Good(m) && m.handler != Declared && Tables(m) && role == RoleFor(m.handler, t)
      requires role == GroupOpen || role.GroupClose?
      requires role == GroupOpen ==> state.level == |m.open| + 1
      modifies this, groupConnector, scaffold, scaffIndex
      ensures Step(m, t).Ok? && Tables(Step(m, t).value)
      ensures groupConnector == old(groupConnector) || fresh(groupConnector)
      ensures (scaffIndex == old(scaffIndex) || fresh(scaffIndex)) && (scaffold == old(scaffold) || fresh(scaffold))
      ensures (cells == old(cells) || fresh(cells)) && (chars == old(chars) || fresh(chars))
    {
      hide Reading, Denotes, Connect, SetTop, Step, RoleFor, Good;
      RoleMeans(m, t);
      if role == GroupOpen {
        OpenGroupPart(m.open);
      } else {
        CloseGroupPart(role.quant, m.open);
      }
      FitsWhileReading();
    }

    /** The cases of `doProlog` for the roles of a connector. */
    method DoConnectorRole(role: Role, t: Token, ghost m: Machine) returns (ok: bool)
      requires Good(m) && m.handler != Declared && Tables(m) && role == RoleFor(m.handler, t)
      requires role == GroupSequence || role == GroupChoice
      requires state.level == |m.open|
      modifies this, groupConnector, scaffold
      ensures ok <==> Step(m, t).Ok?
      ensures ok ==> Tables(Step(m, t).value)
      ensures groupConnector == old(groupConnector) && scaffIndex == old(scaffIndex) && scaffold == old(scaffold)
      ensures cells == old(cells) && chars == old(chars)
    {
      hide Reading, Denotes, Connect, SetTop, Step, RoleFor, Good;
      RoleMeans(m, t);
      ConnectGoesOn(m, t);
      ok := ConnectPart(role == GroupChoice, m.open, m);
      FitsWhileReading();
    }

    /** The cases of `doProlog` for the roles of element declarations. */
    method DoRole(role: Role, t: Token, ghost m: Machine) returns (ok: bool)
      requires Good(m) && m.handler != Declared && Tables(m) && role == RoleFor(m.handler, t) && role != RoleError
      requires role == GroupOpen ==> state.level == |m.open| + 1
      requires role == GroupSequence || role == GroupChoice ==> state.level == |m.open|
      modifies this, groupConnector, scaffold, scaffIndex
      ensures ok <==> Step(m, t).Ok?
      ensures ok ==> Tables(Step(m, t).value)
      ensures groupConnector == old(groupConnector) || fresh(groupConnector)
      ensures (scaffIndex == old(scaffIndex) || fresh(scaffIndex)) && (scaffold == old(scaffold) || fresh(scaffold))
      ensures (cells == old(cells) || fresh(cells)) && (chars == old(chars) || fresh(chars))
    {
      hide Reading, Denotes, Connect, SetTop, Step, RoleFor, Good;
      RoleMeans(m, t);
      ok := true;
      if role == ElementName {
        declElementType := t.text;
        scaffLevel, scaffCount, inEldecl := 0, 0, true;
        NothingIsRead();
      } else if role == ContentAny || role == ContentEmpty {
        SingleCell(if role == ContentAny then AnyType else EmptyType);
      } else if role == ContentPcdata || role.ContentElement? {
        DoNameRole(role, t, m);
      } else if role == GroupOpen || role.GroupClose? {
        DoGroupRole(role, t, m);
      } else if role != ElementNone {
        ok := DoConnectorRole(role, t, m);
      }
    }

    lemma FitsWhileReading()
      ensures forall open :: Reading(open) ==> TablesFit()
    {
    }

    /** One token of a declaration: its role, and what is done then. */
    method HandleToken(t: Token) returns (error: Option<Error>)
      requires Valid() && machine.handler != Declared
      modifies this, state, groupConnector, scaffold, scaffIndex
      ensures match Step(old(machine), t)
        case Ok(m) => error == None && Valid() && machine == m
        case Err(e) => error == Some(e)
      ensures groupConnector == old(groupConnector) || fresh(groupConnector)
      ensures (scaffIndex == old(scaffIndex) || fresh(scaffIndex)) && (scaffold == old(scaffold) || fresh(scaffold))
      ensures (cells == old(cells) || fresh(cells)) && (chars == old(chars) || fresh(chars))
    {
      hide Tables, Step, RoleFor, Good, Connect, LevelAfter, HandlerAfter;
      ghost var m := machine;
      StepFollows(m, t, state.level);
      var role := state.TokenRole(t);
      if role == RoleError {
        return Some(if t == ParamEntityRef then ParamEntityRefError else if t == XmlDecl then MisplacedXmlPi
                    else SyntaxError);
      }
      var ok := DoRole(role, t, m);
      if !ok { return Some(SyntaxError); }
      machine := Step(m, t).value;
      return None;
    }

    /** A whole declaration, the first or a next one: its name and its content model are those it is the printing of. */
    method Declare(tokens: seq<Token>) returns (error: Option<Error>, used: nat)
      requires Valid() && (machine == START || machine.handler == Declared)
      modifies this, state, groupConnector, scaffold, scaffIndex
      ensures used <= |tokens| && (error == None ==> Valid())
      ensures match error
        case None => Run(START, tokens[..used]) == Ok(machine) && (machine.handler == Declared || used == |tokens|)
        case Some(e) => Run(START, tokens[..used]) == Err(e)
      ensures error == None && machine.handler == Declared ==>
        && NoSpace(tokens[..used]) == PrintDeclaration(declElementType, machine.content)
        && ValidContent(machine.content) && Delivered(machine.content)
    {
      hide Step, Valid, PrintDeclaration, Delivered, Run;
      used := 0;
      SeenState();
      if state.handler == Declared {
        Begin();
      }
      RunNothing(machine);
      assert tokens[..0] == [];
      SeenState();
      while used < |tokens| && state.handler != Declared
        invariant used <= |tokens| && Valid() && state.handler == machine.handler
        invariant Run(START, tokens[..used]) == Ok(machine)
        invariant groupConnector == old(groupConnector) || fresh(groupConnector)
        invariant (scaffIndex == old(scaffIndex) || fresh(scaffIndex)) && (scaffold == old(scaffold) || fresh(scaffold))
      {
        RunAppend(START, tokens[..used], [tokens[used]]);
        RunOne(machine, tokens[used]);
        assert tokens[..used] + [tokens[used]] == tokens[..used + 1];
        error := HandleToken(tokens[used]);
        used := used + 1;
        if error.Some? { return; }
        SeenState();
      }
      error := None;
      if machine.handler == Declared {
        AcceptedIsPrinted(tokens[..used], machine.name, machine.content);
        assert Machine(Declared, machine.name, [], machine.content) == machine;
        IsDelivered();
      }
    }

    lemma SeenState()
      requires Valid()
      ensures state.handler == machine.handler
    {
    }

    lemma IsDelivered()
      requires Valid() && machine.handler == Declared
      ensures declElementType == machine.name && Delivered(machine.content)
    {
    }

    lemma NothingIsRead()
      requires scaffLevel == scaffCount == 0 && contentStringLen == 0 && TablesFit()
      ensures Reading([])
    {
    }
  }

  /** What a role leads to. */
  ghost predicate Means(m: Machine, t: Token, role: Role) {
    match role
    case RoleError => Step(m, t) == Reject(t)
    case ElementName => m.handler == Element0 && m.open == [] && t.Name?
      && Step(m, t) == Ok(m.(handler := Element1, name := t.text))
    case ContentAny => m.handler == Element1 && Step(m, t) == Ok(m.(handler := AtClose, content := AnyContent))
    case ContentEmpty => m.handler == Element1 && Step(m, t) == Ok(m.(handler := AtClose, content := EmptyContent))
    case ContentPcdata => m.handler == Element2 && m.open != [] && Top(m).children == []
      && Grows(m, t, SetTop(m.open, Top(m).(kind := Mixed)))
    case ContentElement(quant) =>
      InGroup(m.handler) && m.open != [] && t.Name? && Grows(m, t, SetTop(m.open, Append(Top(m), Leaf(t.text, quant))))
    case GroupOpen => (InGroup(m.handler) || m.handler == Element1)
      && Grows(m, t, m.open + [Frame(Unconnected, Seq, [])])
    case GroupClose(quant) =>
      (m.handler == Element3 || m.handler == Element5 || m.handler == Element7) && m.open != []
        && Step(m, t) == CloseGroup(m, quant)
    case GroupSequence => t == Comma && m.handler == Element7 && m.open != [] && Step(m, t) == Connect(m, Comma)
    case GroupChoice => t == Or && m.handler == Element7 && m.open != [] && Step(m, t) == Connect(m, Or)
    case ElementNone => Step(m, t).Ok? && NothingChanges(m, Step(m, t).value)
  }

  lemma RoleMeans(m: Machine, t: Token)
    requires Good(m) && m.handler != Declared
    ensures (InGroup(m.handler) ==> m.open != []) && Means(m, t, RoleFor(m.handler, t))
  {
    hide Step, RoleFor, Means;
    if InGroup(m.handler) {
      if t.Name? || t.PoundName? || t == OpenParen { ChildMeans(m, t); } else { GroupMeans(m, t); }
    } else {
      OutsideMeans(m, t);
    }
  }

  lemma OutsideMeans(m: Machine, t: Token)
    requires Good(m) && m.handler != Declared && !InGroup(m.handler)
    ensures Means(m, t, RoleFor(m.handler, t))
  {
    hide CloseGroup, SetTop, Connect, AddLeaf;
  }

  lemma GroupMeans(m: Machine, t: Token)
    requires Good(m) && InGroup(m.handler) && !t.Name? && !t.PoundName? && t != OpenParen
    ensures Means(m, t, RoleFor(m.handler, t))
  {
    hide CloseGroup, SetTop, Connect, AddLeaf, OpenGroup;
  }

  lemma ChildMeans(m: Machine, t: Token)
    requires Good(m) && InGroup(m.handler) && (t.Name? || t.PoundName? || t == OpenParen)
    ensures Means(m, t, RoleFor(m.handler, t))
  {
    hide CloseGroup, SetTop, Connect;
  }

  predicate Grows(m: Machine, t: Token, open: seq<Frame>) {
    match Step(m, t)
    case Ok(m') => InGroup(m'.handler) && m'.name == m.name && m'.open == open
    case Err(_) => false
  }

  lemma LevelIsDepth(m: Machine)
    requires Good(m)
    ensures m.handler == Element2 ==> |m.open| == 1
    ensures m.handler == Element1 ==> |m.open| == 0
    ensures m.handler == Element7 ==> |m.open| >= 1
  {
  }

  /** What a connector does to the machine; the only error is to mix two in one group. */
  lemma ConnectGoesOn(m: Machine, t: Token)
    requires m.open != [] && (t == Comma || t == Or)
    ensures match Connect(m, t)
      case Ok(m') => m'.handler == Element6 && m'.name == m.name
      case Err(e) => e == SyntaxError
  {
  }

  predicate NothingChanges(m: Machine, m': Machine) {
    && m'.name == m.name && m'.open == m.open && m'.content == m.content
    && (m'.handler == m.handler || (InGroup(m.handler) && InGroup(m'.handler))
        || (m.handler == AtClose && m'.handler == Declared))
  }

  lemma StepKeepsLevel(m: Machine, t: Token)
    requires Good(m) && m.handler != Declared && Step(m, t).Ok?
    ensures var m' := Step(m, t).value; Good(m') && var role := RoleFor(m.handler, t);
      && (role != GroupOpen && !role.GroupClose? && InGroup(m'.handler) ==> |m'.open| == |m.open| && InGroup(m.handler))
      && (role == GroupOpen ==> |m'.open| == |m.open| + 1)
      && (role.GroupClose? && InGroup(m'.handler) ==> |m'.open| == |m.open| - 1 && m.handler == Element7)
  {
    hide Consumed, Step, RoleFor, WellFormed, Waiting, Rested;
    if t != Space { StepConsumes(m, t); } else { SpaceIsSkipped(m); }
    RoleMeans(m, t);
  }

  /** The handler and the level that the role leaves are those of the machine. */
  lemma StepFollows(m: Machine, t: Token, level: nat)
    requires Good(m) && m.handler != Declared && (InGroup(m.handler) ==> level == |m.open|)
    ensures m.handler == Element7 ==> level > 0
    ensures var role := RoleFor(m.handler, t);
      && (role == GroupOpen ==> LevelAfter(m.handler, role, level) == |m.open| + 1)
      && (role == GroupSequence || role == GroupChoice ==>
           LevelAfter(m.handler, role, level) == |m.open|)
      && (role == RoleError ==> Step(m, t) == Reject(t))
      && (role != RoleError && Step(m, t).Err? ==> Step(m, t) == Err(SyntaxError))
    ensures Step(m, t).Ok? ==>
      var m' := Step(m, t).value;
      && Good(m') && HandlerAfter(m.handler, t, level == 1) == m'.handler
      && (InGroup(m'.handler) ==> LevelAfter(m.handler, RoleFor(m.handler, t), level) == |m'.open|)
  {
    hide Step, RoleFor, Good, Connect, HandlerAfter;
    RoleMeans(m, t);
    LevelIsDepth(m);
    if t == Comma || t == Or {
      if m.open != [] { ConnectGoesOn(m, t); }
    }
    if Step(m, t).Ok? {
      StepKeepsLevel(m, t);
      HandlerOfStep(m, t);
      LastMatters(m.handler, t, |m.open| == 1, level == 1);
    }
  }

  lemma LastMatters(h: Handler, t: Token, a: bool, b: bool)
    ensures h != Element7 ==> HandlerAfter(h, t, a) == HandlerAfter(h, t, b)
  {
    hide RoleFor;
  }

  lemma SameChildren(open: seq<Frame>, f: Frame)
    requires open != [] && f.children == Last(open).children
    ensures OpenChars(SetTop(open, f)) == OpenChars(open)
  {
  }

  lemma CharsOfClosed(open: seq<Frame>, quant: Quant)
    requires open != []
    ensures var closed := Group(Last(open).kind, quant, Last(open).children);
      if |open| == 1 then OpenChars(open) == Chars(closed)
      else OpenChars(SetTop(open[..|open| - 1], Append(open[|open| - 2], closed))) == OpenChars(open)
  {
    hide CharsOf, Chars, SetTop;
    var closed := Group(Last(open).kind, quant, Last(open).children);
    GroupRoom(closed);
    if |open| > 1 {
      CharsOfRead(open[..|open| - 1], closed);
    } else {
      assert open[..0] == [];
    }
  }

  /** The innermost group can get a child. */
  ghost predicate LinkOk(s: seq<Scaffold>, index: seq<nat>) {
    index != [] ==> Last(index) < |s| && s[Last(index)].lastchild < |s|
  }

  ghost function Linked(s: seq<Scaffold>, index: seq<nat>, next: nat): (s': seq<Scaffold>)
    requires LinkOk(s, index)
    ensures |s'| == |s|
  {
    if index == [] then s else Link(s, Last(index), next)
  }

  lemma LinkFits(s: seq<Scaffold>, index: seq<nat>, open: seq<Frame>)
    requires Represents(s, index, open)
    ensures LinkOk(s, index) && |index| == |open| && (open == [] ==> s == [])
  {
    if open != [] { TopFrame(s, index, open); }
  }

  lemma AnyOpens(s: seq<Scaffold>, index: seq<nat>, open: seq<Frame>, cell: Scaffold)
    requires Represents(s, index, open) && LinkOk(s, index)
    requires cell.ctype == SeqType && cell.childcnt == cell.lastchild == 0
    ensures Represents(Linked(s, index, |s|) + [cell], index + [|s|], open + [Frame(Unconnected, Seq, [])])
  {
    LinkFits(s, index, open);
    if open == [] {
      FirstOpens(cell);
      assert s + [cell] == [cell] && index + [|s|] == [0];
    } else {
      GroupOpens(s, index, open, cell);
    }
  }

  /** Names that are read count. */
  lemma CharsOfRead(open: seq<Frame>, t: Tree)
    requires open != []
    ensures OpenChars(SetTop(open, Append(Last(open), t))) == OpenChars(open) + Chars(t)
    ensures t.Leaf? ==> Chars(t) == |t.name| + 1
  {
    hide CharsOf;
    SizeSnoc(Last(open).children, t);
  }

  const NO_PART := Scaffold(NameType, NoQuant, "", 0, 0, 0, 0)
}
