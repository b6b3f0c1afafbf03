/**
 Element type declarations: the states of the prolog machine from the element name to the closing
 `>`, together with what the parser does at the roles of the tokens.

 A declaration is accepted exactly if it is the printing of a content model, white space aside, and
 then that model is the result.
 */
module ContentModels {
  import opened Errors

  datatype Quant = NoQuant | Opt | Rep | Plus

  datatype Kind = Seq | Choice | Mixed

  /** A content particle: an element name or a group. */
  datatype Tree = Leaf(name: string, quant: Quant) | Group(kind: Kind, quant: Quant, children: seq<Tree>)

  datatype Content = EmptyContent | AnyContent | Model(tree: Tree)

  datatype Token =
    | Space
    | Name(text: string, quant: Quant)
    | PoundName(text: string)
    | OpenParen
    | CloseParen(quant: Quant)
    | Or
    | Comma
    | DeclClose
    | ParamEntityRef
    | XmlDecl
    | OtherToken

  // ----- printing -----

  function Separator(kind: Kind): Token {
    if kind == Seq then Comma else Or
  }

  function Print(t: Tree): seq<Token>
    decreases t, 0
  {
    match t
    case Leaf(name, quant) => [Name(name, quant)]
    case Group(kind, quant, children) => [OpenParen] + Body(kind, children, |children|) + [CloseParen(quant)]
  }

  /** The first `n` children; `#PCDATA` comes before those of mixed content. */
  function Body(kind: Kind, children: seq<Tree>, n: nat): seq<Token>
    requires n <= |children|
    decreases children, n
  {
    if n == 0 then (if kind == Mixed then [PoundName("PCDATA")] else [])
    else
      Body(kind, children, n - 1) + (if kind == Mixed || n > 1 then [Separator(kind)] else []) + Print(children[n - 1])
  }

  function PrintContent(c: Content): seq<Token> {
    match c
    case EmptyContent => [Name("EMPTY", NoQuant)]
    case AnyContent => [Name("ANY", NoQuant)]
    case Model(tree) => Print(tree)
  }

  /** What follows `<!ELEMENT`. */
  function PrintDeclaration(name: string, c: Content): seq<Token> {
    [Name(name, NoQuant)] + PrintContent(c) + [DeclClose]
  }

  /** A particle of section 3.2.1 of XML 1.0. */
  predicate WellFormed(t: Tree)
    decreases t
  {
    t.Group? ==>
      && t.kind != Mixed
      && |t.children| >= (if t.kind == Choice then 2 else 1)
      && forall i :: 0 <= i < |t.children| ==> WellFormed(t.children[i])
  }

  /** Mixed content of section 3.2.2. */
  predicate IsMixed(t: Tree) {
    && t.Group? && t.kind == Mixed && (t.quant == Rep || (t.quant == NoQuant && t.children == []))
    && forall i :: 0 <= i < |t.children| ==> IsName(t.children[i])
  }

  predicate IsName(t: Tree) { t.Leaf? && t.quant == NoQuant }

  predicate ValidContent(c: Content) {
    c.Model? ==> IsMixed(c.tree) || (c.tree.Group? && WellFormed(c.tree))
  }

  // ----- the machine -----

  datatype Handler =
    | Element0 | Element1 | Element2 | Element3 | Element4 | Element5 | Element6 | Element7 | AtClose | Declared

  datatype Connector = Unconnected | CommaConnector | PipeConnector

  /** An open group: its connector so far, and what has been read of it. */
  datatype Frame = Frame(connector: Connector, kind: Kind, children: seq<Tree>)

  datatype Machine = Machine(handler: Handler, name: string, open: seq<Frame>, content: Content)

  const START := Machine(Element0, "", [], EmptyContent)

  function Top(m: Machine): Frame
    requires m.open != []
  {
    m.open[|m.open| - 1]
  }

  function SetTop(open: seq<Frame>, f: Frame): (r: seq<Frame>)
    requires open != []
    ensures r == open[..|open| - 1] + [f] && r[..|open| - 1] == open[..|open| - 1]
  {
    open[|open| - 1 := f]
  }

  /** `common` */
  function Reject(t: Token): Result<Machine> {
    Err(if t == ParamEntityRef then ParamEntityRefError else if t == XmlDecl then MisplacedXmlPi else SyntaxError)
  }

  function Append(f: Frame, t: Tree): Frame { f.(children := f.children + [t]) }

  function AddLeaf(m: Machine, t: Token, next: Handler): Result<Machine>
    requires m.open != [] && t.Name?
  {
    Ok(m.(handler := next, open := SetTop(m.open, Append(Top(m), Leaf(t.text, t.quant)))))
  }

  function OpenGroup(m: Machine, next: Handler): Result<Machine> {
    Ok(m.(handler := next, open := m.open + [Frame(Unconnected, Seq, [])]))
  }

  function CloseGroup(m: Machine, quant: Quant): Result<Machine>
    requires m.open != []
  {
    var closed := Group(Top(m).kind, quant, Top(m).children);
    var outer := m.open[..|m.open| - 1];
    if outer == [] then Ok(m.(handler := AtClose, open := [], content := Model(closed)))
    else Ok(m.(handler := Element7, open := SetTop(outer, Append(outer[|outer| - 1], closed))))
  }

  /** A group may not mix its connectors; the first `|` makes it a choice. */
  function Connect(m: Machine, t: Token): Result<Machine>
    requires m.open != [] && (t == Comma || t == Or)
  {
    var f := Top(m);
    if t == Comma then
      if f.connector == PipeConnector then Err(SyntaxError)
      else Ok(m.(handler := Element6, open := SetTop(m.open, f.(connector := CommaConnector))))
    else if f.connector == CommaConnector then Err(SyntaxError)
    else
      var kind := if f.connector == Unconnected && f.kind != Mixed then Choice else f.kind;
      Ok(m.(handler := Element6, open := SetTop(m.open, f.(connector := PipeConnector, kind := kind))))
  }

  predicate InGroup(h: Handler) {
    h.Element2? || h.Element3? || h.Element4? || h.Element5? || h.Element6? || h.Element7?
  }

  /** One token, given to the handler of the state. */
  function Step(m: Machine, t: Token): Result<Machine> {
    if t == Space then Ok(m)
    else if m.handler == Declared || (InGroup(m.handler) && m.open == []) then Err(UnexpectedState)
    else
      match m.handler
      case Element0 => if t.Name? && t.quant == NoQuant then Ok(m.(handler := Element1, name := t.text)) else Reject(t)
      case Element1 =>
        if t == Name("EMPTY", NoQuant) then Ok(m.(handler := AtClose, content := EmptyContent))
        else if t == Name("ANY", NoQuant) then Ok(m.(handler := AtClose, content := AnyContent))
        else if t == OpenParen then OpenGroup(m, Element2)
        else Reject(t)
      case Element2 =>
        if t == PoundName("PCDATA") then Ok(m.(handler := Element3, open := SetTop(m.open, Top(m).(kind := Mixed))))
        else if t == OpenParen then OpenGroup(m, Element6)
        else if t.Name? then AddLeaf(m, t, Element7)
        else Reject(t)
      case Element3 =>
        if t.CloseParen? && (t.quant == NoQuant || t.quant == Rep) then CloseGroup(m, t.quant)
        else if t == Or then Ok(m.(handler := Element4))
        else Reject(t)
      case Element4 => if t.Name? && t.quant == NoQuant then AddLeaf(m, t, Element5) else Reject(t)
      case Element5 =>
        if t == CloseParen(Rep) then CloseGroup(m, Rep)
        else if t == Or then Ok(m.(handler := Element4))
        else Reject(t)
      case Element6 =>
        if t == OpenParen then OpenGroup(m, Element6)
        else if t.Name? then AddLeaf(m, t, Element7)
        else Reject(t)
      case Element7 =>
        if t.CloseParen? then CloseGroup(m, t.quant)
        else if t == Comma || t == Or then Connect(m, t)
        else Reject(t)
      case AtClose => if t == DeclClose then Ok(m.(handler := Declared)) else Reject(t)
      case Declared => Err(UnexpectedState)
  }

  function Run(m: Machine, tokens: seq<Token>): Result<Machine>
    decreases |tokens|
  {
    if tokens == [] then Ok(m)
    else
      match Step(m, tokens[0])
      case Ok(m') => Run(m', tokens[1..])
      case Err(e) => Err(e)
  }

  function NoSpace(tokens: seq<Token>): seq<Token> {
    if tokens == [] then []
    else (if tokens[0] == Space then [] else [tokens[0]]) + NoSpace(tokens[1..])
  }

  lemma {:induction false} RunAppend(m: Machine, a: seq<Token>, b: seq<Token>)
    ensures Run(m, a + b) == match Run(m, a) case Ok(m') => Run(m', b) case Err(e) => Err(e)
    decreases |a|
  {
    hide Step;
    if a == [] {
      assert a + b == b;
    } else {
      assert (a + b)[1..] == a[1..] + b;
      match Step(m, a[0])
      case Ok(m') => RunAppend(m', a[1..], b);
      case Err(_) =>
    }
  }

  lemma RunOne(m: Machine, t: Token)
    ensures Run(m, [t]) == Step(m, t)
  {
    hide Step;
    assert [t][1..] == [];
  }

  // ----- a printed model is accepted -----

  /** The open groups after `t` has been read into the innermost one. */
  function Read(open: seq<Frame>, t: Tree): seq<Frame>
    requires open != []
  {
    SetTop(open, Append(open[|open| - 1], t))
  }

  /** A group that has `n` children, with its connector if it is known. */
  function Partial(kind: Kind, children: seq<Tree>, n: nat): Frame
    requires n <= |children| && kind != Mixed
  {
    if n <= 1 then Frame(Unconnected, Seq, children[..n])
    else Frame(if kind == Seq then CommaConnector else PipeConnector, kind, children[..n])
  }

  lemma {:induction false} PrintIsRead(name: string, h: Handler, open: seq<Frame>, t: Tree)
    requires WellFormed(t) && open != [] && (h == Element2 || h == Element6)
    ensures Run(Machine(h, name, open, EmptyContent), Print(t))
      == Ok(Machine(Element7, name, Read(open, t), EmptyContent))
    decreases t, 0
  {
    hide Run;
    var m := Machine(h, name, open, EmptyContent);
    match t
    case Leaf(text, quant) =>
      RunOne(m, Name(text, quant));
    case Group(kind, quant, children) =>
      var n := |children|;
      var m1 := Machine(Element6, name, open + [Frame(Unconnected, Seq, [])], EmptyContent);
      RunOne(m, OpenParen);
      BodyIsRead(name, Element6, open, kind, children, n);
      RunAppend(m, [OpenParen], Body(kind, children, n));
      var m2 := Machine(Element7, name, open + [Partial(kind, children, n)], EmptyContent);
      RunOne(m2, CloseParen(quant));
      RunAppend(m, [OpenParen] + Body(kind, children, n), [CloseParen(quant)]);
      assert (open + [Partial(kind, children, n)])[..|open|] == open && children[..n] == children;
  }

  lemma {:induction false} BodyIsRead(name: string, h: Handler, outer: seq<Frame>, kind: Kind, children: seq<Tree>,
                                      n: nat)
    requires kind != Mixed && 1 <= n <= |children| && (h == Element2 || h == Element6)
    requires forall i :: 0 <= i < |children| ==> WellFormed(children[i])
    ensures Run(Machine(h, name, outer + [Frame(Unconnected, Seq, [])], EmptyContent), Body(kind, children, n))
         == Ok(Machine(Element7, name, outer + [Partial(kind, children, n)], EmptyContent))
    decreases children, n
  {
    hide Run;
    var m := Machine(h, name, outer + [Frame(Unconnected, Seq, [])], EmptyContent);
    if n == 1 {
      PrintIsRead(name, h, m.open, children[0]);
      assert Body(kind, children, 1) == Print(children[0]);
      assert children[..1] == [] + [children[0]] && m.open[..|outer|] == outer;
      assert Read(m.open, children[0]) == outer + [Partial(kind, children, 1)];
    } else {
      BodyIsRead(name, h, outer, kind, children, n - 1);
      var m1 := Machine(Element7, name, outer + [Partial(kind, children, n - 1)], EmptyContent);
      SeparatorIsRead(m1, outer, kind, children, n - 1);
      RunAppend(m, Body(kind, children, n - 1), [Separator(kind)]);
      var open := outer + [Partial(kind, children, n).(children := children[..n - 1])];
      PrintIsRead(name, Element6, open, children[n - 1]);
      RunAppend(m, Body(kind, children, n - 1) + [Separator(kind)], Print(children[n - 1]));
      assert children[..n - 1] + [children[n - 1]] == children[..n];
      assert Read(open, children[n - 1]) == outer + [Partial(kind, children, n)];
    }
  }

  lemma SeparatorIsRead(m: Machine, outer: seq<Frame>, kind: Kind, children: seq<Tree>, n: nat)
    requires kind != Mixed && 1 <= n < |children|
    requires m.handler == Element7 && m.open == outer + [Partial(kind, children, n)]
    ensures Run(m, [Separator(kind)])
      == Ok(m.(handler := Element6, open := outer + [Partial(kind, children, n + 1).(children := children[..n])]))
  {
    hide Run;
    RunOne(m, Separator(kind));
    assert m.open[..|m.open| - 1] == outer;
  }

  lemma {:induction false} MixedIsRead(name: string, children: seq<Tree>, n: nat)
    requires n <= |children| && forall i :: 0 <= i < |children| ==> IsName(children[i])
    ensures Run(Machine(Element2, name, [Frame(Unconnected, Seq, [])], EmptyContent), Body(Mixed, children, n))
         == Ok(Machine(if n == 0 then Element3 else Element5, name, [Frame(Unconnected, Mixed, children[..n])],
                       EmptyContent))
    decreases n
  {
    hide Run;
    var m := Machine(Element2, name, [Frame(Unconnected, Seq, [])], EmptyContent);
    if n == 0 {
      RunOne(m, PoundName("PCDATA"));
      assert m.open[..0] + [Frame(Unconnected, Mixed, [])] == [Frame(Unconnected, Mixed, children[..0])];
    } else {
      MixedIsRead(name, children, n - 1);
      var open := [Frame(Unconnected, Mixed, children[..n - 1])];
      var m1 := Machine(if n == 1 then Element3 else Element5, name, open, EmptyContent);
      RunOne(m1, Or);
      RunAppend(m, Body(Mixed, children, n - 1), [Or]);
      NameIsRead(name, open, children[n - 1]);
      RunAppend(m, Body(Mixed, children, n - 1) + [Or], Print(children[n - 1]));
      assert children[..n - 1] + [children[n - 1]] == children[..n];
    }
  }

  lemma NameIsRead(name: string, open: seq<Frame>, t: Tree)
    requires |open| == 1 && IsName(t)
    ensures Run(Machine(Element4, name, open, EmptyContent), Print(t))
         == Ok(Machine(Element5, name, [Append(open[0], t)], EmptyContent))
  {
    hide Run;
    RunOne(Machine(Element4, name, open, EmptyContent), Name(t.name, NoQuant));
    assert open[..0] + [Append(open[0], t)] == [Append(open[0], t)];
  }

  lemma ModelIsRead(name: string, t: Tree)
    requires ValidContent(Model(t))
    ensures Run(Machine(Element1, name, [], EmptyContent), Print(t)) == Ok(Machine(AtClose, name, [], Model(t)))
  {
    hide Run;
    var m := Machine(Element1, name, [], EmptyContent);
    var n := |t.children|;
    var body := Body(t.kind, t.children, n);
    var open := [Frame(Unconnected, Seq, [])];
    RunOne(m, OpenParen);
    assert [] + open == open && t.children[..n] == t.children;
    var m2;
    if t.kind == Mixed {
      MixedIsRead(name, t.children, n);
      m2 := Machine(if n == 0 then Element3 else Element5, name, [Frame(Unconnected, Mixed, t.children)], EmptyContent);
    } else {
      BodyIsRead(name, Element2, [], t.kind, t.children, n);
      m2 := Machine(Element7, name, [Partial(t.kind, t.children, n)], EmptyContent);
      assert [] + [Partial(t.kind, t.children, n)] == m2.open;
    }
    RunAppend(m, [OpenParen], body);
    RunOne(m2, CloseParen(t.quant));
    RunAppend(m, [OpenParen] + body, [CloseParen(t.quant)]);
  }

  lemma ContentIsRead(name: string, c: Content)
    requires ValidContent(c)
    ensures Run(Machine(Element1, name, [], EmptyContent), PrintContent(c)) == Ok(Machine(AtClose, name, [], c))
  {
    hide Run;
    var m := Machine(Element1, name, [], EmptyContent);
    if c.Model? {
      ModelIsRead(name, c.tree);
    } else {
      RunOne(m, PrintContent(c)[0]);
      assert "EMPTY"[0] != "ANY"[0];
    }
  }

  lemma DeclarationIsRead(name: string, c: Content)
    requires ValidContent(c)
    ensures Run(START, PrintDeclaration(name, c)) == Ok(Machine(Declared, name, [], c))
  {
    hide Run, PrintContent;
    RunOne(START, Name(name, NoQuant));
    ContentIsRead(name, c);
    RunAppend(START, [Name(name, NoQuant)], PrintContent(c));
    RunOne(Machine(AtClose, name, [], c), DeclClose);
    RunAppend(START, [Name(name, NoQuant)] + PrintContent(c), [DeclClose]);
  }

  // ----- what is accepted is a printed model -----

  function FrameTokens(f: Frame, pending: bool): seq<Token> {
    [OpenParen] + Body(f.kind, f.children, |f.children|)
    + (if pending && (f.children != [] || f.kind == Mixed) then [Separator(f.kind)] else [])
  }

  function OpenTokens(open: seq<Frame>, pending: bool): seq<Token>
    decreases |open|
  {
    if open == [] then [] else OpenTokens(open[..|open| - 1], true) + FrameTokens(open[|open| - 1], pending)
  }

  /** The tokens that lead to a state. */
  function Consumed(m: Machine): seq<Token> {
    match m.handler
    case Element0 => []
    case AtClose => [Name(m.name, NoQuant)] + PrintContent(m.content)
    case Declared => PrintDeclaration(m.name, m.content)
    case _ => [Name(m.name, NoQuant)] + OpenTokens(m.open, m.handler == Element4 || m.handler == Element6)
  }

  predicate FrameOk(f: Frame) {
    && f.kind != Mixed && (f.connector == PipeConnector <==> f.kind == Choice)
    && forall i :: 0 <= i < |f.children| ==> WellFormed(f.children[i])
  }

  /** A group that waits for its next child. */
  predicate Waiting(f: Frame) { FrameOk(f) && (f.connector == Unconnected <==> f.children == []) }

  /** A group that has just got a child. */
  predicate Rested(f: Frame) { FrameOk(f) && f.children != [] && (f.connector == Unconnected <==> |f.children| == 1) }

  predicate MixedOk(f: Frame) {
    f.connector == Unconnected && f.kind == Mixed && forall i :: 0 <= i < |f.children| ==> IsName(f.children[i])
  }

  predicate AllWaiting(open: seq<Frame>) { forall i :: 0 <= i < |open| ==> Waiting(open[i]) }

  /** The states that can be reached. */
  predicate Good(m: Machine) {
    && (InGroup(m.handler) <==> m.open != [])
    && (m.open != [] ==> AllWaiting(m.open[..|m.open| - 1]))
    && match m.handler
       case Element2 => m.open == [Frame(Unconnected, Seq, [])]
       case Element3 => |m.open| == 1 && MixedOk(m.open[0]) && m.open[0].children == []
       case Element4 => |m.open| == 1 && MixedOk(m.open[0])
       case Element5 => |m.open| == 1 && MixedOk(m.open[0]) && m.open[0].children != []
       case Element6 => Waiting(Top(m))
       case Element7 => Rested(Top(m))
       case AtClose => ValidContent(m.content)
       case Declared => ValidContent(m.content)
       case _ => true
  }

  lemma {:induction false} BodyPrefix(kind: Kind, a: seq<Tree>, b: seq<Tree>, n: nat)
    requires n <= |a| && a <= b
    ensures Body(kind, a, n) == Body(kind, b, n)
    decreases n
  {
    if n > 0 {
      BodyPrefix(kind, a, b, n - 1);
    }
  }

  lemma FrameRead(f: Frame, t: Tree)
    ensures FrameTokens(Append(f, t), false) == FrameTokens(f, true) + Print(t)
  {
    hide Print;
    BodyPrefix(f.kind, f.children, f.children + [t], |f.children|);
  }

  /** A child that is read adds its tokens. */
  lemma ReadTokens(open: seq<Frame>, t: Tree)
    requires open != []
    ensures OpenTokens(Read(open, t), false) == OpenTokens(open, true) + Print(t)
  {
    hide FrameTokens, Print, OpenTokens;
    var f, front := open[|open| - 1], open[..|open| - 1];
    FrameRead(f, t);
    LastTokens(open, true);
    LastTokens(Read(open, t), false);
    assert OpenTokens(front, true) + (FrameTokens(f, true) + Print(t))
      == OpenTokens(front, true) + FrameTokens(f, true) + Print(t);
  }

  lemma LastTokens(open: seq<Frame>, pending: bool)
    requires open != []
    ensures OpenTokens(open, pending) == OpenTokens(open[..|open| - 1], true) + FrameTokens(open[|open| - 1], pending)
  {
  }

  lemma CloseTokens(m: Machine, quant: Quant)
    requires m.open != []
    ensures var closed := Group(Top(m).kind, quant, Top(m).children);
      OpenTokens(m.open, false) + [CloseParen(quant)] == OpenTokens(m.open[..|m.open| - 1], true) + Print(closed)
  {
  }

  lemma Behind(name: string, x: seq<Token>, y: seq<Token>)
    ensures [Name(name, NoQuant)] + x + y == [Name(name, NoQuant)] + (x + y)
  {
  }

  lemma CloseConsumes(m: Machine, quant: Quant)
    requires Good(m) && m.handler == Element7
    ensures var m' := CloseGroup(m, quant).value; Good(m') && Consumed(m') == Consumed(m) + [CloseParen(quant)]
  {
    hide OpenTokens, Print, Body, WellFormed;
    var outer := m.open[..|m.open| - 1];
    var closed := Group(Top(m).kind, quant, Top(m).children);
    CloseTokens(m, quant);
    Behind(m.name, OpenTokens(m.open, false), [CloseParen(quant)]);
    RestedIsWellFormed(Top(m), quant);
    if outer == [] {
      NoTokens();
      assert [] + Print(closed) == Print(closed);
    } else {
      ReadTokens(outer, closed);
      assert outer[..|outer| - 1] == m.open[..|outer| - 1];
      assert Waiting(outer[|outer| - 1]);
      ReadRests(outer[|outer| - 1], closed);
    }
  }

  lemma ReadRests(f: Frame, t: Tree)
    requires Waiting(f) && WellFormed(t)
    ensures Rested(Append(f, t))
  {
    hide WellFormed;
  }

  lemma RestedIsWellFormed(f: Frame, quant: Quant)
    requires Rested(f)
    ensures WellFormed(Group(f.kind, quant, f.children))
  {
  }

  lemma NoTokens()
    ensures OpenTokens([], true) == OpenTokens([], false) == []
  {
  }

  lemma MixedCloseConsumes(m: Machine, quant: Quant)
    requires Good(m) && (m.handler == Element3 || m.handler == Element5)
    requires quant == Rep || (quant == NoQuant && m.handler == Element3)
    ensures var m' := CloseGroup(m, quant).value; Good(m') && Consumed(m') == Consumed(m) + [CloseParen(quant)]
  {
    hide OpenTokens, Print, Body;
    CloseTokens(m, quant);
    Behind(m.name, OpenTokens(m.open, false), [CloseParen(quant)]);
    assert m.open[..0] == [];
    NoTokens();
    assert [] + Print(Group(Mixed, quant, Top(m).children)) == Print(Group(Mixed, quant, Top(m).children));
  }

  lemma LeafConsumes(m: Machine, t: Token)
    requires Good(m) && t.Name? && (m.handler == Element2 || m.handler == Element6)
    ensures var m' := AddLeaf(m, t, Element7).value; Good(m') && Consumed(m') == Consumed(m) + [t]
  {
    hide Consumed, Good, Print;
    LeafIsToken(Leaf(t.text, t.quant));
    FirstIsEmpty(m);
    LeafTokens(m, t, Leaf(t.text, t.quant), Element7);
    LeafRests(m, t);
  }

  lemma FirstIsEmpty(m: Machine)
    requires Good(m) && (m.handler == Element2 || m.handler == Element6)
    ensures m.open != [] && (m.handler == Element2 ==> m.open[|m.open| - 1] == Frame(Unconnected, Seq, []))
  {
  }

  lemma LeafRests(m: Machine, t: Token)
    requires Good(m) && t.Name? && (m.handler == Element2 || m.handler == Element6)
    ensures Good(AddLeaf(m, t, Element7).value)
  {
    hide WellFormed, Waiting, Rested;
    LeafIsToken(Leaf(t.text, t.quant));
    if m.handler == Element2 { FirstWaits(); }
    ReadRests(Top(m), Leaf(t.text, t.quant));
  }

  lemma FirstWaits()
    ensures Waiting(Frame(Unconnected, Seq, []))
  {
  }

  lemma MixedLeafConsumes(m: Machine, t: Token)
    requires Good(m) && t.Name? && t.quant == NoQuant && m.handler == Element4
    ensures var m' := AddLeaf(m, t, Element5).value; Good(m') && Consumed(m') == Consumed(m) + [t]
  {
    hide Consumed, Body, WellFormed, Print;
    LeafIsToken(Leaf(t.text, t.quant));
    LeafTokens(m, t, Leaf(t.text, t.quant), Element5);
  }

  lemma LeafTokens(m: Machine, t: Token, leaf: Tree, next: Handler)
    requires m.open != [] && (m.handler == Element2 || m.handler == Element4 || m.handler == Element6)
    requires m.handler == Element2 ==> m.open[|m.open| - 1] == Frame(Unconnected, Seq, [])
    requires Print(leaf) == [t] && (next == Element5 || next == Element7)
    ensures Consumed(m.(handler := next, open := Read(m.open, leaf))) == Consumed(m) + [t]
  {
    hide OpenTokens, Print, Read;
    ReadTokens(m.open, leaf);
    if m.handler == Element2 {
      FirstTokens(m.open, true);
      FirstTokens(m.open, false);
    }
    Behind(m.name, OpenTokens(m.open, true), [t]);
  }

  lemma LeafIsToken(t: Tree)
    requires t.Leaf?
    ensures Print(t) == [Name(t.name, t.quant)] && WellFormed(t)
  {
  }

  /** Before the first child it does not matter whether one is expected. */
  lemma FirstTokens(open: seq<Frame>, pending: bool)
    requires open != [] && open[|open| - 1] == Frame(Unconnected, Seq, [])
    ensures OpenTokens(open, pending) == OpenTokens(open[..|open| - 1], true) + [OpenParen]
  {
    var f := open[|open| - 1];
    assert FrameTokens(f, pending) == [OpenParen];
  }

  lemma OpenConsumes(m: Machine, next: Handler)
    requires Good(m)
    requires (m.handler == Element1 && next == Element2)
      || ((m.handler == Element2 || m.handler == Element6) && next == Element6)
    ensures var m' := OpenGroup(m, next).value; Good(m') && Consumed(m') == Consumed(m) + [OpenParen]
  {
    hide Print, WellFormed, OpenTokens, Body;
    var open := m.open + [Frame(Unconnected, Seq, [])];
    assert open[..|m.open|] == m.open;
    if m.handler == Element2 {
      FirstTokens(m.open, true);
      FirstTokens(m.open, false);
    }
    FirstTokens(open, next == Element6);
    assert forall i :: 0 <= i < |m.open| - 1 ==> m.open[i] == m.open[..|m.open| - 1][i];
    Behind(m.name, OpenTokens(m.open, true), [OpenParen]);
    NoTokens();
  }

  lemma ConnectConsumes(m: Machine, t: Token)
    requires Good(m) && m.handler == Element7 && (t == Comma || t == Or) && Connect(m, t).Ok?
    ensures var m' := Connect(m, t).value; Good(m') && Consumed(m') == Consumed(m) + [t]
  {
    hide Print, WellFormed;
    var f := Top(m);
    var f' := Top(Connect(m, t).value);
    OneChild(f.children);
    assert Body(f'.kind, f'.children, |f'.children|) == Body(f.kind, f.children, |f.children|);
    assert FrameTokens(f', true) == FrameTokens(f, false) + [t];
  }

  /** A single child is printed without a separator. */
  lemma OneChild(children: seq<Tree>)
    ensures |children| == 1 ==> Body(Choice, children, 1) == Body(Seq, children, 1)
  {
  }

  lemma MixedBarConsumes(m: Machine)
    requires Good(m) && (m.handler == Element3 || m.handler == Element5)
    ensures var m' := m.(handler := Element4); Good(m') && Consumed(m') == Consumed(m) + [Or]
  {
    hide Body;
    assert FrameTokens(Top(m), true) == FrameTokens(Top(m), false) + [Or];
  }

  lemma PcdataConsumes(m: Machine)
    requires Good(m) && m.handler == Element2
    ensures var m' := m.(handler := Element3, open := SetTop(m.open, Top(m).(kind := Mixed)));
      Good(m') && Consumed(m') == Consumed(m) + [PoundName("PCDATA")]
  {
    assert Body(Seq, [], 0) == [] && Body(Mixed, [], 0) == [PoundName("PCDATA")];
  }

  /** Each token that is accepted is the next token of what has been read. */
  lemma StepConsumes(m: Machine, t: Token)
    requires Good(m) && t != Space && Step(m, t).Ok?
    ensures var m' := Step(m, t).value; Good(m') && Consumed(m') == Consumed(m) + [t]
  {
    hide AddLeaf, OpenGroup, CloseGroup, Connect, OpenTokens, Print, Body;
    var h := m.handler;
    if t == OpenParen {
      OpenConsumes(m, if h == Element1 then Element2 else Element6);
    } else if t.CloseParen? {
      if h == Element7 { CloseConsumes(m, t.quant); } else { MixedCloseConsumes(m, t.quant); }
    } else if h == Element2 || h == Element4 || h == Element6 {
      if !t.Name? { PcdataConsumes(m); } else if h == Element4 { MixedLeafConsumes(m, t); } else { LeafConsumes(m, t); }
    } else if h == Element7 {
      ConnectConsumes(m, t);
    } else if h == Element3 || h == Element5 {
      MixedBarConsumes(m);
    } else {
      NoTokens();
    }
  }

  lemma RunNothing(m: Machine)
    ensures Run(m, []) == Ok(m) && NoSpace([]) == []
  {
  }

  lemma RunFirst(m: Machine, tokens: seq<Token>)
    requires tokens != [] && Run(m, tokens).Ok?
    ensures Step(m, tokens[0]).Ok? && Run(m, tokens) == Run(Step(m, tokens[0]).value, tokens[1..])
    ensures NoSpace(tokens) == if tokens[0] == Space then NoSpace(tokens[1..]) else [tokens[0]] + NoSpace(tokens[1..])
  {
    hide Step;
  }

  lemma {:induction false} RunConsumes(m: Machine, tokens: seq<Token>)
    requires Good(m) && Run(m, tokens).Ok?
    ensures var m' := Run(m, tokens).value; Good(m') && Consumed(m') == Consumed(m) + NoSpace(tokens)
    decreases |tokens|
  {
    hide Step, Good, Consumed, Run, NoSpace;
    if tokens == [] {
      RunNothing(m);
      assert Consumed(m) + [] == Consumed(m);
    } else {
      var t := tokens[0];
      RunFirst(m, tokens);
      if t == Space {
        SpaceIsSkipped(m);
        RunConsumes(m, tokens[1..]);
      } else {
        StepConsumes(m, t);
        RunConsumes(Step(m, t).value, tokens[1..]);
        assert Consumed(m) + [t] + NoSpace(tokens[1..]) == Consumed(m) + ([t] + NoSpace(tokens[1..]));
      }
    }
  }

  lemma SpaceIsSkipped(m: Machine)
    ensures Step(m, Space) == Ok(m)
  {
  }

  lemma {:induction false} RunNoSpace(m: Machine, tokens: seq<Token>)
    ensures Run(m, tokens) == Run(m, NoSpace(tokens))
    decreases |tokens|
  {
    hide Step;
    if tokens != [] {
      var rest := NoSpace(tokens[1..]);
      if tokens[0] == Space {
        SpaceIsSkipped(m);
        assert NoSpace(tokens) == rest;
        RunNoSpace(m, tokens[1..]);
      } else {
        assert NoSpace(tokens)[1..] == rest;
        match Step(m, tokens[0])
        case Ok(m') => RunNoSpace(m', tokens[1..]);
        case Err(_) =>
      }
    }
  }

  /**
   A declaration is accepted with a name and a content model exactly if it is, white space aside, the
   printing of them.  So no two models print alike, and groups that mix `,` and `|` are rejected.
   */
  lemma AcceptedIsPrinted(tokens: seq<Token>, name: string, c: Content)
    ensures Run(START, tokens) == Ok(Machine(Declared, name, [], c))
       <==> NoSpace(tokens) == PrintDeclaration(name, c) && ValidContent(c)
    ensures Run(START, tokens).Ok? && Run(START, tokens).value.handler == Declared ==>
      Run(START, tokens).value.open == []
  {
    hide Run, PrintDeclaration, ValidContent;
    if Run(START, tokens).Ok? {
      RunConsumes(START, tokens);
    }
    if NoSpace(tokens) == PrintDeclaration(name, c) && ValidContent(c) {
      RunNoSpace(START, tokens);
      DeclarationIsRead(name, c);
    }
  }
}
