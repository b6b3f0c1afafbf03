/**
 The scaffold of an element declaration: the particles read so far, as an array linked by indices.

 Parents stand before their children and particles before their later siblings, so that the array is
 the preorder of the tree; `Represents` says so of a declaration that is still being read.
 */
module Scaffolds {
  import opened Errors
  import opened ContentModels

  datatype ContentType = EmptyType | AnyType | MixedType | NameType | ChoiceType | SeqType

  /** `CONTENT_SCAFFOLD` */
  datatype Scaffold = Scaffold(ctype: ContentType, quant: Quant, name: string,
                               firstchild: nat, lastchild: nat, childcnt: nat, nextsib: nat)

  function TypeOf(kind: Kind): ContentType {
    match kind
    case Seq => SeqType
    case Choice => ChoiceType
    case Mixed => MixedType
  }

  /** The number of particles. */
  function Size(t: Tree): (n: nat)
    ensures n >= 1
    decreases t, 0
  {
    match t
    case Leaf(_, _) => 1
    case Group(_, _, children) => 1 + SizeOf(children, |children|)
  }

  function SizeOf(children: seq<Tree>, n: nat): (size: nat)
    requires n <= |children|
    ensures size >= n
    decreases children, n
  {
    if n == 0 then 0 else SizeOf(children, n - 1) + Size(children[n - 1])
  }

  /** The room the names need, each with its terminator. */
  function Chars(t: Tree): (n: nat)
    decreases t, 0
  {
    match t
    case Leaf(name, _) => |name| + 1
    case Group(_, _, children) => CharsOf(children, |children|)
  }

  function CharsOf(children: seq<Tree>, n: nat): nat
    requires n <= |children|
    decreases children, n
  {
    if n == 0 then 0 else CharsOf(children, n - 1) + Chars(children[n - 1])
  }

  lemma {:induction false} SizePrefix(a: seq<Tree>, b: seq<Tree>, n: nat)
    requires n <= |a| && a <= b
    ensures SizeOf(a, n) == SizeOf(b, n) && CharsOf(a, n) == CharsOf(b, n)
    decreases n
  {
    if n > 0 {
      SizePrefix(a, b, n - 1);
    }
  }

  lemma {:induction false} SizeGrows(children: seq<Tree>, i: nat, n: nat)
    requires i < n <= |children|
    ensures SizeOf(children, i) + Size(children[i]) <= SizeOf(children, n)
    ensures CharsOf(children, i) + Chars(children[i]) <= CharsOf(children, n)
    decreases n
  {
    if i < n - 1 {
      SizeGrows(children, i, n - 1);
    }
  }

  /** Where the `i`th child of the particle at `at` stands. */
  function Pos(at: nat, children: seq<Tree>, i: nat): (p: nat)
    requires i <= |children|
    ensures p > at
  {
    at + 1 + SizeOf(children, i)
  }

  /** The tree stands at `at`; what links its root to the next sibling is not part of it. */
  ghost predicate Holds(s: seq<Scaffold>, at: nat, t: Tree)
    decreases t, 0
  {
    && at + Size(t) <= |s|
    && match t
       case Leaf(name, quant) => s[at].ctype == NameType && s[at].quant == quant && s[at].name == name
       case Group(kind, quant, children) =>
         && s[at].ctype == TypeOf(kind) && s[at].quant == quant && s[at].childcnt == |children|
         && (children != [] ==> s[at].firstchild == at + 1)
         && ChildrenHold(s, at, children)
  }

  ghost predicate ChildrenHold(s: seq<Scaffold>, at: nat, children: seq<Tree>)
    decreases children, |children| + 1
  {
    && Pos(at, children, |children|) <= |s|
    && forall i :: 0 <= i < |children| ==> ChildHolds(s, at, children, i)
  }

  ghost predicate ChildHolds(s: seq<Scaffold>, at: nat, children: seq<Tree>, i: nat)
    requires i < |children|
    decreases children, |children|
  {
    var p := Pos(at, children, i);
    Holds(s, p, children[i]) && (i + 1 < |children| ==> s[p].nextsib == Pos(at, children, i + 1))
  }

  /** A tree stays where it is when other cells, and the link of its root, change. */
  lemma {:induction false} HoldsStill(s: seq<Scaffold>, s': seq<Scaffold>, at: nat, t: Tree)
    requires Holds(s, at, t) && at + Size(t) <= |s'|
    requires s'[at].(nextsib := s[at].nextsib) == s[at]
    requires forall i :: at < i < at + Size(t) ==> s'[i] == s[i]
    ensures Holds(s', at, t)
    decreases t, 0
  {
    if t.Group? {
      ChildrenHoldStill(s, s', at, t.children);
    }
  }

  lemma {:induction false} ChildrenHoldStill(s: seq<Scaffold>, s': seq<Scaffold>, at: nat, children: seq<Tree>)
    requires ChildrenHold(s, at, children) && Pos(at, children, |children|) <= |s'|
    requires forall i :: at < i < Pos(at, children, |children|) ==> s'[i] == s[i]
    ensures ChildrenHold(s', at, children)
    decreases children, |children|
  {
    hide Holds, SizeOf;
    forall i | 0 <= i < |children|
      ensures ChildHolds(s', at, children, i)
    {
      assert ChildHolds(s, at, children, i);
      SizeGrows(children, i, |children|);
      HoldsStill(s, s', Pos(at, children, i), children[i]);
    }
  }

  /** An open group: its children so far, and where the group within it that is open begins, if there is one. */
  ghost predicate FrameHolds(s: seq<Scaffold>, at: nat, f: Frame, inner: Option<nat>) {
    var n := |f.children|;
    var end := Pos(at, f.children, n);
    && end <= |s| && s[at].ctype == TypeOf(f.kind) && ChildrenHold(s, at, f.children)
    && s[at].childcnt == n + (if inner.Some? then 1 else 0)
    && (s[at].childcnt > 0 ==> s[at].firstchild == at + 1)
    && match inner
       case Some(next) => next == end < |s| && s[at].lastchild == end
         && (n > 0 ==> s[Pos(at, f.children, n - 1)].nextsib == end)
       case None => end == |s| && s[at].lastchild == if n == 0 then 0 else Pos(at, f.children, n - 1)
  }

  function Inner(index: seq<nat>, k: nat): Option<nat> {
    if k + 1 < |index| then Some(index[k + 1]) else None
  }

  /** The scaffold of open groups that begin at the cells of `index`. */
  ghost predicate Represents(s: seq<Scaffold>, index: seq<nat>, open: seq<Frame>) {
    && |index| == |open|
    && (open == [] ==> s == [])
    && (open != [] ==> index[0] == 0)
    && forall k :: 0 <= k < |open| ==> FrameHolds(s, index[k], open[k], Inner(index, k))
  }

  lemma InnerHoldsStill(s: seq<Scaffold>, s': seq<Scaffold>, at: nat, f: Frame, next: nat)
    requires FrameHolds(s, at, f, Some(next)) && next < |s'|
    requires forall i :: 0 <= i < next ==> s'[i] == s[i]
    ensures FrameHolds(s', at, f, Some(next))
  {
    ChildrenHoldStill(s, s', at, f.children);
    if f.children != [] { SizeGrows(f.children, |f.children| - 1, |f.children|); }
  }

  lemma FrameOf(s: seq<Scaffold>, index: seq<nat>, open: seq<Frame>, k: nat)
    requires Represents(s, index, open) && k < |open|
    ensures FrameHolds(s, index[k], open[k], Inner(index, k)) && index[k] < |s|
    ensures k + 1 < |open| ==> index[k] < index[k + 1] < |s|
  {
    hide ChildrenHold;
  }

  lemma {:induction false} IndexGrows(s: seq<Scaffold>, index: seq<nat>, open: seq<Frame>, j: nat, k: nat)
    requires Represents(s, index, open) && j < k < |open|
    ensures |index| == |open| && index[j] < index[k]
    decreases k
  {
    hide FrameHolds;
    FrameOf(s, index, open, k - 1);
    if j < k - 1 { IndexGrows(s, index, open, j, k - 1); }
  }

  /** What `NextScaffoldPart` does to the cells there are: the new one becomes the last child of `parent`. */
  function Link(s: seq<Scaffold>, parent: nat, next: nat): (s': seq<Scaffold>)
    requires parent < |s| && s[parent].lastchild < |s|
    ensures |s'| == |s|
  {
    var p := s[parent];
    var linked := if p.lastchild != 0 then s[p.lastchild := s[p.lastchild].(nextsib := next)] else s;
    linked[parent := linked[parent].(firstchild := if p.childcnt == 0 then next else p.firstchild, lastchild := next,
                                     childcnt := p.childcnt + 1)]
  }

  lemma LinkCells(s: seq<Scaffold>, at: nat, f: Frame, cell: Scaffold)
    requires FrameHolds(s, at, f, None)
    ensures var n := |f.children|;
      var last := if n == 0 then at else Pos(at, f.children, n - 1);
      var s' := Link(s, at, |s|) + [cell];
      && s[at].lastchild < |s| && at <= last < |s|
      && (forall i :: 0 <= i < |s| && i != at && i != last ==> s'[i] == s[i])
      && (n > 0 ==> s'[last] == s[last].(nextsib := |s|))
      && s'[at] == s[at].(firstchild := at + 1, lastchild := |s|, childcnt := n + 1)
      && s'[|s|] == cell
  {
    hide ChildrenHold;
    var n := |f.children|;
    if n > 0 { SizeGrows(f.children, n - 1, n); }
  }

  lemma LinkHolds(s: seq<Scaffold>, at: nat, f: Frame, cell: Scaffold)
    requires FrameHolds(s, at, f, None)
    ensures s[at].lastchild < |s|
    ensures FrameHolds(Link(s, at, |s|) + [cell], at, f, Some(|s|))
  {
    hide Holds, Link;
    LinkCells(s, at, f, cell);
    var s' := Link(s, at, |s|) + [cell];
    var n := |f.children|;
    forall i | 0 <= i < n
      ensures ChildHolds(s', at, f.children, i)
    {
      assert ChildHolds(s, at, f.children, i);
      SizeGrows(f.children, i, n);
      if i < n - 1 { SizeGrows(f.children, i, n - 1); }
      HoldsStill(s, s', Pos(at, f.children, i), f.children[i]);
    }
    assert ChildrenHold(s', at, f.children);
    assert s'[at].lastchild == |s| == Pos(at, f.children, n);
  }

  /** The group that was open within `f` is finished: it is the last child. */
  lemma ChildDone(s: seq<Scaffold>, at: nat, f: Frame, next: nat, t: Tree)
    requires FrameHolds(s, at, f, Some(next)) && Holds(s, next, t) && next + Size(t) == |s|
    ensures FrameHolds(s, at, Append(f, t), None)
  {
    hide Holds, SizeOf;
    var n := |f.children|;
    var children := f.children + [t];
    forall i | 0 <= i <= n
      ensures ChildHolds(s, at, children, i)
    {
      SizePrefix(f.children, children, i);
      if i < n {
        SizePrefix(f.children, children, i + 1);
        assert ChildHolds(s, at, f.children, i);
        if i == n - 1 { assert Pos(at, children, n) == next; }
      }
    }
    SizeSnoc(f.children, t);
    assert ChildrenHold(s, at, children);
    SizePrefix(f.children, children, n);
  }

  lemma SizeSnoc(children: seq<Tree>, t: Tree)
    ensures SizeOf(children + [t], |children| + 1) == SizeOf(children, |children|) + Size(t)
    ensures CharsOf(children + [t], |children| + 1) == CharsOf(children, |children|) + Chars(t)
  {
    hide Size, Chars;
    var all := children + [t];
    assert all[|children|] == t;
    SizePrefix(children, all, |children|);
  }

  function Last<T>(s: seq<T>): T
    requires s != []
  {
    s[|s| - 1]
  }

  lemma TopFrame(s: seq<Scaffold>, index: seq<nat>, open: seq<Frame>)
    requires Represents(s, index, open) && open != []
    ensures |index| == |open| && FrameHolds(s, Last(index), Last(open), None)
    ensures Last(index) < |s| && s[Last(index)].lastchild < |s| && (|open| == 1 ==> Last(index) == 0)
  {
    hide ChildrenHold;
    FrameOf(s, index, open, |open| - 1);
    var f := Last(open);
    if f.children != [] { SizeGrows(f.children, |f.children| - 1, |f.children|); }
  }

  /** The frames but the innermost. */
  ghost predicate OuterRepresents(s: seq<Scaffold>, index: seq<nat>, open: seq<Frame>) {
    && |index| == |open| > 0 && index[0] == 0
    && forall k :: 0 <= k < |open| - 1 ==> FrameHolds(s, index[k], open[k], Some(index[k + 1]))
  }

  /** Frames outside the innermost one do not see cells behind its first. */
  lemma OuterHold(s: seq<Scaffold>, s': seq<Scaffold>, index: seq<nat>, open: seq<Frame>)
    requires Represents(s, index, open) && open != [] && Last(index) < |s'|
    requires forall i :: 0 <= i < Last(index) ==> s'[i] == s[i]
    ensures OuterRepresents(s', index, open)
  {
    hide FrameHolds;
    var top := |open| - 1;
    forall k | 0 <= k < top
      ensures FrameHolds(s', index[k], open[k], Some(index[k + 1]))
    {
      FrameOf(s, index, open, k);
      if k + 1 < top { IndexGrows(s, index, open, k + 1, top); }
      InnerHoldsStill(s, s', index[k], open[k], index[k + 1]);
    }
  }

  lemma Innermost(s: seq<Scaffold>, index: seq<nat>, open: seq<Frame>, f: Frame)
    requires OuterRepresents(s, index, open) && FrameHolds(s, Last(index), f, None)
    ensures Represents(s, index, SetTop(open, f))
  {
    hide FrameHolds;
  }

  lemma Pushed(s: seq<Scaffold>, index: seq<nat>, open: seq<Frame>, next: nat, f: Frame)
    requires OuterRepresents(s, index, open) && FrameHolds(s, Last(index), Last(open), Some(next))
    requires FrameHolds(s, next, f, None)
    ensures Represents(s, index + [next], open + [f])
  {
    hide FrameHolds;
  }

  lemma Popped(s: seq<Scaffold>, index: seq<nat>, open: seq<Frame>, f: Frame)
    requires OuterRepresents(s, index, open) && |open| > 1 && FrameHolds(s, index[|index| - 2], f, None)
    ensures Represents(s, index[..|index| - 1], SetTop(open[..|open| - 1], f))
  {
    hide FrameHolds;
  }

  /** An element name joins the innermost group. */
  lemma LeafJoins(s: seq<Scaffold>, index: seq<nat>, open: seq<Frame>, cell: Scaffold)
    requires Represents(s, index, open) && open != [] && cell.ctype == NameType
    ensures index != [] && Last(index) < |s| && s[Last(index)].lastchild < |s|
    ensures Represents(Link(s, Last(index), |s|) + [cell], index,
                       SetTop(open, Append(Last(open), Leaf(cell.name, cell.quant))))
  {
    hide FrameHolds, Link, Represents, OuterRepresents;
    TopFrame(s, index, open);
    var at, f := Last(index), Last(open);
    LinkHolds(s, at, f, cell);
    var s' := Link(s, at, |s|) + [cell];
    var leaf := Leaf(cell.name, cell.quant);
    LinkCells(s, at, f, cell);
    assert Holds(s', |s|, leaf);
    ChildDone(s', at, f, |s|, leaf);
    OuterHold(s, s', index, open);
    Innermost(s', index, open, Append(f, leaf));
  }

  /** The first group. */
  lemma FirstOpens(cell: Scaffold)
    requires cell.ctype == SeqType && cell.childcnt == cell.lastchild == 0
    ensures Represents([cell], [0], [Frame(Unconnected, Seq, [])])
  {
  }

  /** A group is opened within the innermost one. */
  lemma GroupOpens(s: seq<Scaffold>, index: seq<nat>, open: seq<Frame>, cell: Scaffold)
    requires Represents(s, index, open) && open != []
    requires cell.ctype == SeqType && cell.childcnt == cell.lastchild == 0
    ensures index != [] && Last(index) < |s| && s[Last(index)].lastchild < |s|
    ensures Represents(Link(s, Last(index), |s|) + [cell], index + [|s|], open + [Frame(Unconnected, Seq, [])])
  {
    hide FrameHolds, Link, Represents, OuterRepresents;
    TopFrame(s, index, open);
    var at, f := Last(index), Last(open);
    LinkHolds(s, at, f, cell);
    var s' := Link(s, at, |s|) + [cell];
    LinkCells(s, at, f, cell);
    OuterHold(s, s', index, open);
    NewFrame(s', |s|);
    Pushed(s', index, open, |s|, Frame(Unconnected, Seq, []));
  }

  lemma NewFrame(s: seq<Scaffold>, at: nat)
    requires at + 1 == |s| && s[at].ctype == SeqType && s[at].childcnt == s[at].lastchild == 0
    ensures FrameHolds(s, at, Frame(Unconnected, Seq, []), None)
  {
  }

  /** The type of the innermost group is settled. */
  lemma GroupRetyped(s: seq<Scaffold>, index: seq<nat>, open: seq<Frame>, f: Frame)
    requires Represents(s, index, open) && open != [] && f.children == Last(open).children
    ensures index != [] && Last(index) < |s|
    ensures Represents(s[Last(index) := s[Last(index)].(ctype := TypeOf(f.kind))], index, SetTop(open, f))
  {
    hide Represents, ChildrenHold, OuterRepresents;
    TopFrame(s, index, open);
    var at := Last(index);
    var s' := s[at := s[at].(ctype := TypeOf(f.kind))];
    ChildrenHoldStill(s, s', at, f.children);
    if f.children != [] { SizeGrows(f.children, |f.children| - 1, |f.children|); }
    OuterHold(s, s', index, open);
    Innermost(s', index, open, f);
  }

  lemma Closed(s: seq<Scaffold>, index: seq<nat>, open: seq<Frame>, quant: Quant)
    requires Represents(s, index, open) && open != []
    ensures index != [] && Last(index) < |s|
    ensures var closed := Group(Last(open).kind, quant, Last(open).children);
      Holds(s[Last(index) := s[Last(index)].(quant := quant)], Last(index), closed) && Last(index) + Size(closed) == |s|
  {
    hide Represents, ChildrenHold;
    TopFrame(s, index, open);
    var at := Last(index);
    ChildrenHoldStill(s, s[at := s[at].(quant := quant)], at, Last(open).children);
  }

  /** The innermost group is closed: it is a child of the one around it, or the whole model. */
  lemma GroupCloses(s: seq<Scaffold>, index: seq<nat>, open: seq<Frame>, quant: Quant)
    requires Represents(s, index, open) && |open| > 1
    ensures |index| == |open| && Last(index) < |s|
    ensures var closed := Group(Last(open).kind, quant, Last(open).children);
      var outer := open[..|open| - 1];
      Represents(s[Last(index) := s[Last(index)].(quant := quant)], index[..|index| - 1],
                 SetTop(outer, Append(Last(outer), closed)))
  {
    hide Represents, FrameHolds, Holds;
    Closed(s, index, open, quant);
    TopFrame(s, index, open);
    var n := |open| - 1;
    var closed := Group(open[n].kind, quant, open[n].children);
    var s' := s[Last(index) := s[Last(index)].(quant := quant)];
    OuterHold(s, s', index, open);
    ChildDone(s', index[n - 1], open[n - 1], index[n], closed);
    Popped(s', index, open, Append(open[n - 1], closed));
  }
}
