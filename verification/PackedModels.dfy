/**
 The content model as the application gets it: one block of cells, the children of each cell next to
 each other, followed by the characters of all names.  The block is filled exactly.
 */
module PackedModels {
  import opened Errors
  import opened ContentModels
  import opened Scaffolds

  /** `XML_Content`; `name` and `children` are places in the block. */
  datatype Cell = Cell(ctype: ContentType, quant: Quant, name: Option<nat>, numchildren: nat, children: Option<nat>)

  const NO_CELL := Cell(EmptyType, NoQuant, None, 0, None)

  /** What a reader of the block finds at a cell, following its pointers. */
  ghost predicate Denotes(cells: seq<Cell>, chars: string, at: nat, t: Tree)
    decreases t
  {
    && at < |cells| && cells[at].quant == t.quant
    && match t
       case Leaf(name, _) =>
         && cells[at].ctype == NameType && cells[at].numchildren == 0 && cells[at].children == None
         && cells[at].name.Some? && IsStringAt(chars, cells[at].name.value, name)
       case Group(kind, _, children) =>
         && cells[at].ctype == TypeOf(kind) && cells[at].numchildren == |children| && cells[at].name == None
         && cells[at].children.Some?
         && forall i :: 0 <= i < |children| ==> Denotes(cells, chars, cells[at].children.value + i, children[i])
  }

  predicate IsStringAt(chars: string, p: nat, name: string) {
    p + |name| < |chars| && chars[p..p + |name|] == name && chars[p + |name|] == '\0'
  }

  /** No name holds its own terminator. */
  predicate Terminable(t: Tree)
    decreases t
  {
    if t.Leaf? then '\0' !in t.name else forall i :: 0 <= i < |t.children| ==> Terminable(t.children[i])
  }

  lemma Longer(chars: string, p: nat, a: string, b: string)
    requires IsStringAt(chars, p, a) && IsStringAt(chars, p, b) && |a| < |b|
    ensures '\0' in b
  {
    assert chars[p..p + |b|][|a|] == b[|a|];
  }

  lemma OneString(chars: string, p: nat, a: string, b: string)
    requires IsStringAt(chars, p, a) && IsStringAt(chars, p, b) && '\0' !in a && '\0' !in b
    ensures a == b
  {
    if |a| < |b| {
      Longer(chars, p, a, b);
    } else if |b| < |a| {
      Longer(chars, p, b, a);
    }
  }

  /** A block can be read as one tree only. */
  lemma {:induction false} DenotesOne(cells: seq<Cell>, chars: string, at: nat, t: Tree, u: Tree)
    requires Denotes(cells, chars, at, t) && Denotes(cells, chars, at, u) && Terminable(t) && Terminable(u)
    ensures t == u
    decreases t
  {
    match t
    case Leaf(name, _) =>
      OneString(chars, cells[at].name.value, name, u.name);
    case Group(_, _, children) =>
      forall i | 0 <= i < |children|
        ensures children[i] == u.children[i]
      {
        DenotesOne(cells, chars, cells[at].children.value + i, children[i], u.children[i]);
      }
      assert children == u.children;
  }

  // ----- where everything goes -----

  /** The cells that the descendants of the first `n` children take. */
  function Below(children: seq<Tree>, n: nat): nat
    requires n <= |children|
  {
    SizeOf(children, n) - n
  }

  /** The tree at cell `at`, its descendants in the cells from `cpos` on and its names from `spos` on. */
  ghost predicate Built(cells: seq<Cell>, chars: string, at: nat, cpos: nat, spos: nat, t: Tree)
    decreases t, 0
  {
    && at < |cells| && cpos + Size(t) - 1 <= |cells| && spos + Chars(t) <= |chars|
    && match t
       case Leaf(name, quant) => cells[at] == Cell(NameType, quant, Some(spos), 0, None)
         && IsStringAt(chars, spos, name)
       case Group(kind, quant, children) =>
         && cells[at] == Cell(TypeOf(kind), quant, None, |children|, Some(cpos))
         && forall i :: 0 <= i < |children| ==> ChildBuilt(cells, chars, cpos, spos, children, i)
  }

  ghost predicate ChildBuilt(cells: seq<Cell>, chars: string, cpos: nat, spos: nat, children: seq<Tree>, i: nat)
    requires i < |children|
    decreases children, 0
  {
    Built(cells, chars, cpos + i, cpos + |children| + Below(children, i), spos + CharsOf(children, i), children[i])
  }

  lemma {:induction false} BuiltDenotes(cells: seq<Cell>, chars: string, at: nat, cpos: nat, spos: nat, t: Tree)
    requires Built(cells, chars, at, cpos, spos, t)
    ensures Denotes(cells, chars, at, t)
    decreases t
  {
    if t.Group? {
      forall i | 0 <= i < |t.children|
        ensures Denotes(cells, chars, cpos + i, t.children[i])
      {
        assert ChildBuilt(cells, chars, cpos, spos, t.children, i);
        BuiltDenotes(cells, chars, cpos + i, cpos + |t.children| + Below(t.children, i), spos + CharsOf(t.children, i),
                     t.children[i]);
      }
    }
  }

  /** A tree that is built stays while other cells and characters are written. */
  lemma {:induction false} BuiltStill(cells: seq<Cell>, cells': seq<Cell>, chars: string, chars': string, at: nat,
                                      cpos: nat, spos: nat, t: Tree)
    requires Built(cells, chars, at, cpos, spos, t) && |cells'| == |cells| && |chars'| == |chars|
    requires cells'[at] == cells[at] && forall c :: cpos <= c < cpos + Size(t) - 1 ==> cells'[c] == cells[c]
    requires forall c :: spos <= c < spos + Chars(t) ==> chars'[c] == chars[c]
    ensures Built(cells', chars', at, cpos, spos, t)
    decreases t
  {
    match t
    case Leaf(name, _) =>
      assert chars'[spos..spos + |name|] == chars[spos..spos + |name|];
    case Group(_, _, children) =>
      forall i | 0 <= i < |children|
        ensures ChildBuilt(cells', chars', cpos, spos, children, i)
      {
        assert ChildBuilt(cells, chars, cpos, spos, children, i);
        Room(children, i);
        BuiltStill(cells, cells', chars, chars', cpos + i, cpos + |children| + Below(children, i),
                   spos + CharsOf(children, i), children[i]);
      }
  }

  /** The room of each child is within that of its parent. */
  lemma Room(children: seq<Tree>, i: nat)
    requires i < |children|
    ensures Below(children, i) + Size(children[i]) - 1 == Below(children, i + 1) <= Below(children, |children|)
    ensures CharsOf(children, i) + Chars(children[i]) == CharsOf(children, i + 1) <= CharsOf(children, |children|)
  {
    SizeGrows(children, i, |children|);
    SizeLeft(children, i + 1, |children|);
  }

  lemma {:induction false} SizeLeft(children: seq<Tree>, i: nat, n: nat)
    requires i <= n <= |children|
    ensures SizeOf(children, n) - SizeOf(children, i) >= n - i
    decreases n
  {
    if i < n {
      SizeLeft(children, i, n - 1);
    }
  }

  // ----- building -----

  /** One more write to the cell `dest` and to `n` cells from `cpos` on. */
  ghost predicate WrittenOnce(before: seq<nat>, after: seq<nat>, dest: nat, cpos: nat, n: nat) {
    |after| == |before|
    && forall c :: 0 <= c < |before| ==> after[c] == before[c] + if c == dest || cpos <= c < cpos + n then 1 else 0
  }

  /** The same while children are written: `i` of the `n` cells from `cpos` on, and those behind them up to `cend`. */
  ghost predicate WrittenSoFar(before: seq<nat>, after: seq<nat>, dest: nat, cpos: nat, i: nat, n: nat, cend: nat) {
    |after| == |before| && forall c :: 0 <= c < |before| ==>
      after[c] == before[c] + if c == dest || cpos <= c < cpos + i || cpos + n <= c < cend then 1 else 0
  }

  lemma NextWritten(before: seq<nat>, after: seq<nat>, after': seq<nat>, dest: nat, cpos: nat, i: nat, n: nat,
                    cend: nat, size: nat)
    requires WrittenSoFar(before, after, dest, cpos, i, n, cend) && dest < cpos && i < n && cpos + n <= cend
    requires WrittenOnce(after, after', cpos + i, cend, size)
    ensures WrittenSoFar(before, after', dest, cpos, i + 1, n, cend + size)
  {
  }

  lemma FirstWritten(before: seq<nat>, dest: nat, cpos: nat, n: nat)
    requires dest < |before|
    ensures WrittenSoFar(before, before[dest := before[dest] + 1], dest, cpos, 0, n, cpos + n)
  {
  }

  lemma AllWritten(before: seq<nat>, after: seq<nat>, dest: nat, cpos: nat, n: nat, cend: nat)
    requires WrittenSoFar(before, after, dest, cpos, n, n, cend) && cpos + n <= cend
    ensures WrittenOnce(before, after, dest, cpos, cend - cpos)
  {
  }

  /** The other cells are as they were. */
  ghost predicate SameSoFar(was: seq<Cell>, now: seq<Cell>, dest: nat, cpos: nat, i: nat, n: nat, cend: nat) {
    |now| == |was| && forall c :: 0 <= c < |was| ==>
      now[c] == was[c] || c == dest || cpos <= c < cpos + i || cpos + n <= c < cend
  }

  lemma NextSame(was: seq<Cell>, now: seq<Cell>, now': seq<Cell>, dest: nat, cpos: nat, i: nat, n: nat, cend: nat,
                 cend': nat)
    requires SameSoFar(was, now, dest, cpos, i, n, cend) && i < n && cpos + n <= cend <= cend' && |now'| == |now|
    requires forall c :: 0 <= c < |now| && c != cpos + i && !(cend <= c < cend') ==> now'[c] == now[c]
    ensures SameSoFar(was, now', dest, cpos, i + 1, n, cend')
  {
  }

  lemma FirstSame(was: seq<Cell>, now: seq<Cell>, dest: nat, cpos: nat, n: nat)
    requires dest < |was| == |now| && now == was[dest := now[dest]]
    ensures SameSoFar(was, now, dest, cpos, 0, n, cpos + n)
  {
  }

  lemma AllSame(was: seq<Cell>, now: seq<Cell>, dest: nat, cpos: nat, n: nat, cend: nat)
    requires SameSoFar(was, now, dest, cpos, n, n, cend) && cpos + n <= cend
    ensures |now| == |was| && forall c :: 0 <= c < |was| && c != dest && !(cpos <= c < cend) ==> now[c] == was[c]
  {
  }

  /** Copies a name and its terminator. */
  method CopyName(name: string, chars: array<char>, strpos: nat) returns (end: nat)
    requires strpos + |name| + 1 <= chars.Length
    modifies chars
    ensures end == strpos + |name| + 1 && IsStringAt(chars[..], strpos, name)
    ensures forall c :: 0 <= c < chars.Length && !(strpos <= c < end) ==> chars[c] == old(chars[c])
  {
    var i := 0;
    end := strpos;
    while i < |name|
      invariant 0 <= i <= |name| && end == strpos + i
      invariant chars[strpos..end] == name[..i]
      invariant forall c :: 0 <= c < chars.Length && !(strpos <= c < end) ==> chars[c] == old(chars[c])
    {
      chars[end] := name[i];
      assert chars[strpos..end + 1] == chars[strpos..end] + [name[i]];
      end := end + 1;
      i := i + 1;
    }
    chars[end] := '\0';
    end := end + 1;
    assert chars[..][strpos..strpos + |name|] == chars[strpos..strpos + |name|] == name;
  }

  /** `build_node`: the particle at `src` of the scaffold becomes the cell `dest`. */
  method BuildNode(scaffold: array<Scaffold>, src: nat, dest: nat, cells: array<Cell>, chars: array<char>,
                   contpos: nat, strpos: nat, ghost t: Tree, ghost before: seq<nat>)
    returns (cend: nat, send: nat, ghost after: seq<nat>)
    requires Holds(scaffold[..], src, t)
    requires dest < contpos && contpos + Size(t) - 1 <= cells.Length && dest < cells.Length
    requires strpos + Chars(t) <= chars.Length && |before| == cells.Length
    modifies cells, chars
    ensures Built(cells[..], chars[..], dest, contpos, strpos, t)
    ensures cend == contpos + Size(t) - 1 && send == strpos + Chars(t)
    ensures WrittenOnce(before, after, dest, contpos, Size(t) - 1)
    ensures forall c :: 0 <= c < cells.Length && c != dest && !(contpos <= c < cend) ==> cells[c] == old(cells[c])
    ensures forall c :: 0 <= c < chars.Length && !(strpos <= c < send) ==> chars[c] == old(chars[c])
    decreases t
  {
    hide Built, Holds, SizeOf, CharsOf, ChildBuilt, WrittenSoFar, SameSoFar;
    HoldsThere(scaffold[..], src, t);
    ghost var all := cells[..];
    var s := scaffold[src];
    after := before[dest := before[dest] + 1];
    if s.ctype == NameType {
      cells[dest] := Cell(s.ctype, s.quant, Some(strpos), 0, None);
      send := CopyName(s.name, chars, strpos);
      cend := contpos;
      FirstWritten(before, dest, contpos, 0);
      AllWritten(before, after, dest, contpos, 0, contpos);
      LeafBuilt(cells[..], chars[..], dest, contpos, strpos, t);
    } else {
      cells[dest] := Cell(s.ctype, s.quant, None, s.childcnt, Some(contpos));
      cend, send := contpos + s.childcnt, strpos;
      ghost var children := t.children;
      NoChildren(children);
      GroupRoom(t);
      FirstWritten(before, dest, contpos, |children|);
      FirstSame(all, cells[..], dest, contpos, |children|);
      var i, cn := 0, s.firstchild;
      while i < s.childcnt
        invariant 0 <= i <= s.childcnt
        invariant i < s.childcnt ==> cn == Pos(src, children, i)
        invariant cend == contpos + |children| + Below(children, i) && send == strpos + CharsOf(children, i)
        invariant cells[dest] == Cell(s.ctype, s.quant, None, s.childcnt, Some(contpos))
        invariant forall j :: 0 <= j < i ==> ChildBuilt(cells[..], chars[..], contpos, strpos, children, j)
        invariant WrittenSoFar(before, after, dest, contpos, i, |children|, cend) && |after| == |before|
        invariant SameSoFar(all, cells[..], dest, contpos, i, |children|, cend)
        invariant forall c :: 0 <= c < chars.Length && !(strpos <= c < send) ==> chars[c] == old(chars[c])
      {
        HoldsChild(scaffold[..], src, t, i);
        Room(children, i);
        ghost var was, wasChars := cells[..], chars[..];
        ghost var wasAfter, wasEnd := after, cend;
        cend, send, after := BuildNode(scaffold, cn, contpos + i, cells, chars, cend, send, children[i], after);
        NextSame(all, was, cells[..], dest, contpos, i, |children|, wasEnd, cend);
        NextWritten(before, wasAfter, after, dest, contpos, i, |children|, wasEnd, cend - wasEnd);
        ChildrenStay(was, cells[..], wasChars, chars[..], contpos, strpos, children, i);
        IsChild(cells[..], chars[..], contpos, strpos, children, i);
        cn := scaffold[cn].nextsib;
        i := i + 1;
      }
      GroupBuilt(cells[..], chars[..], dest, contpos, strpos, t);
      AllWritten(before, after, dest, contpos, |children|, cend);
      AllSame(all, cells[..], dest, contpos, |children|, cend);
    }
  }

  /** The cell of a particle. */
  lemma HoldsThere(s: seq<Scaffold>, at: nat, t: Tree)
    requires Holds(s, at, t)
    ensures at < |s| && s[at].quant == t.quant && (s[at].ctype == NameType <==> t.Leaf?)
    ensures t.Leaf? ==> s[at].name == t.name && Size(t) == 1 && Chars(t) == |t.name| + 1
    ensures t.Group? ==> s[at].ctype == TypeOf(t.kind) && s[at].childcnt == |t.children|
    ensures t.Group? && t.children != [] ==> s[at].firstchild == Pos(at, t.children, 0)
  {
  }

  lemma HoldsChild(s: seq<Scaffold>, at: nat, t: Tree, i: nat)
    requires Holds(s, at, t) && t.Group? && i < |t.children|
    ensures var p := Pos(at, t.children, i);
      Holds(s, p, t.children[i]) && p < |s| && (i + 1 < |t.children| ==> s[p].nextsib == Pos(at, t.children, i + 1))
  {
    assert ChildHolds(s, at, t.children, i);
  }

  lemma NoChildren(children: seq<Tree>)
    ensures SizeOf(children, 0) == 0 && CharsOf(children, 0) == 0
  {
  }

  lemma GroupRoom(t: Tree)
    requires t.Group?
    ensures Size(t) == 1 + |t.children| + Below(t.children, |t.children|)
    ensures Chars(t) == CharsOf(t.children, |t.children|)
  {
  }

  lemma LeafBuilt(cells: seq<Cell>, chars: string, at: nat, cpos: nat, spos: nat, t: Tree)
    requires t.Leaf? && at < |cells| && cpos <= |cells|
    requires cells[at] == Cell(NameType, t.quant, Some(spos), 0, None) && IsStringAt(chars, spos, t.name)
    ensures Built(cells, chars, at, cpos, spos, t)
  {
  }

  lemma GroupBuilt(cells: seq<Cell>, chars: string, at: nat, cpos: nat, spos: nat, t: Tree)
    requires t.Group? && at < |cells| && cpos + Size(t) - 1 <= |cells| && spos + Chars(t) <= |chars|
    requires cells[at] == Cell(TypeOf(t.kind), t.quant, None, |t.children|, Some(cpos))
    requires forall i :: 0 <= i < |t.children| ==> ChildBuilt(cells, chars, cpos, spos, t.children, i)
    ensures Built(cells, chars, at, cpos, spos, t)
  {
  }

  lemma IsChild(cells: seq<Cell>, chars: string, cpos: nat, spos: nat, children: seq<Tree>, i: nat)
    requires i < |children|
    requires Built(cells, chars, cpos + i, cpos + |children| + Below(children, i), spos + CharsOf(children, i),
                   children[i])
    ensures ChildBuilt(cells, chars, cpos, spos, children, i)
  {
  }

  lemma BuiltFits(cells: seq<Cell>, chars: string, at: nat, cpos: nat, spos: nat, t: Tree)
    requires Built(cells, chars, at, cpos, spos, t)
    ensures at < |cells| && cpos + Size(t) - 1 <= |cells| && spos + Chars(t) <= |chars|
  {
  }

  /** The children that are built stay while the next one is. */
  lemma ChildrenStay(cells: seq<Cell>, cells': seq<Cell>, chars: string, chars': string, cpos: nat, spos: nat,
                     children: seq<Tree>, n: nat)
    requires n < |children| && |cells'| == |cells| && |chars'| == |chars|
    requires forall j :: 0 <= j < n ==> ChildBuilt(cells, chars, cpos, spos, children, j)
    requires forall c :: cpos <= c < |cells| && c != cpos + n && c < cpos + |children| + Below(children, n) ==>
      cells'[c] == cells[c]
    requires forall c :: 0 <= c < |chars| && c < spos + CharsOf(children, n) ==> chars'[c] == chars[c]
    ensures forall j :: 0 <= j < n ==> ChildBuilt(cells', chars', cpos, spos, children, j)
  {
    hide Built, SizeOf, CharsOf, Size, Chars;
    forall j | 0 <= j < n
      ensures ChildBuilt(cells', chars', cpos, spos, children, j)
    {
      assert ChildBuilt(cells, chars, cpos, spos, children, j);
      BuiltFits(cells, chars, cpos + j, cpos + |children| + Below(children, j), spos + CharsOf(children, j),
                children[j]);
      SizeGrows(children, j, n);
      Room(children, j);
      SizeLeft(children, j + 1, n);
      BuiltStill(cells, cells', chars, chars', cpos + j, cpos + |children| + Below(children, j),
                 spos + CharsOf(children, j), children[j]);
    }
  }

  /** `build_model`: a block for all particles and names, filled exactly. */
  method BuildModel(scaffold: array<Scaffold>, scaffCount: nat, contentStringLen: nat, ghost t: Tree)
    returns (cells: array<Cell>, chars: array<char>, ghost writes: seq<nat>)
    requires Holds(scaffold[..], 0, t) && scaffCount == Size(t) && contentStringLen == Chars(t)
    ensures fresh(cells) && fresh(chars) && cells.Length == Size(t) && chars.Length == Chars(t)
    ensures Built(cells[..], chars[..], 0, 1, 0, t) && Denotes(cells[..], chars[..], 0, t)
    ensures |writes| == cells.Length && forall c :: 0 <= c < |writes| ==> writes[c] == 1
  {
    hide Built, Holds;
    cells := new Cell[scaffCount](_ => NO_CELL);
    chars := new char[contentStringLen](_ => '\0');
    ghost var none := seq(scaffCount, _ => 0);
    var cend, send;
    cend, send, writes := BuildNode(scaffold, 0, 0, cells, chars, 1, 0, t, none);
    assert cend == scaffCount && send == contentStringLen;
    BuiltDenotes(cells[..], chars[..], 0, 1, 0, t);
  }
}
