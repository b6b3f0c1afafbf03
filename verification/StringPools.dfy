/**
 String pools: strings are built at the end of a block and stay there when they are finished.  When a
 block is full, the string that is being built moves to a larger one; finished strings never move.
 */
module StringPools {
  import opened Encodings

  const INIT_BLOCK_SIZE := 1024

  /** A finished string: its address, a place in a block, and its characters. */
  datatype Finished = Finished(block: array<Byte>, at: nat, text: Bytes)

  ghost predicate Distinct(list: seq<array<Byte>>) { forall i, j :: 0 <= i < j < |list| ==> list[i] != list[j] }

  /** The two lists of a pool: no block is on them twice, and none is empty. */
  ghost predicate Lists(blocks: seq<array<Byte>>, freeBlocks: seq<array<Byte>>) {
    && Distinct(blocks)
    && Distinct(freeBlocks)
    && (forall b :: b in blocks ==> b !in freeBlocks && b.Length > 0)
    && (forall b :: b in freeBlocks ==> b.Length > 0)
  }

  /** The finished strings are in the blocks, those of the block in use before `start`. */
  ghost predicate Kept(finished: seq<Finished>, blocks: seq<array<Byte>>, start: nat)
    reads blocks
  {
    forall f :: f in finished ==>
      f.text != [] && f.block in blocks && (f.block == blocks[0] ==> f.at + |f.text| <= start)
      && f.at + |f.text| <= f.block.Length && f.block[f.at..f.at + |f.text|] == f.text
  }

  lemma PushKeeps(finished: seq<Finished>, blocks: seq<array<Byte>>, freeBlocks: seq<array<Byte>>, start: nat,
                  block: array<Byte>)
    requires Lists(blocks, freeBlocks) && Kept(finished, blocks, start)
    requires block !in blocks && block !in freeBlocks && block.Length > 0
    ensures Lists([block] + blocks, freeBlocks) && Kept(finished, [block] + blocks, 0)
  {
    assert forall b :: b in [block] + blocks <==> b == block || b in blocks;
  }

  /** The block that is replaced has no finished string in it. */
  lemma ReplaceKeeps(finished: seq<Finished>, blocks: seq<array<Byte>>, freeBlocks: seq<array<Byte>>,
                     block: array<Byte>)
    requires Lists(blocks, freeBlocks) && blocks != [] && Kept(finished, blocks, 0)
    requires block !in blocks && block !in freeBlocks && block.Length > 0
    ensures Lists([block] + blocks[1..], freeBlocks) && Kept(finished, [block] + blocks[1..], 0)
  {
    assert forall b :: b in blocks <==> b == blocks[0] || b in blocks[1..];
    assert forall b :: b in [block] + blocks[1..] <==> b == block || b in blocks[1..];
  }

  lemma ToFree(p: seq<array<Byte>>, freeBlocks: seq<array<Byte>>)
    requires Lists(p, freeBlocks) && p != []
    ensures Lists(p[1..], [p[0]] + freeBlocks) && forall b :: b in p <==> b == p[0] || b in p[1..]
  {
    assert p[0] in p && p[0] !in p[1..];
    assert forall b :: b in p <==> b == p[0] || b in p[1..];
    assert forall b :: b in [p[0]] + freeBlocks <==> b == p[0] || b in freeBlocks;
  }

  /** A new block of `size`, with `length` characters of an old one in front. */
  method NewBlock(was: array<Byte>, from: nat, length: nat, size: nat) returns (block: array<Byte>)
    requires from + length <= was.Length && length <= size
    ensures fresh(block) && block.Length == size && block[..length] == was[from..from + length]
  {
    block := new Byte[size](_ => 0);
    forall k | 0 <= k < length {
      block[k] := was[from + k];
    }
  }

  /** How the blocks of a pool change when it grows: one more, or one replaced by a larger one. */
  ghost predicate Grown(was: set<array<Byte>>, now: set<array<Byte>>) {
    now == was
    || exists b ::
      b in now && b !in was
      && (now == was + {b} || exists c :: c in was && c.Length < b.Length && now == was - {c} + {b})
  }

  /** The part of `w` that `utf8_toUtf8` copies to an output of `room` bytes. */
  function Copied(w: Bytes, room: nat): (n: nat)
    ensures n <= |w| && n <= room && (|w| <= room ==> n == |w|)
  {
    if |w| <= room then |w| else CutBack(w, room)
  }

  function CutBack(w: Bytes, n: nat): (m: nat)
    requires n <= |w|
    ensures m <= n && (m > 0 ==> w[m - 1] / 0x40 != 2) && forall k :: m <= k < n ==> w[k] / 0x40 == 2
  {
    if n > 0 && w[n - 1] / 0x40 == 2 then CutBack(w, n - 1) else n
  }

  datatype Operation = AppendByte(c: Byte) | AppendText(w: Bytes) | FinishString | DiscardString | ClearPool

  /** What a user of a pool sees: the finished strings and the one that is being built. */
  datatype Strings = Strings(finished: seq<Bytes>, current: Bytes)

  function Texts(finished: seq<Finished>): (r: seq<Bytes>)
    ensures |r| == |finished|
  {
    seq(|finished|, i requires 0 <= i < |finished| => finished[i].text)
  }

  function Performed(op: Operation, st: Strings): Strings {
    match op
    case AppendByte(c) => st.(current := st.current + [c])
    case AppendText(w) => st.(current := st.current + w)
    case FinishString => Strings(if st.current == [] then st.finished else st.finished + [st.current], [])
    case DiscardString => st.(current := [])
    case ClearPool => Strings([], [])
  }

  function AllPerformed(ops: seq<Operation>, st: Strings): Strings {
    if ops == [] then st else Performed(ops[|ops| - 1], AllPerformed(ops[..|ops| - 1], st))
  }

  class StringPool {
    /** `blocks` and `freeBlocks`, first to last; the first of `blocks` is the one in use. */
    var blocks: seq<array<Byte>>
    var freeBlocks: seq<array<Byte>>
    /** Places in the block in use; without one they are NULL. */
    var start: nat
    var ptr: nat
    var end: nat
    ghost var finished: seq<Finished>

    ghost predicate Valid()
      reads this, blocks, freeBlocks
    {
      && Lists(blocks, freeBlocks)
      && start <= ptr <= end
      && (if blocks == [] then end == 0 else end == blocks[0].Length)
      && Kept(finished, blocks, start)
    }

    /** Every block of the pool. */
    ghost function All(): set<array<Byte>>
      reads this
    {
      (set b | b in blocks) + (set b | b in freeBlocks)
    }

    ghost function Count(): nat
      reads this
    {
      |blocks| + |freeBlocks|
    }

    /** The string that is being built. */
    ghost function Unfinished(): Bytes
      requires Valid()
      reads this, blocks, freeBlocks
    {
      if blocks == [] then [] else blocks[0][start..ptr]
    }

    /** `poolInit` */
    constructor ()
      ensures Valid() && blocks == freeBlocks == [] && finished == [] && Unfinished() == []
    {
      blocks, freeBlocks, start, ptr, end, finished := [], [], 0, 0, 0, [];
    }

    /** The first free block becomes the one in use. */
    method TakeFree()
      requires Valid() && freeBlocks != [] && end - start < freeBlocks[0].Length
      modifies this, freeBlocks[0]
      ensures Valid() && Unfinished() == old(Unfinished()) && start == 0 && end - start > old(end - start)
      ensures finished == old(finished) && blocks == [old(freeBlocks)[0]] + old(blocks)
      ensures freeBlocks == old(freeBlocks)[1..]
    {
      var block := freeBlocks[0];
      if blocks != [] {
        var was := blocks[0];
        forall k | 0 <= k < end - start {
          block[k] := was[start + k];
        }
        assert block[..ptr - start] == was[start..ptr];
      }
      ptr := ptr - start;
      start := 0;
      blocks := [block] + blocks;
      freeBlocks := freeBlocks[1..];
      end := block.Length;
    }

    /** The block in use, which has no finished string in it, is reallocated with twice the size. */
    method Reallocate()
      requires Valid() && blocks != [] && start == 0
      modifies this
      ensures Valid() && Unfinished() == old(Unfinished()) && start == 0 && end - start > old(end - start)
      ensures finished == old(finished) && blocks != [] && fresh(blocks[0])
      ensures blocks[1..] == old(blocks)[1..] && freeBlocks == old(freeBlocks)
    {
      var block := NewBlock(blocks[0], 0, end, end * 2);
      assert block[..end][..ptr] == blocks[0][..end][..ptr];
      ReplaceKeeps(finished, blocks, freeBlocks, block);
      blocks := [block] + blocks[1..];
      end := end * 2;
    }

    /** A new block; the string that is being built is copied to it. */
    method Allocate()
      requires Valid()
      modifies this
      ensures Valid() && Unfinished() == old(Unfinished()) && start == 0 && end - start > old(end - start)
      ensures finished == old(finished) && blocks != [] && fresh(blocks[0])
      ensures blocks[1..] == old(blocks) && freeBlocks == old(freeBlocks)
    {
      hide Kept, Lists;
      var blockSize := if end - start < INIT_BLOCK_SIZE then INIT_BLOCK_SIZE else (end - start) * 2;
      var block := new Byte[blockSize](_ => 0);
      if ptr != start {
        block := NewBlock(blocks[0], start, ptr - start, blockSize);
      }
      PushKeeps(finished, blocks, freeBlocks, start, block);
      ptr := ptr - start;
      start := 0;
      blocks := [block] + blocks;
      end := blockSize;
    }

    /**
     `poolGrow`: afterwards there is room, the string that is being built is as it was, finished
     strings are where they were, and no block is lost.
     */
    method Grow()
      requires Valid()
      modifies this, All()
      ensures Valid() && Unfinished() == old(Unfinished()) && finished == old(finished)
      ensures blocks != [] && ptr < end && end - ptr > old(end - ptr)
      ensures Grown(old(All()), All())
      ensures Count() >= old(Count()) && forall b :: b in All() ==> b in old(All()) || fresh(b)
    {
      if freeBlocks != [] && (blocks == [] || end - start < freeBlocks[0].Length) {
        TakeFree();
        assert All() == old(All());
      } else if blocks != [] && start == 0 {
        Reallocate();
        assert All() == old(All()) - {old(blocks[0])} + {blocks[0]};
      } else {
        Allocate();
        assert All() == old(All()) + {blocks[0]};
      }
    }

    /** `poolAppendChar` */
    method AppendChar(c: Byte)
      requires Valid()
      modifies this, All()
      ensures Valid() && Unfinished() == old(Unfinished()) + [c] && finished == old(finished)
      ensures Grown(old(All()), All())
      ensures Count() >= old(Count()) && forall b :: b in All() ==> b in old(All()) || fresh(b)
    {
      hide Kept, Lists;
      if ptr == end {
        Grow();
      }
      assert blocks[0] in All();
      Write([c]);
    }

    /** `poolFinish`: the address of the string is that of its first character. */
    method Finish() returns (at: nat)
      requires Valid()
      modifies this
      ensures Valid() && Unfinished() == [] && blocks == old(blocks) && freeBlocks == old(freeBlocks)
      ensures at == old(start)
      ensures finished
        == old(finished) + if old(Unfinished()) == [] then [] else [Finished(blocks[0], at, old(Unfinished()))]
    {
      at := start;
      finished := finished + if ptr == start then [] else [Finished(blocks[0], at, blocks[0][start..ptr])];
      start := ptr;
    }

    /** `poolDiscard` */
    method Discard()
      requires Valid()
      modifies this
      ensures Valid() && Unfinished() == [] && blocks == old(blocks) && freeBlocks == old(freeBlocks)
      ensures finished == old(finished)
    {
      ptr := start;
    }

    /** `poolClear`: every block becomes free. */
    method Clear()
      requires Valid()
      modifies this
      ensures Valid() && Unfinished() == [] && finished == [] && blocks == []
      ensures All() == old(All()) && Count() == old(Count())
    {
      if freeBlocks == [] {
        freeBlocks := blocks;
      } else {
        var p := blocks;
        while p != []
          invariant Lists(p, freeBlocks) && |p| + |freeBlocks| == old(Count())
          invariant (set b | b in p) + (set b | b in freeBlocks) == old(All())
        {
          ToFree(p, freeBlocks);
          p, freeBlocks := p[1..], [p[0]] + freeBlocks;
        }
      }
      blocks, start, ptr, end, finished := [], 0, 0, 0, [];
    }

    /** `poolAppendString`, and the loop of `poolCopyStringN` */
    method AppendString(s: Bytes)
      requires Valid()
      modifies this, All()
      ensures Valid() && Unfinished() == old(Unfinished()) + s && finished == old(finished)
      ensures Count() >= old(Count()) && forall b :: b in All() ==> b in old(All()) || fresh(b)
    {
      hide Kept, Lists, Grown;
      var n := 0;
      while n < |s|
        invariant n <= |s| && Valid() && Unfinished() == old(Unfinished()) + s[..n] && finished == old(finished)
        invariant Count() >= old(Count()) && forall b :: b in All() ==> b in old(All()) || fresh(b)
      {
        AppendChar(s[n]);
        assert s[..n + 1] == s[..n] + [s[n]];
        n := n + 1;
      }
    }

    /** `poolAppend`: the converted text may take several blocks before it fits. */
    method Append(w: Bytes)
      requires Valid()
      modifies this, All()
      ensures Valid() && Unfinished() == old(Unfinished()) + w && finished == old(finished)
      ensures Count() >= old(Count()) && forall b :: b in All() ==> b in old(All()) || fresh(b)
    {
      hide Kept, Lists, Grown;
      if blocks == [] {
        Grow();
      }
      var from: nat := 0;
      while true
        invariant from <= |w| && Valid() && blocks != [] && Unfinished() == old(Unfinished()) + w[..from]
        invariant finished == old(finished)
        invariant Count() >= old(Count()) && forall b :: b in All() ==> b in old(All()) || fresh(b)
        decreases |w| - from - (end - ptr)
      {
        var n := AppendPart(w[from..]);
        assert w[..from + n] == w[..from] + w[from..][..n];
        from := from + n;
        if from == |w| {
          break;
        }
        Grow();
      }
    }

    /** As much as fits. */
    method AppendPart(w: Bytes) returns (n: nat)
      requires Valid() && blocks != []
      modifies this`ptr, blocks[0]
      ensures n == Copied(w, old(end - ptr)) <= |w| && ptr == old(ptr) + n
      ensures Valid() && Unfinished() == old(Unfinished()) + w[..n] && All() == old(All())
    {
      hide Copied, Kept, Lists, Grown;
      n := Copied(w, end - ptr);
      Write(w[..n]);
    }

    /** The loop of `utf8_toUtf8`: bytes are copied behind the string that is being built. */
    method Write(w: Bytes)
      requires Valid() && blocks != [] && |w| <= end - ptr
      modifies this`ptr, blocks[0]
      ensures Valid() && Unfinished() == old(Unfinished()) + w && ptr == old(ptr) + |w| && All() == old(All())
    {
      var was := ptr;
      forall k | 0 <= k < |w| {
        blocks[0][was + k] := w[k];
      }
      ptr := was + |w|;
    }

    ghost function Seen(): Strings
      requires Valid()
      reads this, blocks, freeBlocks
    {
      Strings(Texts(finished), Unfinished())
    }

    method Perform(op: Operation)
      requires Valid()
      modifies this, All()
      ensures Valid() && Seen() == Performed(op, old(Seen()))
      ensures op != ClearPool ==> old(finished) <= finished
      ensures Count() >= old(Count()) && forall b :: b in All() ==> b in old(All()) || fresh(b)
    {
      hide Kept, Lists, Grown;
      match op {
        case AppendByte(c) => AppendChar(c);
        case AppendText(w) => Append(w);
        case FinishString =>
          var at := Finish();
          assert Texts(finished) == Performed(op, old(Seen())).finished;
        case DiscardString => Discard();
        case ClearPool => Clear();
      }
    }

    /**
     Over any sequence of operations the pool holds the strings it should; without a clear, what
     was finished is still there, at the same address, and the number of blocks never falls.
     */
    method PerformAll(ops: seq<Operation>)
      requires Valid()
      modifies this, All()
      ensures Valid() && Seen() == AllPerformed(ops, old(Seen()))
      ensures ClearPool !in ops ==> old(finished) <= finished && Kept(old(finished), blocks, start)
      ensures Count() >= old(Count())
    {
      var n := 0;
      while n < |ops|
        invariant n <= |ops| && Valid() && Seen() == AllPerformed(ops[..n], old(Seen()))
        invariant ClearPool !in ops[..n] ==> old(finished) <= finished
        invariant Count() >= old(Count()) && forall b :: b in All() ==> b in old(All()) || fresh(b)
      {
        Perform(ops[n]);
        assert ops[..n + 1][..n] == ops[..n] && ops[..n + 1][n] == ops[n];
        n := n + 1;
      }
      assert ops[..n] == ops;
    }
  }
}
