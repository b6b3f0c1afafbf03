/**
 The buffers of open tags: the name of a tag, its terminator, and behind it a copy of its raw name once
 the parse buffer is about to move.  A buffer that is too small moves, and what points into it is repaired.
 */
module TagBuffers {
  import opened Encodings
  import opened Errors
  import StringPools

  const INIT_TAG_BUF_SIZE := 32

  type Address = nat

  /** Where a name is: in the parse buffer, in a buffer of a tag, or in that of a namespace binding. */
  datatype Pointer = InInput(at: nat) | InTagBuf(buf: Address, at: nat) | InUri(address: nat)

  /** `TAG`; `buf` is the address of its buffer, and `bufEnd` is where that ends. */
  datatype Tag = Tag(buf: Address, str: Pointer, strLen: nat, localPart: Option<Pointer>, rawName: Pointer,
                     rawNameLength: nat)

  /** The buffers there are, the address of the next one, and those of the tags on `freeTagList`. */
  datatype Memory = Memory(bufs: map<Address, Bytes>, next: Address, free: seq<Address>)

  const NO_MEMORY := Memory(map[], 0, [])

  // ----- what the pointers of a tag say -----

  /** What a pointer to the name of a tag points to, up to the terminator. */
  function Text(m: Memory, tag: Tag, p: Pointer): Bytes {
    if p.InTagBuf? && p.buf in m.bufs && p.at <= tag.strLen <= |m.bufs[p.buf]| then m.bufs[p.buf][p.at..tag.strLen]
    else []
  }

  /** The name in the buffer of a tag. */
  function NameText(m: Memory, tag: Tag): Bytes { Text(m, tag, InTagBuf(tag.buf, 0)) }

  /** The raw name of a tag, wherever it is. */
  function RawText(mem: Bytes, m: Memory, tag: Tag): Bytes {
    match tag.rawName
    case InInput(at) => if at + tag.rawNameLength <= |mem| then mem[at..at + tag.rawNameLength] else []
    case InTagBuf(buf, at) =>
      if buf in m.bufs && at + tag.rawNameLength <= |m.bufs[buf]| then m.bufs[buf][at..at + tag.rawNameLength] else []
    case InUri(_) => []
  }

  /** The place of the raw name behind the name. */
  function RawNameBuf(tag: Tag): Pointer { InTagBuf(tag.buf, tag.strLen + 1) }

  predicate IsStored(tag: Tag) { tag.rawName == RawNameBuf(tag) }

  /** Name and terminator are in the buffer; `str` and `localPart` point to the name, if they point into a tag. */
  predicate TagOk(mem: Bytes, m: Memory, tag: Tag) {
    && tag.buf in m.bufs && tag.strLen < |m.bufs[tag.buf]| && m.bufs[tag.buf][tag.strLen] == 0
    && (tag.str.InTagBuf? ==> tag.str == InTagBuf(tag.buf, 0))
    && (tag.localPart.Some?
        ==> tag.localPart.value.InTagBuf? && tag.localPart.value.buf == tag.buf && tag.localPart.value.at <= tag.strLen)
    && match tag.rawName
       case InInput(at) => at + tag.rawNameLength <= |mem|
       case InTagBuf(_, _) => IsStored(tag) && tag.strLen + 1 + tag.rawNameLength <= |m.bufs[tag.buf]|
       case InUri(_) => false
  }

  /** Every tag, open or free, has a buffer of its own. */
  predicate Apart(m: Memory, tags: seq<Tag>) {
    && (forall a :: a in m.bufs ==> a < m.next && m.bufs[a] != [])
    && (forall i :: 0 <= i < |m.free| ==> m.free[i] in m.bufs)
    && (forall i, j :: 0 <= i < j < |m.free| ==> m.free[i] != m.free[j])
    && (forall i :: 0 <= i < |tags| ==> tags[i].buf in m.bufs && tags[i].buf !in m.free)
    && (forall i, j :: 0 <= i < j < |tags| ==> tags[i].buf != tags[j].buf)
  }

  // ----- storing a raw name -----

  /** `realloc`: another buffer, larger, with what was in the old one, which is no more. */
  function Realloc(m: Memory, a: Address, size: nat): (r: Memory)
    requires a in m.bufs && |m.bufs[a]| <= size
    ensures r.next == m.next + 1 && r.free == m.free && m.next in r.bufs && |r.bufs[m.next]| == size
    ensures r.bufs[m.next][..|m.bufs[a]|] == m.bufs[a]
  {
    Memory((m.bufs - {a})[m.next := m.bufs[a] + seq(size - |m.bufs[a]|, _ => 0)], m.next + 1, m.free)
  }

  function Overwrite(w: Bytes, at: nat, text: Bytes): (r: Bytes)
    requires at + |text| <= |w|
    ensures |r| == |w| && r[..at] == w[..at] && r[at..at + |text|] == text
  {
    w[..at] + text + w[at + |text|..]
  }

  /** What differs between two memories: the buffer `a` may have been written, and may have moved. */
  ghost predicate OnlyMoves(m: Memory, m': Memory, a: Address, a': Address) {
    && m'.free == m.free && m.next <= m'.next && (a' == a || m.next <= a' < m'.next)
    && a' in m'.bufs && m'.bufs[a'] != [] && (forall b :: b in m'.bufs <==> b == a' || (b in m.bufs && b != a))
    && forall b :: b in m.bufs && b != a ==> m'.bufs[b] == m.bufs[b]
  }

  /** `name.str`, `name.localPart` and the name in the buffer say the same. */
  predicate SameNames(m: Memory, tag: Tag, m': Memory, tag': Tag) {
    && tag'.strLen == tag.strLen && tag'.rawNameLength == tag.rawNameLength
    && NameText(m', tag') == NameText(m, tag)
    && (if tag.str.InTagBuf? then tag'.str.InTagBuf? && Text(m', tag', tag'.str) == Text(m, tag, tag.str)
        else tag'.str == tag.str)
    && tag'.localPart.Some? == tag.localPart.Some?
    && (tag.localPart.Some? ==> Text(m', tag', tag'.localPart.value) == Text(m, tag, tag.localPart.value))
  }

  /** A buffer that is too small moves, and the pointers into it are repaired. */
  method MakeRoom(mem: Bytes, m: Memory, tag: Tag, bufSize: nat) returns (m': Memory, tag': Tag)
    requires TagOk(mem, m, tag) && !IsStored(tag) && forall b :: b in m.bufs ==> b < m.next
    ensures OnlyMoves(m, m', tag.buf, tag'.buf) && TagOk(mem, m', tag') && !IsStored(tag')
    ensures SameNames(m, tag, m', tag')
    ensures tag'.rawName == tag.rawName && bufSize <= |m'.bufs[tag'.buf]|
  {
    m', tag' := m, tag;
    if bufSize > |m.bufs[tag.buf]| {
      m' := Realloc(m, tag.buf, bufSize);
      var temp := m.next;
      if tag.str == InTagBuf(tag.buf, 0) {
        tag' := tag'.(str := InTagBuf(temp, 0));
      }
      if tag.localPart.Some? {
        tag' := tag'.(localPart := Some(InTagBuf(temp, tag.localPart.value.at)));
      }
      tag' := tag'.(buf := temp);
      assert m'.bufs[temp][..|m.bufs[tag.buf]|][..tag.strLen + 1] == m.bufs[tag.buf][..tag.strLen + 1];
      SamePrefix(m.bufs[tag.buf], m'.bufs[temp], tag.strLen);
    }
  }

  lemma SamePrefix(w: Bytes, w': Bytes, end: nat)
    requires end < |w| <= |w'| && w'[..end + 1] == w[..end + 1]
    ensures w'[end] == w[end] && forall at :: 0 <= at <= end ==> w'[at..end] == w[at..end]
  {
    assert w'[..end + 1][end] == w[..end + 1][end];
    forall at | 0 <= at <= end
      ensures w'[at..end] == w[at..end]
    {
      assert w'[at..end] == w'[..end + 1][at..end] && w[at..end] == w[..end + 1][at..end];
    }
  }

  /**
   The body of the loop of `storeRawNames`: the raw name is copied behind the name, in a larger buffer if need
   be; the pointers into the buffer follow it, and all of them say what they said.
   */
  method StoreRawName(mem: Bytes, m: Memory, tag: Tag) returns (m': Memory, tag': Tag)
    requires TagOk(mem, m, tag) && !IsStored(tag) && forall b :: b in m.bufs ==> b < m.next
    ensures OnlyMoves(m, m', tag.buf, tag'.buf) && TagOk(mem, m', tag') && IsStored(tag')
    ensures RawText(mem, m', tag') == RawText(mem, m, tag) && SameNames(m, tag, m', tag')
  {
    hide OnlyMoves;
    var nameLen := tag.strLen + 1;
    m', tag' := MakeRoom(mem, m, tag, nameLen + tag.rawNameLength);
    var rawName := RawText(mem, m, tag);
    ghost var moved, tag0 := m', tag';
    m' := m'.(bufs := m'.bufs[tag'.buf := Overwrite(m'.bufs[tag'.buf], nameLen, rawName)]);
    tag' := tag'.(rawName := RawNameBuf(tag'));
    SamePrefix(moved.bufs[tag'.buf], m'.bufs[tag'.buf], tag.strLen);
    WrittenToo(m, moved, tag.buf, tag'.buf, m'.bufs[tag'.buf]);
  }

  lemma WrittenToo(m: Memory, moved: Memory, a: Address, a': Address, w: Bytes)
    requires OnlyMoves(m, moved, a, a') && w != [] && forall b :: b in m.bufs ==> b < m.next
    ensures OnlyMoves(m, moved.(bufs := moved.bufs[a' := w]), a, a')
  {
  }

  // ----- the open tags -----

  predicate AllOk(mem: Bytes, m: Memory, tags: seq<Tag>) { forall i :: 0 <= i < |tags| ==> TagOk(mem, m, tags[i]) }

  /** The open tags, innermost last; raw names that are not yet stored are those of the innermost ones. */
  predicate TagsOk(mem: Bytes, m: Memory, tags: seq<Tag>) {
    && Apart(m, tags)
    && AllOk(mem, m, tags)
    && (forall i, j :: 0 <= i < j < |tags| && !IsStored(tags[i]) ==> !IsStored(tags[j]))
  }

  predicate AllStored(tags: seq<Tag>) { forall i :: 0 <= i < |tags| ==> IsStored(tags[i]) }

  /** All names of the tags, and their raw names, say the same. */
  predicate SayTheSame(mem: Bytes, m: Memory, tags: seq<Tag>, mem': Bytes, m': Memory, tags': seq<Tag>) {
    |tags'| == |tags| && forall i :: 0 <= i < |tags| ==>
      SameNames(m, tags[i], m', tags'[i]) && RawText(mem', m', tags'[i]) == RawText(mem, m, tags[i])
  }

  lemma Untouched(mem: Bytes, m: Memory, m': Memory, tag: Tag)
    requires TagOk(mem, m, tag) && tag.buf in m'.bufs && m'.bufs[tag.buf] == m.bufs[tag.buf]
    ensures TagOk(mem, m', tag) && SameNames(m, tag, m', tag) && RawText(mem, m', tag) == RawText(mem, m, tag)
  {
  }

  /** One tag has got its raw name stored; the others are as they were. */
  lemma OneStored(mem: Bytes, m: Memory, tags: seq<Tag>, k: nat, m': Memory, tag: Tag)
    requires Apart(m, tags) && AllOk(mem, m, tags) && k < |tags|
    requires OnlyMoves(m, m', tags[k].buf, tag.buf) && TagOk(mem, m', tag)
    requires SameNames(m, tags[k], m', tag) && RawText(mem, m', tag) == RawText(mem, m, tags[k])
    ensures Apart(m', tags[k := tag]) && SayTheSame(mem, m, tags, mem, m', tags[k := tag])
    ensures AllOk(mem, m', tags[k := tag])
  {
    hide TagOk, SameNames, RawText;
    var tags' := tags[k := tag];
    assert m'.free == m.free;
    forall i | 0 <= i < |tags|
      ensures TagOk(mem, m', tags'[i]) && SameNames(m, tags[i], m', tags'[i])
      ensures RawText(mem, m', tags'[i]) == RawText(mem, m, tags[i])
    {
      if i != k {
        Untouched(mem, m, m', tags[i]);
      }
    }
  }

  lemma SameTwice(mem: Bytes, m: Memory, tags: seq<Tag>, m1: Memory, tags1: seq<Tag>, m2: Memory, tags2: seq<Tag>)
    requires SayTheSame(mem, m, tags, mem, m1, tags1) && SayTheSame(mem, m1, tags1, mem, m2, tags2)
    ensures SayTheSame(mem, m, tags, mem, m2, tags2)
  {
    forall i | 0 <= i < |tags|
      ensures SameNames(m, tags[i], m2, tags2[i])
    {
      assert SameNames(m, tags[i], m1, tags1[i]) && SameNames(m1, tags1[i], m2, tags2[i]);
    }
  }

  lemma SayThemselves(mem: Bytes, m: Memory, tags: seq<Tag>)
    ensures SayTheSame(mem, m, tags, mem, m, tags)
  {
  }

  /** Stored names have nothing to do with the parse buffer. */
  lemma StoredAnywhere(mem: Bytes, mem': Bytes, m: Memory, tags: seq<Tag>)
    requires TagsOk(mem, m, tags) && AllStored(tags)
    ensures TagsOk(mem', m, tags) && SayTheSame(mem, m, tags, mem', m, tags)
  {
  }

  /**
   `storeRawNames`: from the innermost tag outwards, up to the first one that is stored; below it they all
   are.  Afterwards nothing points to the parse buffer, and every pointer says what it said, `name.str` and
   `name.localPart` included.
   */
  method StoreRawNames(mem: Bytes, m: Memory, tags: seq<Tag>) returns (m': Memory, tags': seq<Tag>)
    requires TagsOk(mem, m, tags)
    ensures TagsOk(mem, m', tags') && AllStored(tags') && SayTheSame(mem, m, tags, mem, m', tags')
  {
    hide OnlyMoves, Apart, TagOk, SameNames, RawText, IsStored, SayTheSame;
    m', tags' := m, tags;
    SayThemselves(mem, m, tags);
    var i := |tags|;
    while i > 0 && !IsStored(tags'[i - 1])
      invariant 0 <= i <= |tags| == |tags'| && forall j :: 0 <= j < i ==> tags'[j] == tags[j]
      invariant Apart(m', tags') && AllOk(mem, m', tags')
      invariant forall j :: i <= j < |tags| ==> IsStored(tags'[j])
      invariant SayTheSame(mem, m, tags, mem, m', tags')
    {
      AddressesBelow(m', tags');
      var before, tag := m', tags'[i - 1];
      ghost var tags0 := tags';
      m', tag := StoreRawName(mem, m', tag);
      OneStored(mem, before, tags', i - 1, m', tag);
      tags' := tags'[i - 1 := tag];
      SameTwice(mem, m, tags, before, tags0, m', tags');
      i := i - 1;
    }
    assert i > 0 ==> IsStored(tags[i - 1]);
    forall j | 0 <= j < i
      ensures IsStored(tags'[j])
    {
    }
  }

  lemma AddressesBelow(m: Memory, tags: seq<Tag>)
    requires Apart(m, tags)
    ensures forall a :: a in m.bufs ==> a < m.next
  {
  }

  // ----- opening and closing a tag -----

  /** A buffer that is not among those of `tags` or of free tags; the others are as they were. */
  predicate HasOwn(m: Memory, m': Memory, tags: seq<Tag>, buf: Address) {
    && Apart(m', tags) && buf in m'.bufs && buf !in m'.free
    && (forall i :: 0 <= i < |tags| ==> tags[i].buf != buf)
    && forall i :: 0 <= i < |tags| && tags[i].buf in m.bufs ==> m'.bufs[tags[i].buf] == m.bufs[tags[i].buf]
  }

  /** A tag from `freeTagList`, or a new one. */
  method TakeTag(m: Memory, ghost tags: seq<Tag>) returns (m': Memory, buf: Address)
    requires Apart(m, tags)
    ensures HasOwn(m, m', tags, buf)
  {
    if m.free != [] {
      buf := m.free[0];
      m' := m.(free := m.free[1..]);
    } else {
      buf := m.next;
      m' := Memory(m.bufs[buf := seq(INIT_TAG_BUF_SIZE, _ => 0)], m.next + 1, []);
    }
  }

  lemma GrownHasOwn(m: Memory, m': Memory, tags: seq<Tag>, buf: Address, size: nat)
    requires HasOwn(m, m', tags, buf) && |m'.bufs[buf]| <= size
    ensures HasOwn(m, Realloc(m', buf, size), tags, m'.next)
  {
    var m2 := Realloc(m', buf, size);
    assert forall a :: a in m2.bufs <==> a == m'.next || (a in m'.bufs && a != buf);
  }

  lemma WrittenHasOwn(m: Memory, m': Memory, tags: seq<Tag>, buf: Address, w: Bytes)
    requires HasOwn(m, m', tags, buf) && w != []
    ensures HasOwn(m, m'.(bufs := m'.bufs[buf := w]), tags, buf)
  {
  }

  /**
   The part of a start tag that has to do with its name: it is converted into the buffer of the tag, which
   is reallocated with twice its size until it is large enough; the raw name stays in the parse buffer.
   */
  method OpenTag(mem: Bytes, at: nat, len: nat, m: Memory, ghost tags: seq<Tag>) returns (m': Memory, tag: Tag)
    requires at + len <= |mem| && Apart(m, tags)
    ensures HasOwn(m, m', tags, tag.buf) && TagOk(mem, m', tag) && !IsStored(tag)
    ensures NameText(m', tag) == RawText(mem, m', tag) == mem[at..at + len]
    ensures tag.str == InTagBuf(tag.buf, 0) && tag.localPart == None && tag.rawName == InInput(at)
  {
    hide HasOwn;
    var buf, to: nat;
    m', buf := TakeTag(m, tags);
    OwnThere(m, m', tags, buf);
    to := 0;
    var rawName := mem[at..at + len];
    while true
      invariant HasOwn(m, m', tags, buf) && buf in m'.bufs && to <= len && to < |m'.bufs[buf]|
      invariant m'.bufs[buf][..to] == rawName[..to]
      decreases len - |m'.bufs[buf]|
    {
      var n := StringPools.Copied(rawName[to..], |m'.bufs[buf]| - 1 - to);
      var w := Overwrite(m'.bufs[buf], to, rawName[to..to + n]);
      WrittenHasOwn(m, m', tags, buf, w);
      assert w[..to + n] == rawName[..to + n];
      m' := m'.(bufs := m'.bufs[buf := w]);
      to := to + n;
      if to == len {
        break;
      }
      var size := 2 * |w|;
      GrownHasOwn(m, m', tags, buf, size);
      ghost var old' := m'.bufs[buf];
      var temp := m'.next;
      m' := Realloc(m', buf, size);
      buf := temp;
      assert m'.bufs[buf][..to] == m'.bufs[buf][..|old'|][..to];
    }
    var w := m'.bufs[buf][len := 0];
    WrittenHasOwn(m, m', tags, buf, w);
    m' := m'.(bufs := m'.bufs[buf := w]);
    tag := Tag(buf, InTagBuf(buf, 0), len, None, InInput(at), len);
    assert w[0..len] == rawName;
  }

  lemma OwnThere(m: Memory, m': Memory, tags: seq<Tag>, buf: Address)
    requires HasOwn(m, m', tags, buf)
    ensures buf in m'.bufs && m'.bufs[buf] != []
  {
  }

  lemma TagPushed(mem: Bytes, m: Memory, m': Memory, tags: seq<Tag>, tag: Tag)
    requires TagsOk(mem, m, tags) && HasOwn(m, m', tags, tag.buf) && TagOk(mem, m', tag) && !IsStored(tag)
    ensures TagsOk(mem, m', tags + [tag]) && SayTheSame(mem, m, tags, mem, m', tags)
  {
    hide TagOk, IsStored, SameNames, RawText;
    forall i | 0 <= i < |tags|
      ensures TagOk(mem, m', tags[i]) && SameNames(m, tags[i], m', tags[i])
      ensures RawText(mem, m', tags[i]) == RawText(mem, m, tags[i])
    {
      assert tags[i].buf in m.bufs;
      Untouched(mem, m, m', tags[i]);
    }
  }

  /** A closed tag goes to `freeTagList`, with its buffer. */
  function CloseTag(m: Memory, tag: Tag): Memory { m.(free := [tag.buf] + m.free) }

  lemma TagPopped(mem: Bytes, m: Memory, tags: seq<Tag>)
    requires TagsOk(mem, m, tags) && tags != []
    ensures var last := |tags| - 1; var m' := CloseTag(m, tags[last]);
      TagsOk(mem, m', tags[..last]) && SayTheSame(mem, m, tags[..last], mem, m', tags[..last])
  {
    hide SameNames, IsStored;
    var last := |tags| - 1;
    var m' := CloseTag(m, tags[last]);
    forall i | 0 <= i < last
      ensures SameNames(m, tags[i], m', tags[i])
    {
      Untouched(mem, m, m', tags[i]);
    }
  }
}
