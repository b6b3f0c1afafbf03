/**
 The open-addressed hash table: a power of two of slots, double hashing with an odd step, and twice
 the slots when half of them are in use.  It is a finite map from names to entries, whatever the hash.

 Bit operations with the mask of a power of two are written as division and remainder.
 */
module HashTables {

  const INIT_POWER := 6

  /** The smallest table there is has eight slots; that is one for attribute names. */
  const MIN_POWER := 3

  function Pow2(power: nat): (n: nat)
    ensures n > 0
  {
    if power == 0 then 1 else 2 * Pow2(power - 1)
  }

  lemma {:induction false} Pow2Grows(a: nat, b: nat)
    requires a <= b
    ensures Pow2(a) <= Pow2(b) && (a > 0 ==> Pow2(b) % 2 == 0) && Pow2(INIT_POWER) == 64 && Pow2(MIN_POWER) == 8
  {
    if a < b {
      Pow2Grows(a, b - 1);
    }
    assert Pow2(6) == 2 * Pow2(5) == 4 * Pow2(4) == 8 * Pow2(3) == 16 * Pow2(2) == 32 * Pow2(1);
  }

  // ----- the probe sequence -----

  /** The remainder made odd, one byte of it. */
  function OddByte(x: nat, quarter: nat): (r: nat)
    requires quarter > 0
    ensures r % 2 == 1 && r <= quarter < 4 * quarter
  {
    var second := x % quarter;
    assert second < quarter;
    (second / 2 * 2 + 1) % 256
  }

  function Probe(hash: nat, size: nat): (step: nat)
    requires size >= 8
    ensures step % 2 == 1 && step < size
  {
    OddByte(2 * (hash / size), size / 4)
  }

  /** `PROBE_STEP`: made of the bits of the hash that the index leaves out, odd, one byte wide. */
  function ProbeStep(hash: nat, power: nat): (step: nat)
    requires power >= MIN_POWER
    ensures step % 2 == 1 && step < Pow2(power)
  {
    Pow2Grows(MIN_POWER, power);
    Probe(hash, Pow2(power))
  }

  /** `step` slots down, around the table. */
  function Down(i: nat, step: nat, size: nat): (j: nat)
    requires i < size && step < size
    ensures j < size
  {
    if i < step then i + size - step else i - step
  }

  /** The slot that is looked at after `k` collisions. */
  function Slot(hash: nat, power: nat, k: nat): (i: nat)
    requires power >= MIN_POWER
    ensures i < Pow2(power)
    decreases k
  {
    if k == 0 then hash % Pow2(power) else Down(Slot(hash, power, k - 1), ProbeStep(hash, power), Pow2(power))
  }

  /** An odd number has all multiples modulo a power of two. */
  lemma {:induction false} OddReaches(step: nat, power: nat, target: int) returns (k: nat, m: int)
    requires step % 2 == 1
    ensures k < Pow2(power) && k * step - target == m * Pow2(power)
  {
    if power == 0 {
      k, m := 0, -target;
    } else {
      var half := Pow2(power - 1);
      k, m := OddReaches(step, power - 1, target);
      if m % 2 == 0 {
        m := m / 2;
        Twice(m, half);
      } else {
        Distribute(k, half, step);
        Distribute(m, step, half);
        k, m := k + half, (m + step) / 2;
        Twice(m, half);
      }
    }
  }

  lemma Twice(m: int, half: int)
    ensures (2 * m) * half == m * (2 * half)
  {
  }

  lemma Distribute(a: int, b: int, c: int)
    ensures (a + b) * c == a * c + b * c && b * c == c * b
  {
  }

  lemma {:induction false} SlotIs(hash: nat, power: nat, k: nat) returns (m: int)
    requires power >= MIN_POWER
    ensures Slot(hash, power, k) == hash % Pow2(power) - k * ProbeStep(hash, power) + m * Pow2(power)
  {
    hide ProbeStep;
    if k == 0 {
      m := 0;
    } else {
      var step, size := ProbeStep(hash, power), Pow2(power);
      m := SlotIs(hash, power, k - 1);
      assert (k - 1) * step + step == k * step;
      if Slot(hash, power, k - 1) < step {
        assert (m + 1) * size == m * size + size;
        m := m + 1;
      }
    }
  }

  lemma SameResidue(a: nat, b: nat, size: nat, m: int)
    requires a < size && b < size && a - b == m * size
    ensures a == b
  {
    if m >= 1 {
      AtLeast(m, size);
      assert false;
    } else if m <= -1 {
      AtLeast(-m, size);
      assert false;
    }
  }

  lemma AtLeast(m: int, size: nat)
    requires m >= 1
    ensures m * size >= size && (-m) * size == -(m * size)
  {
  }

  /** Probing comes to every slot. */
  lemma ProbeReaches(hash: nat, power: nat, slot: nat) returns (k: nat)
    requires power >= MIN_POWER && slot < Pow2(power)
    ensures k < Pow2(power) && Slot(hash, power, k) == slot
  {
    hide ProbeStep, Slot;
    var step, size := ProbeStep(hash, power), Pow2(power);
    var m, m' : int;
    k, m := OddReaches(step, power, hash % size - slot);
    m' := SlotIs(hash, power, k);
    assert (m' - m) * size == m' * size - m * size;
    SameResidue(Slot(hash, power, k), slot, size, m' - m);
  }

  // ----- the slots -----

  /** An entry: callers keep more in it than its name. */
  class Named<K(==)> {
    const name: K

    constructor (name: K)
      ensures this.name == name
    {
      this.name := name;
    }
  }

  function Count<K>(v: seq<Named?<K>>): (n: nat)
    ensures n <= |v|
  {
    if v == [] then 0 else Count(v[..|v| - 1]) + if v[|v| - 1] == null then 0 else 1
  }

  lemma {:induction false} CountUpdate<K>(v: seq<Named?<K>>, j: nat, e: Named<K>)
    requires j < |v| && v[j] == null
    ensures Count(v[j := e]) == Count(v) + 1
  {
    var last := |v| - 1;
    if j == last {
      assert v[j := e][..last] == v[..last];
    } else {
      CountUpdate(v[..last], j, e);
      assert v[j := e][..last] == v[..last][j := e];
    }
  }

  lemma {:induction false} FreeSlot<K>(v: seq<Named?<K>>) returns (j: nat)
    requires Count(v) < |v|
    ensures j < |v| && v[j] == null
  {
    j := |v| - 1;
    if v[j] != null {
      j := FreeSlot(v[..j]);
    }
  }

  lemma {:induction false} CountNone<K>(v: seq<Named?<K>>)
    requires forall j :: 0 <= j < |v| ==> v[j] == null
    ensures Count(v) == 0
  {
    if v != [] {
      CountNone(v[..|v| - 1]);
    }
  }

  /** The number of collisions, from the `k`th on, before a free slot or the name. */
  ghost function Search<K(!new)>(hash: K -> nat, v: seq<Named?<K>>, power: nat, name: K, k: nat): (r: nat)
    requires power >= INIT_POWER && |v| == Pow2(power)
    ensures r >= k
    decreases |v| - k
  {
    if k >= |v| then k
    else
      var e := v[Slot(hash(name), power, k)];
      if e == null || e.name == name then k else Search(hash, v, power, name, k + 1)
  }

  /** Where the search for a name ends. */
  ghost function Home<K(!new)>(hash: K -> nat, v: seq<Named?<K>>, power: nat, name: K): (j: nat)
    requires power >= INIT_POWER && |v| == Pow2(power)
    ensures j < |v|
  {
    Slot(hash(name), power, Search(hash, v, power, name, 0))
  }

  /** A search that starts at or before a free slot ends at the name or at a free slot. */
  lemma {:induction false} SearchStops<K(!new)>(hash: K -> nat, v: seq<Named?<K>>, power: nat, name: K, k: nat,
                                                free: nat)
    requires power >= INIT_POWER && |v| == Pow2(power) && k <= free < |v| && v[Slot(hash(name), power, free)] == null
    ensures var r := Search(hash, v, power, name, k);
      r <= free && (v[Slot(hash(name), power, r)] == null || v[Slot(hash(name), power, r)].name == name)
    decreases free - k
  {
    hide Slot, Pow2;
    var e := v[Slot(hash(name), power, k)];
    if e != null && e.name != name {
      SearchStops(hash, v, power, name, k + 1, free);
    }
  }

  lemma HomeStops<K(!new)>(hash: K -> nat, v: seq<Named?<K>>, power: nat, name: K)
    requires power >= INIT_POWER && |v| == Pow2(power) && Count(v) < |v|
    ensures var e := v[Home(hash, v, power, name)]; e == null || e.name == name
    ensures Search(hash, v, power, name, 0) < |v|
  {
    hide Slot, Pow2, Search, Count;
    var j := FreeSlot(v);
    var free := ProbeReaches(hash(name), power, j);
    SearchStops(hash, v, power, name, 0, free);
  }

  /** Filling a free slot only matters to searches that end there. */
  lemma {:induction false} SearchSame<K(!new)>(hash: K -> nat, v: seq<Named?<K>>, power: nat, j: nat, e: Named<K>,
                                               name: K, k: nat)
    requires power >= INIT_POWER && |v| == Pow2(power) && j < |v| && v[j] == null
    requires e.name == name || Slot(hash(name), power, Search(hash, v, power, name, k)) != j
    ensures Search(hash, v[j := e], power, name, k) == Search(hash, v, power, name, k)
    decreases |v| - k
  {
    hide Slot, Pow2;
    if k < |v| {
      var e' := v[Slot(hash(name), power, k)];
      if e' != null && e'.name != name {
        SearchSame(hash, v, power, j, e, name, k + 1);
      }
    }
  }

  /** The slots hold these entries, each where the search for its name ends. */
  ghost predicate Holds<K(!new)>(hash: K -> nat, v: seq<Named?<K>>, power: nat, entries: map<K, Named<K>>) {
    && power >= INIT_POWER && |v| == Pow2(power) && Count(v) == |entries|
    && (forall j :: 0 <= j < |v| && v[j] != null ==> v[j].name in entries && Home(hash, v, power, v[j].name) == j)
    && (forall n :: n in entries ==> v[Home(hash, v, power, n)] == entries[n] && entries[n].name == n)
  }

  /** In a table that is not full the search finds a name exactly if it is there. */
  lemma SearchFinds<K(!new)>(hash: K -> nat, v: seq<Named?<K>>, power: nat, entries: map<K, Named<K>>, name: K)
    requires Holds(hash, v, power, entries) && |entries| < |v|
    ensures v[Home(hash, v, power, name)] == if name in entries then entries[name] else null
    ensures Search(hash, v, power, name, 0) < |v|
  {
    hide Home, Pow2, Count, Search;
    HomeStops(hash, v, power, name);
  }

  /** A new entry goes where the search for its name ended. */
  lemma EntryAdded<K(!new)>(hash: K -> nat, v: seq<Named?<K>>, power: nat, entries: map<K, Named<K>>, e: Named<K>)
    requires Holds(hash, v, power, entries) && |entries| < |v| && e.name !in entries
    ensures Holds(hash, v[Home(hash, v, power, e.name) := e], power, entries[e.name := e])
  {
    hide Pow2, Count, Search, Slot;
    var j := Home(hash, v, power, e.name);
    SearchFinds(hash, v, power, entries, e.name);
    CountUpdate(v, j, e);
    var entries' := entries[e.name := e];
    assert entries'.Keys == entries.Keys + {e.name};
    forall n | n in entries'
      ensures v[j := e][Home(hash, v[j := e], power, n)] == entries'[n] && entries'[n].name == n
    {
      SearchSame(hash, v, power, j, e, n, 0);
    }
  }

  lemma EmptyHolds<K(!new)>(hash: K -> nat, v: seq<Named?<K>>, power: nat)
    requires power >= INIT_POWER && |v| == Pow2(power) && forall j :: 0 <= j < |v| ==> v[j] == null
    ensures Holds(hash, v, power, map[])
  {
    CountNone(v);
  }

  // ----- the table -----

  class HashTable<K(!new, ==)> {
    const hash: K -> nat
    var v: array<Named?<K>>
    var power: nat
    var used: nat
    /** What the table stands for. */
    ghost var entries: map<K, Named<K>>

    /** `used` counts the entries, which fill no more than half of the table. */
    ghost predicate Valid()
      reads this, v
    {
      && used == |entries|
      && (v.Length == 0 ==> entries == map[])
      && (v.Length != 0 ==> Holds(hash, v[..], power, entries) && used <= v.Length / 2)
    }

    /** `hashTableInit` */
    constructor (hash: K -> nat)
      ensures Valid() && entries == map[] && this.hash == hash && fresh(v)
    {
      this.hash := hash;
      v := new Named?<K>[0];
      power, used := 0, 0;
      entries := map[];
    }

    /** The first slot in the probe sequence that is free or holds the name. */
    method Probe(table: array<Named?<K>>, power: nat, name: K, ghost known: map<K, Named<K>>) returns (i: nat)
      requires Holds(hash, table[..], power, known) && |known| < table.Length
      ensures i == Home(hash, table[..], power, name) && i < table.Length
    {
      hide ProbeStep, Slot, Pow2, Holds;
      var h := hash(name);
      ghost var k := 0;
      SearchFinds(hash, table[..], power, known, name);
      HoldsSize(hash, table[..], power, known);
      i := h % table.Length;
      var step := 0;
      SlotZero(h, power);
      while table[i] != null && table[i].name != name
        invariant i == Slot(h, power, k) && i < table.Length == Pow2(power) && k < table.Length
        invariant Search(hash, table[..], power, name, 0) == Search(hash, table[..], power, name, k)
        invariant step == 0 || step == ProbeStep(h, power)
        decreases table.Length - k
      {
        if step == 0 { step := ProbeStep(h, power); }
        SlotNext(h, power, k);
        i := Down(i, step, table.Length);
        k := k + 1;
      }
    }

    /** The first free slot in the probe sequence of a name that is not in the table. */
    method FindFree(table: array<Named?<K>>, power: nat, name: K, ghost known: map<K, Named<K>>) returns (i: nat)
      requires Holds(hash, table[..], power, known) && |known| < table.Length && name !in known
      ensures i == Home(hash, table[..], power, name) && i < table.Length
    {
      hide ProbeStep, Slot, Pow2, Holds;
      var h := hash(name);
      ghost var k := 0;
      SearchFinds(hash, table[..], power, known, name);
      HoldsSize(hash, table[..], power, known);
      i := h % table.Length;
      var step := 0;
      SlotZero(h, power);
      while table[i] != null
        invariant i == Slot(h, power, k) && i < table.Length == Pow2(power) && k < table.Length
        invariant Search(hash, table[..], power, name, 0) == Search(hash, table[..], power, name, k)
        invariant step == 0 || step == ProbeStep(h, power)
        decreases table.Length - k
      {
        NameIsNotHere(hash, table[..], power, known, name, i);
        if step == 0 { step := ProbeStep(h, power); }
        SlotNext(h, power, k);
        i := Down(i, step, table.Length);
        k := k + 1;
      }
    }

    method FirstSlots()
      requires Valid() && v.Length == 0
      modifies this`v, this`power
      ensures Valid() && fresh(v) && v.Length == Pow2(INIT_POWER) == 64
    {
      Pow2Grows(INIT_POWER, INIT_POWER);
      power := INIT_POWER;
      v := new Named?<K>[Pow2(INIT_POWER)](_ => null);
      EmptyHolds(hash, v[..], power);
    }

    /** An entry of the old slots is put where its hash belongs among the new ones. */
    method Rehome(newV: array<Named?<K>>, newPower: nat, e: Named<K>, ghost moved: map<K, Named<K>>)
      requires Holds(hash, newV[..], newPower, moved) && |moved| < newV.Length && e.name !in moved
      modifies newV
      ensures Holds(hash, newV[..], newPower, moved[e.name := e])
    {
      hide Holds, Home;
      var j := FindFree(newV, newPower, e.name, moved);
      EntryAdded(hash, newV[..], newPower, moved, e);
      newV[j] := e;
      assert newV[..] == old(newV[..])[j := e];
    }

    /** Twice the slots. */
    method Grow()
      requires Valid() && v.Length != 0
      modifies this`v, this`power
      ensures Valid() && fresh(v) && power == old(power) + 1 && v.Length == 2 * old(v.Length)
    {
      hide Home, Holds, Count, Pow2;
      var newPower := power + 1;
      ghost var was := v[..];
      HoldsSize(hash, was, power, entries);
      PowNext(power);
      var newV := new Named?<K>[2 * v.Length](_ => null);
      ghost var moved: map<K, Named<K>> := map[];
      EmptyHolds(hash, newV[..], newPower);
      var i := 0;
      while i < v.Length
        invariant 0 <= i <= v.Length && v == old(v) && v[..] == was && fresh(newV)
        invariant Holds(hash, newV[..], newPower, moved)
        invariant MovedUpTo(hash, was, power, entries, moved, i)
      {
        MovedOne(hash, was, power, entries, moved, i);
        if v[i] != null {
          Rehome(newV, newPower, v[i], moved);
          moved := moved[v[i].name := v[i]];
        }
        i := i + 1;
      }
      MovedAll(hash, was, power, entries, moved);
      v := newV;
      power := newPower;
    }

    /** A new entry in the free slot its name leads to. */
    method Add(name: K, i: nat) returns (r: Named<K>)
      requires Valid() && name !in entries && v.Length != 0 && used < v.Length / 2
      requires i == Home(hash, v[..], power, name)
      modifies this`used, this`entries, v
      ensures Valid() && fresh(r) && r.name == name && entries == old(entries)[name := r]
    {
      hide Home, Holds;
      r := new Named(name);
      EntryAdded(hash, v[..], power, entries, r);
      v[i] := r;
      assert v[..] == old(v[..])[i := r];
      used := used + 1;
      entries := entries[name := r];
    }

    /**
     `lookup`: the entry of the name.  If there is none, a new one is made when the caller asks for
     it, and the table grows first if half of it is in use.
     */
    method Lookup(name: K, create: bool) returns (r: Named?<K>)
      requires Valid()
      modifies this`v, this`power, this`used, this`entries, v
      ensures Valid() && (v == old(v) || fresh(v))
      ensures name in old(entries) ==> r == old(entries)[name] && entries == old(entries)
      ensures name !in old(entries) && !create ==> r == null && entries == old(entries)
      ensures name !in old(entries) && create ==>
        r != null && fresh(r) && r.name == name && entries == old(entries)[name := r]
      ensures v.Length == if !create || name in old(entries) then old(v.Length)
        else if old(v.Length) == 0 then Pow2(INIT_POWER)
        else if old(used) == old(v.Length) / 2 then 2 * old(v.Length) else old(v.Length)
    {
      hide Home, Holds, Pow2;
      var i := 0;
      if v.Length == 0 {
        if !create { return null; }
        FirstSlots();
        i := FindFree(v, power, name, entries);
      } else {
        i := Probe(v, power, name, entries);
        SearchFinds(hash, v[..], power, entries, name);
        if v[i] != null { return v[i]; }
        if !create { return null; }
        HoldsSize(hash, v[..], power, entries);
        HalfOf(power);
        HalfFull(used, v.Length / 2);
        if used / (v.Length / 2) != 0 {
          Grow();
          i := FindFree(v, power, name, entries);
        }
      }
      r := Add(name, i);
    }

    /** `hashTableClear` keeps the slots. */
    method Clear()
      requires Valid()
      modifies this`used, this`entries, v
      ensures Valid() && entries == map[] && v == old(v)
    {
      hide Holds;
      if v.Length != 0 { HoldsSize(hash, v[..], power, entries); }
      var i := 0;
      while i < v.Length
        invariant 0 <= i <= v.Length && forall j :: 0 <= j < i ==> v[j] == null
      {
        v[i] := null;
        i := i + 1;
      }
      used := 0;
      entries := map[];
      if v.Length != 0 { EmptyHolds(hash, v[..], power); }
    }
  }

  lemma HoldsSize<K(!new)>(hash: K -> nat, v: seq<Named?<K>>, power: nat, entries: map<K, Named<K>>)
    requires Holds(hash, v, power, entries)
    ensures power >= INIT_POWER && |v| == Pow2(power)
  {
  }

  /** Growing has moved the entries of the first `i` slots. */
  ghost predicate MovedUpTo<K(!new)>(hash: K -> nat, v: seq<Named?<K>>, power: nat, entries: map<K, Named<K>>,
                                     moved: map<K, Named<K>>, i: nat) {
    && Holds(hash, v, power, entries)
    && (forall n :: n in moved <==> n in entries && Home(hash, v, power, n) < i)
    && (forall n :: n in moved ==> moved[n] == entries[n])
  }

  lemma MovedOne<K(!new)>(hash: K -> nat, v: seq<Named?<K>>, power: nat, entries: map<K, Named<K>>,
                          moved: map<K, Named<K>>, i: nat)
    requires MovedUpTo(hash, v, power, entries, moved, i) && i < |v|
    ensures v[i] == null ==> MovedUpTo(hash, v, power, entries, moved, i + 1)
    ensures v[i] != null ==> v[i].name !in moved && MovedUpTo(hash, v, power, entries, moved[v[i].name := v[i]], i + 1)
    ensures |moved| <= |entries|
  {
    hide Home, Count, Pow2;
    assert forall n :: n in entries && Home(hash, v, power, n) == i ==> v[i] == entries[n] && v[i].name == n;
    assert moved.Keys <= entries.Keys;
    Smaller(moved, entries);
  }

  lemma MovedAll<K(!new)>(hash: K -> nat, v: seq<Named?<K>>, power: nat, entries: map<K, Named<K>>,
                          moved: map<K, Named<K>>)
    requires MovedUpTo(hash, v, power, entries, moved, |v|)
    ensures moved == entries
  {
    assert forall n :: n in entries ==> Home(hash, v, power, n) < |v|;
  }

  lemma NameIsNotHere<K(!new)>(hash: K -> nat, v: seq<Named?<K>>, power: nat, entries: map<K, Named<K>>, name: K,
                               i: nat)
    requires Holds(hash, v, power, entries) && name !in entries && i < |v| && v[i] != null
    ensures v[i].name != name
  {
  }

  lemma PowNext(power: nat)
    ensures Pow2(power + 1) == 2 * Pow2(power)
  {
  }

  lemma HalfOf(power: nat)
    requires power >= INIT_POWER
    ensures Pow2(power) / 2 >= 32 && Pow2(power) == 2 * (Pow2(power) / 2)
  {
    Pow2Grows(INIT_POWER, power);
  }

  lemma HalfFull(used: nat, half: nat)
    requires used <= half && half > 0
    ensures used / half != 0 <==> used == half
  {
  }

  lemma Smaller<K, V>(a: map<K, V>, b: map<K, V>)
    requires a.Keys <= b.Keys
    ensures |a| <= |b|
  {
    var rest := b.Keys - a.Keys;
    assert b.Keys == a.Keys + rest;
  }

  lemma SlotZero(hash: nat, power: nat)
    requires power >= MIN_POWER
    ensures Slot(hash, power, 0) == hash % Pow2(power)
  {
  }

  lemma SlotNext(hash: nat, power: nat, k: nat)
    requires power >= MIN_POWER
    ensures Slot(hash, power, k + 1) == Down(Slot(hash, power, k), ProbeStep(hash, power), Pow2(power))
  {
  }
}
