/**
 The names of the attributes of a tag: no name and no expanded name may be given twice.

 Names are marked while a tag is read.  Expanded names are put in a hash table whose slots are never
 cleared; a slot counts only if it carries the version of the current tag.
 */
module AttributeNames {
  import opened Errors
  import opened HashTables
  import Namespaces

  const INIT_ATTS_VERSION := 0xFFFF_FFFF

  /** What an attribute name says it is. */
  datatype Kind = Plain | Prefixed(prefix: string, local: string) | Xmlns

  /** `NS_ATT` */
  datatype Slot = Slot(version: nat, hash: nat, uriName: string)

  /** The separator and prefix that follow an expanded name if prefixes are reported. */
  datatype Format = Format(triplets: bool, separator: char)

  /** The expanded name of a prefixed attribute, and what is stored and reported for it. */
  function UriName(uris: map<string, string>, k: Kind): string
    requires k.Prefixed? && k.prefix in uris
  {
    uris[k.prefix] + k.local
  }

  function Stored(f: Format, uris: map<string, string>, k: Kind): string
    requires k.Prefixed? && k.prefix in uris
  {
    UriName(uris, k) + (if f.triplets then [f.separator] + k.prefix else "")
  }

  /** How two names are compared: equal hashes, and the new name is what the stored one begins with. */
  predicate Clash(hash: string -> nat, f: Format, uris: map<string, string>, old': Kind, new': Kind)
    requires old'.Prefixed? && old'.prefix in uris && new'.Prefixed? && new'.prefix in uris
  {
    hash(UriName(uris, old')) == hash(UriName(uris, new')) && UriName(uris, new') <= Stored(f, uris, old')
  }

  /** The first error among the first `n` attributes: a prefix that is not bound, or a clash with one before. */
  ghost function ExpansionError(hash: string -> nat, f: Format, uris: map<string, string>, kinds: seq<Kind>,
                                n: nat): Option<Error>
    requires n <= |kinds|
    decreases n
  {
    if n == 0 then None
    else if ExpansionError(hash, f, uris, kinds, n - 1).Some? then ExpansionError(hash, f, uris, kinds, n - 1)
    else if !kinds[n - 1].Prefixed? then None
    else if kinds[n - 1].prefix !in uris then Some(UnboundPrefix)
    else if ClashesBefore(hash, f, uris, kinds, n - 1) then Some(DuplicateAttribute)
    else None
  }

  ghost predicate ClashesBefore(hash: string -> nat, f: Format, uris: map<string, string>, kinds: seq<Kind>, n: nat)
    requires n < |kinds| && kinds[n].Prefixed? && kinds[n].prefix in uris
  {
    exists i :: 0 <= i < n && kinds[i].Prefixed? && kinds[i].prefix in uris && Clash(hash, f, uris, kinds[i], kinds[n])
  }

  predicate AllBound(uris: map<string, string>, kinds: seq<Kind>) {
    forall i :: 0 <= i < |kinds| && kinds[i].Prefixed? ==> kinds[i].prefix in uris
  }

  /** Two attributes have the same expanded name (section 6.3 of Namespaces in XML 1.0). */
  ghost predicate SameName(uris: map<string, string>, kinds: seq<Kind>, i: nat, j: nat)
    requires AllBound(uris, kinds)
  {
    i < j < |kinds| && kinds[i].Prefixed? && kinds[j].Prefixed? && UriName(uris, kinds[i]) == UriName(uris, kinds[j])
  }

  /** Different expanded names have different hashes. */
  ghost predicate NoCollision(hash: string -> nat, uris: map<string, string>, kinds: seq<Kind>)
    requires AllBound(uris, kinds)
  {
    forall i, j ::
      && 0 <= i < j < |kinds| && kinds[i].Prefixed? && kinds[j].Prefixed?
      && hash(UriName(uris, kinds[i])) == hash(UriName(uris, kinds[j])) ==>
      UriName(uris, kinds[i]) == UriName(uris, kinds[j])
  }

  lemma {:induction false} ErrorStays(hash: string -> nat, f: Format, uris: map<string, string>, kinds: seq<Kind>,
                                      m: nat, n: nat)
    requires m <= n <= |kinds| && ExpansionError(hash, f, uris, kinds, m).Some?
    ensures ExpansionError(hash, f, uris, kinds, n) == ExpansionError(hash, f, uris, kinds, m)
    decreases n
  {
    if m < n {
      ErrorStays(hash, f, uris, kinds, m, n - 1);
    }
  }

  /** Every duplicate expanded name is an error. */
  lemma DuplicatesAreFound(hash: string -> nat, f: Format, uris: map<string, string>, kinds: seq<Kind>, i: nat, j: nat)
    requires AllBound(uris, kinds) && SameName(uris, kinds, i, j)
    ensures ExpansionError(hash, f, uris, kinds, |kinds|) == Some(DuplicateAttribute)
  {
    assert Clash(hash, f, uris, kinds[i], kinds[j]);
    assert ClashesBefore(hash, f, uris, kinds, j);
    OnlyDuplicates(hash, f, uris, kinds, j + 1);
    ErrorStays(hash, f, uris, kinds, j + 1, |kinds|);
  }

  lemma {:induction false} OnlyDuplicates(hash: string -> nat, f: Format, uris: map<string, string>, kinds: seq<Kind>,
                                          n: nat)
    requires AllBound(uris, kinds) && n <= |kinds|
    ensures ExpansionError(hash, f, uris, kinds, n) == None
      || ExpansionError(hash, f, uris, kinds, n) == Some(DuplicateAttribute)
    decreases n
  {
    if n > 0 {
      OnlyDuplicates(hash, f, uris, kinds, n - 1);
    }
  }

  /**
   A different expanded name that is taken for the one before: their hashes are equal, and the later name is
   what the earlier one begins with as it is stored, perhaps with its prefix.
   */
  ghost predicate Mistaken(hash: string -> nat, f: Format, uris: map<string, string>, old': Kind, new': Kind) {
    && old'.Prefixed? && old'.prefix in uris && new'.Prefixed? && new'.prefix in uris
    && UriName(uris, new') != UriName(uris, old')
    && hash(UriName(uris, new')) == hash(UriName(uris, old'))
    && UriName(uris, new') <= Stored(f, uris, old')
  }

  /** The attribute has the expanded name of one before it, or is mistaken for one. */
  ghost predicate IsTaken(hash: string -> nat, f: Format, uris: map<string, string>, kinds: seq<Kind>, j: nat)
    requires j < |kinds|
  {
    exists i :: 0 <= i < j && kinds[i].Prefixed? && kinds[i].prefix in uris && kinds[j].Prefixed?
      && kinds[j].prefix in uris
      && (UriName(uris, kinds[j]) == UriName(uris, kinds[i]) || Mistaken(hash, f, uris, kinds[i], kinds[j]))
  }

  /** A duplicate is reported exactly if a name is taken before any prefix is found to be unbound. */
  lemma {:induction false} ReportedIsTaken(hash: string -> nat, f: Format, uris: map<string, string>, kinds: seq<Kind>,
                                           n: nat)
    requires n <= |kinds|
    ensures ExpansionError(hash, f, uris, kinds, n) == Some(DuplicateAttribute)
       <==> exists j :: 0 <= j < n && AllBound(uris, kinds[..j + 1]) && IsTaken(hash, f, uris, kinds, j)
    ensures ExpansionError(hash, f, uris, kinds, n) in {None, Some(UnboundPrefix), Some(DuplicateAttribute)}
    ensures ExpansionError(hash, f, uris, kinds, n) == Some(UnboundPrefix) ==> !AllBound(uris, kinds[..n])
    ensures ExpansionError(hash, f, uris, kinds, n) == None ==> AllBound(uris, kinds[..n])
    decreases n
  {
    if n > 0 {
      ReportedIsTaken(hash, f, uris, kinds, n - 1);
      BoundNext(uris, kinds, n - 1);
      if kinds[n - 1].Prefixed? && kinds[n - 1].prefix in uris {
        ClashIsTaken(hash, f, uris, kinds, n - 1);
      }
      var here := AllBound(uris, kinds[..n - 1 + 1]) && IsTaken(hash, f, uris, kinds, n - 1);
      assert here ==> ExpansionError(hash, f, uris, kinds, n) == Some(DuplicateAttribute);
    }
  }

  lemma BoundNext(uris: map<string, string>, kinds: seq<Kind>, n: nat)
    requires n < |kinds|
    ensures AllBound(uris, kinds[..n + 1])
      <==> AllBound(uris, kinds[..n]) && (kinds[n].Prefixed? ==> kinds[n].prefix in uris)
  {
    assert forall i :: 0 <= i < n ==> kinds[..n + 1][i] == kinds[..n][i];
    assert kinds[..n + 1][n] == kinds[n];
  }

  lemma ClashIsTaken(hash: string -> nat, f: Format, uris: map<string, string>, kinds: seq<Kind>, n: nat)
    requires n < |kinds| && kinds[n].Prefixed? && kinds[n].prefix in uris
    ensures ClashesBefore(hash, f, uris, kinds, n) <==> IsTaken(hash, f, uris, kinds, n)
  {
    if ClashesBefore(hash, f, uris, kinds, n) {
      var i :| 0 <= i < n && kinds[i].Prefixed? && kinds[i].prefix in uris && Clash(hash, f, uris, kinds[i], kinds[n]);
      assert UriName(uris, kinds[n]) == UriName(uris, kinds[i]) || Mistaken(hash, f, uris, kinds[i], kinds[n]);
    }
    if IsTaken(hash, f, uris, kinds, n) {
      var i :| 0 <= i < n && kinds[i].Prefixed? && kinds[i].prefix in uris
        && (UriName(uris, kinds[n]) == UriName(uris, kinds[i]) || Mistaken(hash, f, uris, kinds[i], kinds[n]));
      assert Clash(hash, f, uris, kinds[i], kinds[n]);
    }
  }

  /** One bit of the exclusive or of two numbers, of value `p`. */
  function XorBit(a: nat, b: nat, p: nat): nat
    requires p > 0
  {
    (a / p + b / p) % 2 * p
  }

  function XorByte(a: nat, b: nat): nat {
    XorBit(a, b, 1) + XorBit(a, b, 2) + XorBit(a, b, 4) + XorBit(a, b, 8)
    + XorBit(a, b, 16) + XorBit(a, b, 32) + XorBit(a, b, 64) + XorBit(a, b, 128)
  }

  /** `CHAR_HASH`, with 64 bits in an `unsigned long`. */
  function CharHash(h: nat, c: char): nat {
    var m := h * 0xF4243 % 0x1_0000_0000_0000_0000;
    m / 0x100 * 0x100 + XorByte(m % 0x100, c as nat % 0x100)
  }

  function HashFrom(h: nat, name: string): nat {
    if name == "" then h else CharHash(HashFrom(h, name[..|name| - 1]), name[|name| - 1])
  }

  /** The hash of an expanded name, with its terminator. */
  function UriHash(salt: nat, name: string): nat { CharHash(HashFrom(salt, name), '\0') }

  /** A salt with which `b` does not change the hash of `u|a`. */
  const SALT: nat := 14498542727475298459

  lemma CharHashIs(h: nat, c: char, q: nat, k: nat, low: nat)
    requires h * 0xF4243 == q * 0x1_0000_0000_0000_0000 + (k * 0x100 + low)
    requires low < 0x100 && k < 0x100_0000_0000_0000 && c as nat < 0x100
    ensures CharHash(h, c) == k * 0x100 + XorByte(low, c as nat)
  {
    hide XorByte;
    var m := k * 0x100 + low;
    assert h * 0xF4243 % 0x1_0000_0000_0000_0000 == m;
    assert m / 0x100 == k && m % 0x100 == low;
  }

  lemma HashesOfNames()
    ensures HashFrom(SALT, "u|a") == HashFrom(SALT, "u|ab") == 5202432592522751249
  {
    hide CharHash;
    CharHashIs(14498542727475298459, 'u', 785969, 67305601790276638, 145);
    assert XorByte(145, 'u' as nat) == 228;
    CharHashIs(17230234058310819556, '|', 934055, 47707985231460061, 172);
    assert XorByte(172, '|' as nat) == 208;
    CharHashIs(12213244219253775824, 'a', 662083, 20322002314541997, 112);
    assert XorByte(112, 'a' as nat) == 17;
    CharHashIs(5202432592522751249, 'b', 282025, 20322002314541997, 115);
    assert XorByte(115, 'b' as nat) == 17;
    assert "u|ab"[..3] == "u|a" && "u|a"[..2] == "u|" && "u|"[..1] == "u" && "u"[..0] == "";
  }

  /** With this salt `q:a` is reported for `p:ab`, where both prefixes are bound to `u`. */
  lemma OtherNameIsFound()
    ensures var uris, kinds := map["p" := "u|", "q" := "u|"], [Prefixed("p", "ab"), Prefixed("q", "a")];
      && ExpansionError(s => UriHash(SALT, s), Format(false, '|'), uris, kinds, 2) == Some(DuplicateAttribute)
      && UriName(uris, kinds[0]) == "u|ab" && UriName(uris, kinds[1]) == "u|a"
  {
    hide HashFrom, CharHash;
    var hash: string -> nat := s => UriHash(SALT, s);
    var uris, kinds := map["p" := "u|", "q" := "u|"], [Prefixed("p", "ab"), Prefixed("q", "a")];
    assert "u|ab"[..3] == "u|a";
    HashesOfNames();
    assert UriName(uris, kinds[0]) == "u|ab" && UriName(uris, kinds[1]) == "u|a" && hash("u|ab") == hash("u|a");
    assert Clash(hash, Format(false, '|'), uris, kinds[0], kinds[1]);
    assert ClashesBefore(hash, Format(false, '|'), uris, kinds, 1);
    assert ExpansionError(hash, Format(false, '|'), uris, kinds, 1) == None;
  }

  /** So if all prefixes are bound, no name is given twice and hashes do not collide, there is no error. */
  lemma NothingElseIsFound(hash: string -> nat, f: Format, uris: map<string, string>, kinds: seq<Kind>, n: nat)
    requires AllBound(uris, kinds) && NoCollision(hash, uris, kinds) && n <= |kinds|
    requires forall i, j :: 0 <= i < j < |kinds| ==> !SameName(uris, kinds, i, j)
    ensures ExpansionError(hash, f, uris, kinds, n) == None
  {
    ReportedIsTaken(hash, f, uris, kinds, n);
    OnlyDuplicates(hash, f, uris, kinds, n);
    forall j | 0 <= j < n
      ensures !IsTaken(hash, f, uris, kinds, j)
    {
      forall i | 0 <= i < j && kinds[i].Prefixed? && kinds[j].Prefixed?
        ensures UriName(uris, kinds[j]) != UriName(uris, kinds[i]) && !Mistaken(hash, f, uris, kinds[i], kinds[j])
      {
        assert !SameName(uris, kinds, i, j);
      }
    }
  }

  // ----- the table -----

  /** The slots that carry the version. */
  function Current(slots: seq<Slot>, version: nat): (n: nat)
    ensures n <= |slots|
  {
    if slots == [] then 0
    else Current(slots[..|slots| - 1], version) + if slots[|slots| - 1].version == version then 1 else 0
  }

  lemma {:induction false} CurrentUpdate(slots: seq<Slot>, version: nat, j: nat, s: Slot)
    requires j < |slots| && slots[j].version != version && s.version == version
    ensures Current(slots[j := s], version) == Current(slots, version) + 1
  {
    var last := |slots| - 1;
    if j == last {
      assert slots[j := s][..last] == slots[..last];
    } else {
      CurrentUpdate(slots[..last], version, j, s);
      assert slots[j := s][..last] == slots[..last][j := s];
    }
  }

  lemma {:induction false} FreeOne(slots: seq<Slot>, version: nat) returns (j: nat)
    requires Current(slots, version) < |slots|
    ensures j < |slots| && slots[j].version != version
  {
    j := |slots| - 1;
    if slots[j].version == version {
      j := FreeOne(slots[..j], version);
    }
  }

  lemma {:induction false} NoneCurrent(slots: seq<Slot>, version: nat)
    requires forall j :: 0 <= j < |slots| ==> slots[j].version != version
    ensures Current(slots, version) == 0
  {
    if slots != [] {
      NoneCurrent(slots[..|slots| - 1], version);
    }
  }

  /** The slots that are looked at before the `d`th one for a hash are all in use. */
  ghost predicate Reached(slots: seq<Slot>, power: nat, version: nat, hash: nat, d: nat)
    requires power >= MIN_POWER && |slots| == Pow2(power)
  {
    forall e :: 0 <= e < d ==> slots[HashTables.Slot(hash, power, e)].version == version
  }

  /** An expanded name with this hash is in the table, where a search for it comes by. */
  ghost predicate InTable(slots: seq<Slot>, power: nat, version: nat, s: Slot)
    requires power >= MIN_POWER && |slots| == Pow2(power)
  {
    exists d: nat :: Reached(slots, power, version, s.hash, d) && slots[HashTables.Slot(s.hash, power, d)] == s
  }

  /** A search for a hash that ended at a free slot has come by every entry with that hash. */
  lemma SearchComesBy(slots: seq<Slot>, power: nat, version: nat, s: Slot, k: nat)
    requires power >= MIN_POWER && |slots| == Pow2(power)
    requires InTable(slots, power, version, s) && s.version == version
    requires slots[HashTables.Slot(s.hash, power, k)].version != version
    ensures exists d: nat :: d < k && slots[HashTables.Slot(s.hash, power, d)] == s
  {
    var d: nat :| Reached(slots, power, version, s.hash, d) && slots[HashTables.Slot(s.hash, power, d)] == s;
    assert d < k;
  }

  lemma TableGrows(slots: seq<Slot>, power: nat, version: nat, s: Slot, j: nat, t: Slot)
    requires power >= MIN_POWER && |slots| == Pow2(power) && j < |slots|
    requires slots[j].version != version && t.version == s.version == version
    requires InTable(slots, power, version, s)
    ensures InTable(slots[j := t], power, version, s)
  {
    var d: nat :| Reached(slots, power, version, s.hash, d) && slots[HashTables.Slot(s.hash, power, d)] == s;
    assert Reached(slots[j := t], power, version, s.hash, d);
  }

  /** The current slots are exactly these entries. */
  ghost predicate TableIs(slots: seq<Slot>, power: nat, version: nat, known: seq<Slot>) {
    && power >= MIN_POWER && |slots| == Pow2(power) && Current(slots, version) == |known|
    && (forall i :: 0 <= i < |known| ==> known[i].version == version && InTable(slots, power, version, known[i]))
    && (forall j :: 0 <= j < |slots| && slots[j].version == version ==> slots[j] in known)
  }

  predicate Matches(s: Slot, hash: nat, uriName: string) { s.hash == hash && uriName <= s.uriName }

  /** None of the slots that are looked at first is free or matches. */
  ghost predicate Passed(slots: seq<Slot>, power: nat, version: nat, hash: nat, uriName: string, k: nat)
    requires power >= MIN_POWER && |slots| == Pow2(power)
  {
    forall e :: 0 <= e < k ==>
      var s := slots[HashTables.Slot(hash, power, e)];
      s.version == version && !Matches(s, hash, uriName)
  }

  /** After a search has passed all slots up to a free one, no entry matches, and the name can be put there. */
  lemma EntryPut(slots: seq<Slot>, power: nat, version: nat, known: seq<Slot>, hash: nat, uriName: string,
                 stored: string, k: nat)
    requires TableIs(slots, power, version, known) && Passed(slots, power, version, hash, uriName, k)
    requires slots[HashTables.Slot(hash, power, k)].version != version
    ensures forall i :: 0 <= i < |known| ==> !Matches(known[i], hash, uriName)
    ensures TableIs(slots[HashTables.Slot(hash, power, k) := Slot(version, hash, stored)], power, version,
                    known + [Slot(version, hash, stored)])
  {
    hide HashTables.Slot, Matches, Current;
    var j, t := HashTables.Slot(hash, power, k), Slot(version, hash, stored);
    var slots' := slots[j := t];
    forall i | 0 <= i < |known|
      ensures !Matches(known[i], hash, uriName) && InTable(slots', power, version, known[i])
    {
      NotMatched(slots, power, version, known[i], hash, uriName, k);
      TableGrows(slots, power, version, known[i], j, t);
    }
    CurrentUpdate(slots, version, j, t);
    assert Reached(slots', power, version, hash, k) && slots'[HashTables.Slot(hash, power, k)] == t;
    assert InTable(slots', power, version, t);
  }

  lemma NotMatched(slots: seq<Slot>, power: nat, version: nat, s: Slot, hash: nat, uriName: string, k: nat)
    requires power >= MIN_POWER && |slots| == Pow2(power) && Passed(slots, power, version, hash, uriName, k)
    requires InTable(slots, power, version, s) && s.version == version
    requires slots[HashTables.Slot(hash, power, k)].version != version
    ensures !Matches(s, hash, uriName)
  {
    if s.hash == hash {
      SearchComesBy(slots, power, version, s, k);
    }
  }

  // ----- names of a tag -----

  /** `getAttributeId`: declarations, and names with and without a prefix. */
  function KindOf(name: string): Kind {
    if name == "xmlns" || "xmlns:" <= name then Xmlns
    else if Namespaces.Colon(name) < |name| then
      Prefixed(name[..Namespaces.Colon(name)], name[Namespaces.Colon(name) + 1..])
    else Plain
  }

  function KindsOf(names: seq<string>): (kinds: seq<Kind>)
    ensures |kinds| == |names| && forall i :: 0 <= i < |names| ==> kinds[i] == KindOf(names[i])
  {
    seq(|names|, i requires 0 <= i < |names| => KindOf(names[i]))
  }

  /** The attributes that are reported: all but declarations. */
  function Reported(names: seq<string>): (r: seq<string>)
    ensures forall n :: n in r <==> n in names && !KindOf(n).Xmlns?
  {
    if names == [] then []
    else Reported(names[..|names| - 1]) + if KindOf(names[|names| - 1]).Xmlns? then [] else [names[|names| - 1]]
  }

  predicate NamesDiffer(names: seq<string>) { forall i, j :: 0 <= i < j < |names| ==> names[i] != names[j] }

  lemma {:induction false} ReportedDiffer(names: seq<string>)
    requires NamesDiffer(names)
    ensures NamesDiffer(Reported(names))
  {
    if names != [] {
      ReportedDiffer(names[..|names| - 1]);
    }
  }

  /** The name an attribute is reported with. */
  function ReportedAs(f: Format, uris: map<string, string>, name: string): string {
    if KindOf(name).Prefixed? && KindOf(name).prefix in uris then Stored(f, uris, KindOf(name)) else name
  }

  function FlagOf(flags: map<string, nat>, name: string): nat { if name in flags then flags[name] else 0 }

  ghost predicate NoFlags(flags: map<string, nat>) { forall n :: FlagOf(flags, n) == 0 }

  function MarkOf(name: string): nat { if KindOf(name).Prefixed? then 2 else 1 }

  /** Exactly these names are marked, prefixed ones with 2. */
  ghost predicate Marked(flags: map<string, nat>, names: seq<string>) {
    forall n :: FlagOf(flags, n) == if n in names then MarkOf(n) else 0
  }

  function CountPrefixed(names: seq<string>): (n: nat)
    ensures n <= |names|
  {
    if names == [] then 0
    else CountPrefixed(names[..|names| - 1]) + if KindOf(names[|names| - 1]).Prefixed? then 1 else 0
  }

  class AttributeStore {
    const hash: string -> nat
    const format: Format
    /** The character before each attribute name, by name. */
    var flags: map<string, nat>
    var nsAtts: array<Slot>
    var nsAttsVersion: nat
    var nsAttsPower: nat

    /** No slot is older than the last version; old slots carry larger numbers. */
    ghost predicate TableOk()
      reads `nsAtts, `nsAttsVersion, `nsAttsPower, nsAtts
    {
      && nsAttsVersion <= INIT_ATTS_VERSION
      && (nsAtts.Length == 0 ==> nsAttsPower == 0 && nsAttsVersion == 0)
      && (nsAtts.Length != 0 ==> nsAttsPower >= MIN_POWER && nsAtts.Length == Pow2(nsAttsPower))
      && forall j :: 0 <= j < nsAtts.Length ==> nsAtts[j].version >= nsAttsVersion
    }

    ghost predicate Valid()
      reads this, nsAtts
    {
      TableOk() && NoFlags(flags)
    }

    constructor (hash: string -> nat, format: Format)
      ensures Valid() && this.hash == hash && this.format == format && fresh(nsAtts)
    {
      this.hash, this.format := hash, format;
      flags := map[];
      nsAtts := new Slot[0];
      nsAttsVersion, nsAttsPower := 0, 0;
    }

    /** The table for `n` prefixed names: larger if need be, and with a version that no slot carries. */
    method Prepare(n: nat)
      requires TableOk() && n > 0
      modifies `nsAtts, `nsAttsVersion, `nsAttsPower, nsAtts
      ensures TableOk() && nsAtts.Length > 2 * n && (nsAtts == old(nsAtts) || fresh(nsAtts))
      ensures TableIs(nsAtts[..], nsAttsPower, nsAttsVersion, [])
    {
      hide Pow2, Current;
      var version := nsAttsVersion;
      ShiftedOut(2 * n, Pow2(nsAttsPower));
      PowerOfNone();
      if 2 * n / Pow2(nsAttsPower) != 0 {
        GrowPower(n);
        nsAtts := new Slot[Pow2(nsAttsPower)];
        version := 0;
      }
      if version == 0 {
        version := INIT_ATTS_VERSION;
        SetVersions(version);
      }
      version := version - 1;
      nsAttsVersion := version;
      NoneCurrent(nsAtts[..], version);
    }

    method SetVersions(version: nat)
      modifies nsAtts
      ensures forall i :: 0 <= i < nsAtts.Length ==> nsAtts[i].version == version
    {
      var j := nsAtts.Length;
      while j != 0
        invariant 0 <= j <= nsAtts.Length
        invariant forall i :: j <= i < nsAtts.Length ==> nsAtts[i].version == version
      {
        j := j - 1;
        nsAtts[j] := nsAtts[j].(version := version);
      }
    }

    /** A power with more than twice the slots, eight at least. */
    method GrowPower(n: nat)
      requires n > 0
      modifies `nsAttsPower
      ensures nsAttsPower >= MIN_POWER && Pow2(nsAttsPower) > 2 * n
    {
      hide Pow2;
      var more := true;
      while more
        invariant !more ==> Pow2(nsAttsPower) > 2 * n
        decreases more, if nsAttsPower <= n then n + 1 - nsAttsPower else 0
      {
        PowerIsLarge(nsAttsPower);
        ShiftedOut(n, Pow2(nsAttsPower));
        PowNext(nsAttsPower);
        more := n / Pow2(nsAttsPower) != 0;
        nsAttsPower := nsAttsPower + 1;
      }
      if nsAttsPower < MIN_POWER {
        Pow2Grows(nsAttsPower, MIN_POWER);
        nsAttsPower := MIN_POWER;
      }
    }

    /** Puts an expanded name in the table, unless there is one it clashes with. */
    method Insert(uriName: string, stored: string, ghost known: seq<Slot>) returns (clash: bool)
      requires TableOk() && TableIs(nsAtts[..], nsAttsPower, nsAttsVersion, known) && |known| < nsAtts.Length
      modifies nsAtts
      ensures TableOk()
      ensures clash <==> exists i :: 0 <= i < |known| && Matches(known[i], hash(uriName), uriName)
      ensures !clash ==>
        TableIs(nsAtts[..], nsAttsPower, nsAttsVersion, known + [Slot(nsAttsVersion, hash(uriName), stored)])
    {
      hide Pow2, ProbeStep, HashTables.Slot, Current, TableIs, Reached;
      var h := hash(uriName);
      ghost var slots := nsAtts[..];
      ghost var k := 0;
      ghost var free := FreeProbe(slots, nsAttsPower, nsAttsVersion, known, h);
      var j := h % nsAtts.Length;
      var step := 0;
      SlotZero(h, nsAttsPower);
      while nsAtts[j].version == nsAttsVersion
        invariant nsAttsPower >= MIN_POWER && nsAtts.Length == Pow2(nsAttsPower) && nsAtts[..] == slots
        invariant j == HashTables.Slot(h, nsAttsPower, k) && j < nsAtts.Length && k <= free
        invariant Passed(slots, nsAttsPower, nsAttsVersion, h, uriName, k)
        invariant step == 0 || step == ProbeStep(h, nsAttsPower)
        decreases free - k
      {
        if h == nsAtts[j].hash {
          var same := StartsWith(uriName, nsAtts[j].uriName);
          if same {
            MatchIsKnown(slots, nsAttsPower, nsAttsVersion, known, j);
            return true;
          }
        }
        if step == 0 { step := ProbeStep(h, nsAttsPower); }
        SlotNext(h, nsAttsPower, k);
        j := Down(j, step, nsAtts.Length);
        k := k + 1;
      }
      EntryPut(slots, nsAttsPower, nsAttsVersion, known, h, uriName, stored, k);
      nsAtts[j] := Slot(nsAttsVersion, h, stored);
      assert nsAtts[..] == slots[j := Slot(nsAttsVersion, h, stored)];
      return false;
    }

    /** Compares up to the end of the new name, which has a terminator; the stored one may go on. */
    method StartsWith(s1: string, s2: string) returns (r: bool)
      ensures r == (s1 <= s2)
    {
      var i := 0;
      while i < |s1| && i < |s2| && s1[i] == s2[i]
        invariant 0 <= i <= |s1| && i <= |s2| && s1[..i] == s2[..i]
      {
        i := i + 1;
      }
      r := i == |s1|;
      if r { assert s1[..i] == s1; }
    }

    /** Marks the names of a tag; a name that is marked already is a duplicate. */
    method Mark(names: seq<string>) returns (ok: bool, apps: seq<string>, nPrefixes: nat)
      requires NoFlags(flags)
      modifies `flags
      ensures ok <==> NamesDiffer(names)
      ensures ok ==> apps == Reported(names) && nPrefixes == CountPrefixed(apps) && Marked(flags, names)
    {
      hide KindOf, NamesDiffer, Marked, Reported, CountPrefixed, MarkOf;
      NoNames(flags);
      apps, nPrefixes := [], 0;
      var i := 0;
      assert names[..0] == [];
      while i < |names|
        invariant 0 <= i <= |names| && NamesDiffer(names[..i]) && Marked(flags, names[..i])
        invariant apps == Reported(names[..i]) && nPrefixes == CountPrefixed(apps)
      {
        var name := names[i];
        NextName(names, i);
        IsMarked(flags, names[..i], name);
        if FlagOf(flags, name) != 0 { return false, apps, nPrefixes; }
        ghost var was := flags;
        flags := flags[name := 1];
        if !KindOf(name).Xmlns? {
          apps := apps + [name];
          if KindOf(name).Prefixed? {
            nPrefixes := nPrefixes + 1;
            flags := flags[name := 2];
          }
          LastPrefixed(apps);
          assert apps[..|apps| - 1] == Reported(names[..i]);
        }
        MarkedNext(was, flags, names[..i], name);
        i := i + 1;
      }
      assert names[..i] == names;
      ok := true;
    }

    /** The expanded name of one attribute. */
    method ExpandOne(kind: Kind, uris: map<string, string>, ghost known: seq<Slot>, ghost kinds: seq<Kind>,
                     ghost i: nat) returns (error: Option<Error>, full: string)
      requires TableOk() && TableIs(nsAtts[..], nsAttsPower, nsAttsVersion, known) && |known| < nsAtts.Length
      requires i < |kinds| && kinds[i] == kind && kind.Prefixed? && BoundUpTo(uris, kinds, i)
      requires known == Entries(hash, format, uris, nsAttsVersion, kinds, i)
      requires ExpansionError(hash, format, uris, kinds, i) == None
      modifies nsAtts
      ensures TableOk() && error == ExpansionError(hash, format, uris, kinds, i + 1)
      ensures error.None? ==> kind.prefix in uris && full == Stored(format, uris, kind) && BoundUpTo(uris, kinds, i + 1)
      ensures error.None? ==>
        TableIs(nsAtts[..], nsAttsPower, nsAttsVersion, Entries(hash, format, uris, nsAttsVersion, kinds, i + 1))
      ensures error.None? ==> |Entries(hash, format, uris, nsAttsVersion, kinds, i + 1)| == |known| + 1
    {
      hide TableIs, Stored, UriName, Matches;
      full := "";
      if kind.prefix !in uris { return Some(UnboundPrefix), full; }
      full := Stored(format, uris, kind);
      ClashIsMatch(hash, format, uris, nsAttsVersion, kinds, i);
      var clash := Insert(UriName(uris, kind), full, known);
      error := if clash then Some(DuplicateAttribute) else None;
    }

    /** Expands the prefixed names in order and clears the marks of the names it comes by. */
    method Expand(apps: seq<string>, nPrefixes: nat, uris: map<string, string>, ghost names: seq<string>)
      returns (error: Option<Error>, result: seq<string>)
      requires TableOk() && nPrefixes == CountPrefixed(apps) && NamesDiffer(apps)
      requires Marked(flags, names) && forall n :: n in apps ==> n in names
      modifies `flags, `nsAtts, `nsAttsVersion, `nsAttsPower, nsAtts
      ensures error == ExpansionError(hash, format, uris, KindsOf(apps), |apps|)
      ensures error.None? ==> TableOk() && ClearedUpTo(flags, names, apps, |apps|)
      ensures error.None? ==>
        |result| == |apps| && forall k :: 0 <= k < |apps| ==> result[k] == ReportedAs(format, uris, apps[k])
    {
      hide KindOf, TableIs, Stored, CountPrefixed, Entries, BoundUpTo, ExpansionError, ClearedUpTo, NamesDiffer;
      ghost var kinds := KindsOf(apps);
      result := [];
      error := None;
      var i, left := 0, nPrefixes;
      ghost var known: seq<Slot> := [];
      NothingCleared(flags, names, apps);
      if left > 0 { Prepare(left); }
      NothingExpanded(hash, format, uris, nsAttsVersion, kinds);
      while i < |apps| && left > 0
        invariant 0 <= i <= |apps| && |result| == i && ClearedUpTo(flags, names, apps, i)
        invariant nsAtts == old(nsAtts) || fresh(nsAtts)
        invariant 0 <= left && left + CountPrefixed(apps[..i]) == CountPrefixed(apps) && error == None
        invariant ExpansionError(hash, format, uris, kinds, i) == None && BoundUpTo(uris, kinds, i)
        invariant TableOk() && |known| == CountPrefixed(apps[..i]) && (left > 0 ==> CountPrefixed(apps) < nsAtts.Length)
        invariant left > 0 ==> TableIs(nsAtts[..], nsAttsPower, nsAttsVersion, known)
        invariant known == Entries(hash, format, uris, nsAttsVersion, kinds, i)
        invariant forall k :: 0 <= k < i ==> result[k] == ReportedAs(format, uris, apps[k])
      {
        var s := apps[i];
        var kind := KindOf(s);
        PrefixedSoFar(apps, i);
        MarkIs(flags, names, apps, i);
        Cleared(flags, names, apps, i);
        if FlagOf(flags, s) == 2 {
          flags := flags[s := 0];
          var full;
          error, full := ExpandOne(kind, uris, known, kinds, i);
          if error.Some? {
            ErrorHere(hash, format, uris, kinds, i);
            return;
          }
          known := Entries(hash, format, uris, nsAttsVersion, kinds, i + 1);
          result := result + [full];
          left := left - 1;
        } else {
          flags := flags[s := 0];
          result := result + [s];
          OtherName(hash, format, uris, nsAttsVersion, kinds, i);
        }
        i := i + 1;
      }
      if i == |apps| { assert apps[..i] == apps; }
      assert CountPrefixed(apps[..i]) == CountPrefixed(apps);
      result := ClearRest(apps, i, result, uris, names);
    }

    /** Behind the last prefixed name only marks are cleared. */
    method ClearRest(apps: seq<string>, start: nat, before: seq<string>, uris: map<string, string>,
                     ghost names: seq<string>) returns (result: seq<string>)
      requires start == |before| <= |apps| && ClearedUpTo(flags, names, apps, start)
      requires CountPrefixed(apps[..start]) == CountPrefixed(apps)
      requires ExpansionError(hash, format, uris, KindsOf(apps), start) == None
      requires forall k :: 0 <= k < start ==> before[k] == ReportedAs(format, uris, apps[k])
      modifies `flags
      ensures ClearedUpTo(flags, names, apps, |apps|)
      ensures ExpansionError(hash, format, uris, KindsOf(apps), |apps|) == None
      ensures |result| == |apps| && forall k :: 0 <= k < |apps| ==> result[k] == ReportedAs(format, uris, apps[k])
    {
      hide KindOf, CountPrefixed;
      result := before;
      var i := start;
      while i < |apps|
        invariant 0 <= i <= |apps| && |result| == i && ClearedUpTo(flags, names, apps, i)
        invariant CountPrefixed(apps[..i]) == CountPrefixed(apps)
        invariant ExpansionError(hash, format, uris, KindsOf(apps), i) == None
        invariant forall k :: 0 <= k < i ==> result[k] == ReportedAs(format, uris, apps[k])
      {
        PrefixedSoFar(apps, i);
        Cleared(flags, names, apps, i);
        flags := flags[apps[i] := 0];
        result := result + [apps[i]];
        i := i + 1;
      }
    }

    /** Declarations are not reported; their marks are cleared by way of the bindings of the tag. */
    method ClearDeclarations(names: seq<string>)
      requires ClearedUpTo(flags, names, Reported(names), |Reported(names)|)
      modifies `flags
      ensures NoFlags(flags)
    {
      hide KindOf, Reported, MarkOf;
      ghost var apps := Reported(names);
      assert apps[..|apps|] == apps;
      var i := 0;
      while i < |names|
        invariant 0 <= i <= |names|
        invariant forall n :: FlagOf(flags, n) != 0 ==> n in names[i..] && KindOf(n).Xmlns?
      {
        if KindOf(names[i]).Xmlns? { flags := flags[names[i] := 0]; }
        forall n | FlagOf(flags, n) != 0
          ensures n in names[i + 1..] && KindOf(n).Xmlns?
        {
          assert n in names[i..] && n != names[i];
          assert names[i..] == [names[i]] + names[i + 1..];
        }
        i := i + 1;
      }
    }

    /**
     The names of a tag, in the part of `storeAtts` that deals with them: an error for a name or an
     expanded name that is given twice or a prefix that is not bound, or the names that are reported.
     */
    method StoreNames(names: seq<string>, uris: map<string, string>) returns (r: Result<seq<string>>)
      requires Valid()
      modifies this, nsAtts
      ensures !NamesDiffer(names) ==> r == Err(DuplicateAttribute)
      ensures NamesDiffer(names) ==>
        var apps := Reported(names);
        match ExpansionError(hash, format, uris, KindsOf(apps), |apps|)
        case Some(e) => r == Err(e)
        case None => Valid() && r.Ok? && |r.value| == |apps| && forall k :: 0 <= k < |apps| ==>
          r.value[k] == ReportedAs(format, uris, apps[k])
    {
      hide KindOf, Reported, NamesDiffer, ReportedAs, ExpansionError;
      var ok, apps, nPrefixes := Mark(names);
      if !ok { return Err(DuplicateAttribute); }
      ReportedDiffer(names);
      var error, result := Expand(apps, nPrefixes, uris, names);
      if error.Some? { return Err(error.value); }
      ClearDeclarations(names);
      return Ok(result);
    }
  }

  /** The names of `apps` up to the `i`th are no longer marked. */
  ghost predicate ClearedUpTo(flags: map<string, nat>, names: seq<string>, apps: seq<string>, i: nat)
    requires i <= |apps|
  {
    forall n :: FlagOf(flags, n) == if n in names && n !in apps[..i] then MarkOf(n) else 0
  }

  predicate BoundUpTo(uris: map<string, string>, kinds: seq<Kind>, n: nat)
    requires n <= |kinds|
  {
    forall i :: 0 <= i < n && kinds[i].Prefixed? ==> kinds[i].prefix in uris
  }

  /** What the table holds of the first `n` attributes. */
  ghost function Entries(hash: string -> nat, f: Format, uris: map<string, string>, version: nat, kinds: seq<Kind>,
                         n: nat): seq<Slot>
    requires n <= |kinds| && BoundUpTo(uris, kinds, n)
  {
    if n == 0 then []
    else
      Entries(hash, f, uris, version, kinds, n - 1)
      + if !kinds[n - 1].Prefixed? then []
        else [Slot(version, hash(UriName(uris, kinds[n - 1])), Stored(f, uris, kinds[n - 1]))]
  }

  lemma {:induction false} EntryOf(hash: string -> nat, f: Format, uris: map<string, string>, version: nat,
                                   kinds: seq<Kind>, n: nat, s: Slot)
    requires n <= |kinds| && BoundUpTo(uris, kinds, n)
    ensures s in Entries(hash, f, uris, version, kinds, n) <==>
      exists i :: 0 <= i < n && kinds[i].Prefixed?
        && s == Slot(version, hash(UriName(uris, kinds[i])), Stored(f, uris, kinds[i]))
    decreases n
  {
    hide UriName, Stored;
    if n > 0 {
      EntryOf(hash, f, uris, version, kinds, n - 1, s);
    }
  }

  lemma ClashIsMatch(hash: string -> nat, f: Format, uris: map<string, string>, version: nat, kinds: seq<Kind>, n: nat)
    requires n < |kinds| && BoundUpTo(uris, kinds, n) && kinds[n].Prefixed? && kinds[n].prefix in uris
    ensures var known := Entries(hash, f, uris, version, kinds, n);
      var name := UriName(uris, kinds[n]);
      ClashesBefore(hash, f, uris, kinds, n) <==> exists i :: 0 <= i < |known| && Matches(known[i], hash(name), name)
  {
    hide UriName, Stored, Entries;
    var known := Entries(hash, f, uris, version, kinds, n);
    var name := UriName(uris, kinds[n]);
    if ClashesBefore(hash, f, uris, kinds, n) {
      var i :| 0 <= i < n && kinds[i].Prefixed? && kinds[i].prefix in uris && Clash(hash, f, uris, kinds[i], kinds[n]);
      var s := Slot(version, hash(UriName(uris, kinds[i])), Stored(f, uris, kinds[i]));
      EntryOf(hash, f, uris, version, kinds, n, s);
      var k :| 0 <= k < |known| && known[k] == s;
      assert Matches(known[k], hash(name), name);
    }
    if k :| 0 <= k < |known| && Matches(known[k], hash(name), name) {
      EntryOf(hash, f, uris, version, kinds, n, known[k]);
      var i :| 0 <= i < n && kinds[i].Prefixed?
        && known[k] == Slot(version, hash(UriName(uris, kinds[i])), Stored(f, uris, kinds[i]));
      assert Clash(hash, f, uris, kinds[i], kinds[n]);
    }
  }

  lemma NothingExpanded(hash: string -> nat, f: Format, uris: map<string, string>, version: nat, kinds: seq<Kind>)
    ensures BoundUpTo(uris, kinds, 0) && Entries(hash, f, uris, version, kinds, 0) == []
    ensures ExpansionError(hash, f, uris, kinds, 0) == None
  {
  }

  /** A name without a prefix has no part in this. */
  lemma OtherName(hash: string -> nat, f: Format, uris: map<string, string>, version: nat, kinds: seq<Kind>, n: nat)
    requires n < |kinds| && !kinds[n].Prefixed? && BoundUpTo(uris, kinds, n)
    requires ExpansionError(hash, f, uris, kinds, n) == None
    ensures BoundUpTo(uris, kinds, n + 1) && ExpansionError(hash, f, uris, kinds, n + 1) == None
    ensures Entries(hash, f, uris, version, kinds, n + 1) == Entries(hash, f, uris, version, kinds, n)
  {
  }

  lemma ErrorHere(hash: string -> nat, f: Format, uris: map<string, string>, kinds: seq<Kind>, n: nat)
    requires n < |kinds| && ExpansionError(hash, f, uris, kinds, n) == None
    requires ExpansionError(hash, f, uris, kinds, n + 1).Some?
    ensures ExpansionError(hash, f, uris, kinds, |kinds|) == ExpansionError(hash, f, uris, kinds, n + 1)
  {
    ErrorStays(hash, f, uris, kinds, n + 1, |kinds|);
  }

  lemma {:induction false} PrefixedLeft(apps: seq<string>, i: nat)
    requires i <= |apps|
    ensures CountPrefixed(apps[..i]) <= CountPrefixed(apps)
    decreases |apps|
  {
    if i < |apps| {
      PrefixedLeft(apps[..|apps| - 1], i);
      assert apps[..|apps| - 1][..i] == apps[..i];
    } else {
      assert apps[..i] == apps;
    }
  }

  lemma PrefixedSoFar(apps: seq<string>, i: nat)
    requires i < |apps|
    ensures CountPrefixed(apps[..i + 1])
      == CountPrefixed(apps[..i]) + (if KindOf(apps[i]).Prefixed? then 1 else 0) <= CountPrefixed(apps)
    ensures apps[..|apps|] == apps
  {
    assert apps[..i + 1][..i] == apps[..i];
    PrefixedLeft(apps, i + 1);
  }

  lemma LastPrefixed(apps: seq<string>)
    requires apps != []
    ensures CountPrefixed(apps)
      == CountPrefixed(apps[..|apps| - 1]) + if KindOf(apps[|apps| - 1]).Prefixed? then 1 else 0
  {
  }

  lemma NoNames(flags: map<string, nat>)
    requires NoFlags(flags)
    ensures NamesDiffer([]) && Marked(flags, []) && Reported([]) == [] && CountPrefixed([]) == 0
  {
  }

  lemma IsMarked(flags: map<string, nat>, names: seq<string>, name: string)
    requires Marked(flags, names)
    ensures FlagOf(flags, name) != 0 <==> name in names
  {
    hide KindOf;
  }

  lemma MarkedNext(flags: map<string, nat>, flags': map<string, nat>, names: seq<string>, name: string)
    requires Marked(flags, names) && name in flags' && flags'[name] == (if KindOf(name).Prefixed? then 2 else 1)
    requires forall n :: n != name ==> FlagOf(flags', n) == FlagOf(flags, n)
    ensures Marked(flags', names + [name])
  {
    hide KindOf;
  }

  lemma NothingCleared(flags: map<string, nat>, names: seq<string>, apps: seq<string>)
    requires Marked(flags, names)
    ensures ClearedUpTo(flags, names, apps, 0)
  {
  }

  lemma MarkIs(flags: map<string, nat>, names: seq<string>, apps: seq<string>, i: nat)
    requires i < |apps| && ClearedUpTo(flags, names, apps, i) && NamesDiffer(apps) && apps[i] in names
    ensures FlagOf(flags, apps[i]) == MarkOf(apps[i])
  {
    hide KindOf;
    assert apps[i] !in apps[..i];
  }

  lemma Cleared(flags: map<string, nat>, names: seq<string>, apps: seq<string>, i: nat)
    requires i < |apps| && ClearedUpTo(flags, names, apps, i)
    ensures ClearedUpTo(flags[apps[i] := 0], names, apps, i + 1)
  {
    hide KindOf;
    assert apps[..i + 1] == apps[..i] + [apps[i]];
  }

  lemma NextName(names: seq<string>, i: nat)
    requires i < |names|
    ensures names[..i + 1] == names[..i] + [names[i]]
    ensures Reported(names[..i + 1]) == Reported(names[..i]) + if KindOf(names[i]).Xmlns? then [] else [names[i]]
    ensures NamesDiffer(names[..i]) ==> (NamesDiffer(names[..i + 1]) <==> names[i] !in names[..i])
    ensures !NamesDiffer(names[..i + 1]) ==> !NamesDiffer(names)
  {
    assert names[..i + 1][..i] == names[..i];
  }

  lemma ShiftedOut(n: nat, size: nat)
    requires size > 0
    ensures n / size != 0 <==> n >= size
  {
  }

  lemma PowerOfNone()
    ensures Pow2(0) == 1
  {
  }

  /** How many collisions there may be before a free slot. */
  lemma FreeProbe(slots: seq<Slot>, power: nat, version: nat, known: seq<Slot>, hash: nat) returns (k: nat)
    requires TableIs(slots, power, version, known) && |known| < |slots|
    ensures power >= MIN_POWER && |slots| == Pow2(power) && slots[HashTables.Slot(hash, power, k)].version != version
  {
    hide HashTables.Slot;
    var j := FreeOne(slots, version);
    k := ProbeReaches(hash, power, j);
  }

  lemma MatchIsKnown(slots: seq<Slot>, power: nat, version: nat, known: seq<Slot>, j: nat)
    requires TableIs(slots, power, version, known) && j < |slots| && slots[j].version == version
    ensures exists i :: 0 <= i < |known| && known[i] == slots[j]
  {
  }

  lemma {:induction false} PowerIsLarge(p: nat)
    ensures Pow2(p) > p
  {
    if p > 0 {
      PowerIsLarge(p - 1);
    }
  }
}
