/** What the names of attributes mean, by their characters alone. */
module AttributeMeanings {
  import opened Errors
  import opened NamespacePrefixes
  import Namespaces
  import A = AttributeNames

  /** `xmlns`, or `xmlns:` with a prefix. */
  ghost predicate IsDeclaration(name: string) { name == "xmlns" || exists p: string :: name == "xmlns:" + p }

  /** A name declares, or has a prefix and a local part, or neither. */
  lemma KindIs(name: string)
    ensures A.KindOf(name).Xmlns? <==> IsDeclaration(name)
    ensures forall p :: HasPrefix(name, p) && !IsDeclaration(name) ==> A.KindOf(name) == A.Prefixed(p, name[|p| + 1..])
    ensures A.KindOf(name).Plain? <==> ':' !in name && !IsDeclaration(name)
  {
    PrefixIs(name, "");
    if "xmlns:" <= name { assert name == "xmlns:" + name[6..]; }
    forall p: string | name == "xmlns:" + p
      ensures "xmlns:" <= name
    {
    }
    forall p | HasPrefix(name, p)
      ensures Namespaces.PrefixOf(name) == Some(p)
    {
      PrefixIs(name, p);
    }
  }

  /**
   An attribute with a bound prefix is reported with the URI, the local part and, with triplets, its prefix; one
   without a prefix is in no namespace and is reported by its name, whatever is declared.
   */
  lemma ReportedIs(f: A.Format, uris: map<string, string>, name: string)
    ensures forall p :: HasPrefix(name, p) && !IsDeclaration(name) && p in uris ==>
      A.ReportedAs(f, uris, name) == uris[p] + name[|p| + 1..] + if f.triplets then [f.separator] + p else ""
    ensures ':' !in name ==> A.ReportedAs(f, uris, name) == name
  {
    KindIs(name);
  }

  /** Some attribute has a prefix that is not bound. */
  ghost predicate SomeUnbound(uris: map<string, string>, names: seq<string>) {
    exists i, p :: 0 <= i < |names| && !IsDeclaration(names[i]) && HasPrefix(names[i], p) && p !in uris
  }

  lemma UnboundIs(uris: map<string, string>, names: seq<string>)
    ensures SomeUnbound(uris, names) <==> !A.AllBound(uris, A.KindsOf(names))
  {
    hide HasPrefix, IsDeclaration, A.KindOf;
    var kinds := A.KindsOf(names);
    forall i | 0 <= i < |names|
      ensures (exists p :: !IsDeclaration(names[i]) && HasPrefix(names[i], p) && p !in uris)
        <==> kinds[i].Prefixed? && kinds[i].prefix !in uris
    {
      KindIs(names[i]);
      FirstColon(names[i]);
    }
  }

  lemma FirstColon(name: string)
    ensures ':' in name ==> exists p :: HasPrefix(name, p)
  {
    PrefixIs(name, "");
    if ':' in name {
      PrefixIs(name, Namespaces.PrefixOf(name).value);
    }
  }

  /**
   The attributes of a tag are expanded without an error exactly if all their prefixes are bound and none has the
   expanded name of one before it or is taken for it.
   */
  lemma NoErrorExactlyIf(hash: string -> nat, f: A.Format, uris: map<string, string>, names: seq<string>)
    ensures A.ExpansionError(hash, f, uris, A.KindsOf(names), |names|) == None <==>
      && !SomeUnbound(uris, names)
      && forall j :: 0 <= j < |names| ==> !A.IsTaken(hash, f, uris, A.KindsOf(names), j)
  {
    hide SomeUnbound, A.IsTaken, A.ExpansionError;
    var kinds, n := A.KindsOf(names), |names|;
    UnboundIs(uris, names);
    A.ReportedIsTaken(hash, f, uris, kinds, n);
    assert kinds[..n] == kinds;
    forall j | 0 <= j < n && A.IsTaken(hash, f, uris, kinds, j)
      ensures A.AllBound(uris, kinds) ==> A.AllBound(uris, kinds[..j + 1])
    {
    }
  }
}
