/** Which prefixes are declared, by membership in the declarations, and what a name is reported as without one. */
module NamespacePrefixes {
  import opened Errors
  import opened Bindings
  import opened Namespaces

  predicate Declares(decls: seq<Declaration>, p: string) {
    exists i :: 0 <= i < |decls| && decls[i].prefix == Some(p)
  }

  /** The prefixes of some declarations. */
  function Prefixes(decls: seq<Declaration>): (r: set<string>)
    ensures forall p :: p in r <==> Declares(decls, p)
  {
    set d | d in decls && d.prefix.Some? :: d.prefix.value
  }

  /** The name has a colon, and the text before its first one is the prefix `p`. */
  predicate HasPrefix(name: string, p: string) { |p| < |name| && p == name[..|p|] && name[|p|] == ':' && ':' !in p }

  lemma {:induction false} ColonIs(name: string, k: nat)
    requires k <= |name| && ':' !in name[..k] && (k < |name| ==> name[k] == ':')
    ensures Colon(name) == k
  {
    if k > 0 {
      assert name[0] == name[..k][0] && name[1..][..k - 1] == name[..k][1..];
      ColonIs(name[1..], k - 1);
    }
  }

  lemma {:induction false} NoColonBefore(name: string)
    ensures ':' !in name[..Colon(name)] && (Colon(name) < |name| ==> name[Colon(name)] == ':')
  {
    if name != [] && name[0] != ':' {
      NoColonBefore(name[1..]);
      assert name[..Colon(name)] == [name[0]] + name[1..][..Colon(name[1..])];
    }
  }

  lemma PrefixIs(name: string, p: string)
    ensures HasPrefix(name, p) <==> PrefixOf(name) == Some(p)
    ensures PrefixOf(name) == None <==> ':' !in name
  {
    NoColonBefore(name);
    if HasPrefix(name, p) { ColonIs(name, |p|); }
    if Colon(name) == |name| { assert name[..Colon(name)] == name; }
  }

  /** A declaration with a prefix is found; one without may be empty. */
  lemma {:induction false} PrefixIsFound(c: Config, env: seq<Declaration>, p: string)
    ensures UriOf(c, env, Some(p)).Some? <==> Declares(env, p)
  {
    if env != [] {
      PrefixIsFound(c, env[1..], p);
      DeclaresFirst(env, p);
    }
  }

  lemma DeclaresFirst(env: seq<Declaration>, p: string)
    requires env != []
    ensures Declares(env, p) <==> env[0].prefix == Some(p) || Declares(env[1..], p)
  {
    if Declares(env, p) {
      var i :| 0 <= i < |env| && env[i].prefix == Some(p);
      if i > 0 { assert env[1..][i - 1].prefix == Some(p); }
    }
    if Declares(env[1..], p) {
      var i :| 0 <= i < |env[1..]| && env[1..][i].prefix == Some(p);
      assert env[i + 1].prefix == Some(p);
    }
  }

  lemma {:induction false} DeclaredWith(c: Config, decls: seq<Declaration>, env: seq<Declaration>, p: string)
    ensures Declares(EnvWith(c, decls, env), p) <==> Declares(decls, p) || Declares(env, p)
    decreases |decls|
  {
    if decls != [] {
      var inner := [Declaration(decls[0].prefix, decls[0].uri + Sep(c))] + env;
      DeclaredWith(c, decls[1..], inner, p);
      DeclaresFirst(decls, p);
      DeclaresFirst(inner, p);
      assert inner[1..] == env;
    }
  }

  lemma PrefixesWith(c: Config, decls: seq<Declaration>, env: seq<Declaration>)
    ensures Prefixes(EnvWith(c, decls, env)) == Prefixes(decls) + Prefixes(env)
  {
    hide EnvWith, Declares;
    forall p
      ensures p in Prefixes(EnvWith(c, decls, env)) <==> p in Prefixes(decls) + Prefixes(env)
    {
      DeclaredWith(c, decls, env, p);
    }
  }

  /**
   Where the declarations of a tag are lawful, there is no name for it if and only if its name has a prefix that
   neither the tag nor what is around it declares.
   */
  lemma UnboundExactlyIf(c: Config, env: seq<Declaration>, own: string, decls: seq<Declaration>)
    requires forall i :: 0 <= i < |decls| ==> Lawful(decls[i])
    ensures Reported(c, env, own, decls) == Err(UnboundPrefix) <==>
      exists p :: HasPrefix(own, p) && !Declares(decls, p) && !Declares(env, p)
    ensures Reported(c, env, own, decls).Err? ==> Reported(c, env, own, decls) == Err(UnboundPrefix)
  {
    hide EnvWith, HasPrefix, Declares;
    NoErrors(decls);
    PrefixIs(own, "");
    if PrefixOf(own).Some? {
      var p := PrefixOf(own).value;
      PrefixIs(own, p);
      PrefixIsFound(c, EnvWith(c, decls, env), p);
      DeclaredWith(c, decls, env, p);
    }
    forall p | HasPrefix(own, p)
      ensures PrefixOf(own) == Some(p)
    {
      PrefixIs(own, p);
    }
  }

  /** The constraints of Namespaces in XML 1.0: prefixes `xml` and `xmlns`, their namespaces, undeclaring. */
  predicate Lawful(d: Declaration) {
    && d.prefix != Some("xmlns") && d.uri != "http://www.w3.org/2000/xmlns/"
    && (d.prefix == Some("xml") <==> d.uri == "http://www.w3.org/XML/1998/namespace")
    && (d.prefix.Some? ==> d.uri != "")
  }

  lemma LawfulHasNoError(d: Declaration)
    ensures DeclarationError(d).None? <==> Lawful(d)
  {
    assert |"http://www.w3.org/2000/xmlns/"| != |"http://www.w3.org/XML/1998/namespace"|;
  }

  lemma {:induction false} NoErrors(decls: seq<Declaration>)
    ensures FirstError(decls) == None <==> forall i :: 0 <= i < |decls| ==> Lawful(decls[i])
  {
    hide Lawful, DeclarationError;
    if decls != [] {
      LawfulHasNoError(decls[0]);
      NoErrors(decls[1..]);
      if forall i :: 0 <= i < |decls[1..]| ==> Lawful(decls[1..][i]) {
        forall i | 1 <= i < |decls|
          ensures Lawful(decls[i])
        {
          assert decls[i] == decls[1..][i - 1];
        }
      }
    }
  }

  // ----- the default namespace -----

  /** The declaration at `i` is the first one of the default namespace. */
  predicate FirstDefault(env: seq<Declaration>, i: nat) {
    i < |env| && env[i].prefix == None && forall j :: 0 <= j < i ==> env[j].prefix != None
  }

  /** The innermost default declaration is absent, or empty but for the separator. */
  ghost predicate NoDefault(c: Config, env: seq<Declaration>) {
    forall i: nat :: FirstDefault(env, i) ==> |env[i].uri| == |Sep(c)|
  }

  /** The declaration at `i` is the last one of the default namespace. */
  predicate LastDefault(decls: seq<Declaration>, i: nat) {
    i < |decls| && decls[i].prefix == None && forall j :: i < j < |decls| ==> decls[j].prefix != None
  }

  lemma FirstDefaultNext(env: seq<Declaration>, i: nat)
    requires env != [] && env[0].prefix != None
    ensures FirstDefault(env, i + 1) <==> FirstDefault(env[1..], i)
  {
    if FirstDefault(env, i + 1) {
      assert forall j :: 0 <= j < i ==> env[1..][j] == env[j + 1];
    }
    if FirstDefault(env[1..], i) {
      forall j | 0 <= j < i + 1
        ensures env[j].prefix != None
      {
        if j > 0 { assert env[j] == env[1..][j - 1]; }
      }
    }
  }

  lemma {:induction false} NoDefaultIs(c: Config, env: seq<Declaration>)
    ensures UriOf(c, env, None) == None <==> NoDefault(c, env)
  {
    hide Sep;
    if env != [] {
      NoDefaultIs(c, env[1..]);
      if env[0].prefix == None {
        assert FirstDefault(env, 0);
      } else {
        forall i: nat
          ensures FirstDefault(env, i + 1) <==> FirstDefault(env[1..], i)
        {
          FirstDefaultNext(env, i);
        }
        assert NoDefault(c, env) ==> NoDefault(c, env[1..]) by {
          if NoDefault(c, env) {
            forall i: nat | FirstDefault(env[1..], i)
              ensures |env[1..][i].uri| == |Sep(c)|
            {
              assert FirstDefault(env, i + 1);
            }
          }
        }
        assert NoDefault(c, env[1..]) ==> NoDefault(c, env) by {
          if NoDefault(c, env[1..]) {
            forall i: nat | FirstDefault(env, i)
              ensures |env[i].uri| == |Sep(c)|
            {
              assert FirstDefault(env[1..], i - 1);
            }
          }
        }
      }
    }
  }

  /** Within a tag the last default declaration counts, and those around the tag only if it has none. */
  lemma {:induction false} DefaultWith(c: Config, decls: seq<Declaration>, env: seq<Declaration>)
    ensures NoDefault(c, EnvWith(c, decls, env)) <==>
      && (forall i: nat :: LastDefault(decls, i) ==> decls[i].uri == "")
      && ((forall i :: 0 <= i < |decls| ==> decls[i].prefix != None) ==> NoDefault(c, env))
    decreases |decls|
  {
    if decls != [] {
      var rest, d := decls[1..], Declaration(decls[0].prefix, decls[0].uri + Sep(c));
      DefaultWith(c, rest, [d] + env);
      forall i: nat
        ensures LastDefault(decls, i + 1) <==> LastDefault(rest, i)
      {
        if LastDefault(decls, i + 1) { assert forall j :: i < j < |rest| ==> rest[j] == decls[j + 1]; }
        if LastDefault(rest, i) { assert forall j :: i + 1 < j < |decls| ==> decls[j] == rest[j - 1]; }
      }
      NoDefaultFirst(c, d, env);
    }
  }

  lemma NoDefaultFirst(c: Config, d: Declaration, env: seq<Declaration>)
    ensures NoDefault(c, [d] + env) <==> if d.prefix == None then |d.uri| == |Sep(c)| else NoDefault(c, env)
  {
    hide Sep, NoDefault;
    NoDefaultIs(c, [d] + env);
    NoDefaultIs(c, env);
    assert ([d] + env)[1..] == env;
  }

  /** The tag and what is around it have no default namespace. */
  ghost predicate NoDefaultIn(c: Config, decls: seq<Declaration>, env: seq<Declaration>) {
    && (forall i: nat :: LastDefault(decls, i) ==> decls[i].uri == "")
    && ((forall i :: 0 <= i < |decls| ==> decls[i].prefix != None) ==> NoDefault(c, env))
  }

  /** Strings of C, which have no terminator within, and URIs with their separator. */
  predicate WithoutNul(c: Config, env: seq<Declaration>) {
    forall i :: 0 <= i < |env| ==> '\0' !in env[i].uri && |env[i].uri| >= |Sep(c)|
  }

  /** A name without a prefix is reported as itself exactly if the innermost default declaration is absent or empty. */
  lemma UnprefixedExactlyIf(c: Config, env: seq<Declaration>, own: string, decls: seq<Declaration>)
    requires ':' !in own && '\0' !in own && forall i :: 0 <= i < |decls| ==> Lawful(decls[i])
    requires WithoutNul(c, env) && forall i :: 0 <= i < |decls| ==> '\0' !in decls[i].uri
    ensures Reported(c, env, own, decls) == Ok(own) <==> NoDefaultIn(c, decls, env)
  {
    hide EnvWith, Lawful, NoDefault, LastDefault, Sep, Tail;
    var inner := EnvWith(c, decls, env);
    NoErrors(decls);
    PrefixIs(own, "");
    DefaultWith(c, decls, env);
    NoDefaultIs(c, inner);
    if UriOf(c, inner, None).Some? {
      var uri := UriOf(c, inner, None).value;
      NulFreeWith(c, decls, env);
      DefaultUri(c, inner);
      UnprefixedTail(c, own);
      assert uri + (own + "\0") == (uri + own) + "\0";
      CStringOf(uri + own);
      assert |uri + own| > |own|;
    }
  }

  lemma UnprefixedTail(c: Config, own: string)
    requires ':' !in own
    ensures Tail(c, LocalPart(own), None) == own + "\0"
  {
    PrefixIs(own, "");
    assert LocalPart(own) == own;
    assert own + "" + "\0" == own + "\0";
  }

  lemma {:induction false} NulFreeWith(c: Config, decls: seq<Declaration>, env: seq<Declaration>)
    requires WithoutNul(c, env) && forall i :: 0 <= i < |decls| ==> '\0' !in decls[i].uri
    ensures WithoutNul(c, EnvWith(c, decls, env))
    decreases |decls|
  {
    if decls != [] {
      NulFreeWith(c, decls[1..], [Declaration(decls[0].prefix, decls[0].uri + Sep(c))] + env);
    }
  }

  lemma {:induction false} DefaultUri(c: Config, env: seq<Declaration>)
    requires WithoutNul(c, env) && UriOf(c, env, None).Some?
    ensures '\0' !in UriOf(c, env, None).value && UriOf(c, env, None).value != ""
  {
    if env[0].prefix != None { DefaultUri(c, env[1..]); }
  }

  // ----- names with a namespace -----

  /** The declaration at `i` is the first one of the prefix. */
  predicate FirstOf(env: seq<Declaration>, p: Prefix, i: nat) {
    i < |env| && env[i].prefix == p && forall j :: 0 <= j < i ==> env[j].prefix != p
  }

  /** The declaration that counts within a tag: its last one of the prefix, or the innermost one around it. */
  predicate Counts(c: Config, decls: seq<Declaration>, env: seq<Declaration>, p: Prefix, i: nat, uri: string) {
    || (i < |decls| && decls[i].prefix == p && uri == decls[i].uri + Sep(c)
        && forall j :: i < j < |decls| ==> decls[j].prefix != p)
    || (FirstOf(env, p, i) && uri == env[i].uri && forall j :: 0 <= j < |decls| ==> decls[j].prefix != p)
  }

  lemma {:induction false} EnvWithIs(c: Config, decls: seq<Declaration>, env: seq<Declaration>, k: nat)
    requires k < |decls| + |env|
    ensures |EnvWith(c, decls, env)| == |decls| + |env|
    ensures EnvWith(c, decls, env)[k] ==
      if k >= |decls| then env[k - |decls|]
      else Declaration(decls[|decls| - 1 - k].prefix, decls[|decls| - 1 - k].uri + Sep(c))
    decreases |decls|
  {
    if decls != [] {
      EnvWithIs(c, decls[1..], [Declaration(decls[0].prefix, decls[0].uri + Sep(c))] + env, k);
    }
  }

  lemma CountsIsFirst(c: Config, decls: seq<Declaration>, env: seq<Declaration>, p: Prefix, i: nat, uri: string)
    returns (k: nat)
    requires Counts(c, decls, env, p, i, uri)
    ensures FirstOf(EnvWith(c, decls, env), p, k) && EnvWith(c, decls, env)[k].uri == uri
  {
    hide EnvWith;
    var inTag := i < |decls| && decls[i].prefix == p && forall j :: i < j < |decls| ==> decls[j].prefix != p;
    k := if inTag then |decls| - 1 - i else |decls| + i;
    forall j | 0 <= j <= k
      ensures |EnvWith(c, decls, env)| == |decls| + |env|
      ensures EnvWith(c, decls, env)[j] ==
        if j >= |decls| then env[j - |decls|]
        else Declaration(decls[|decls| - 1 - j].prefix, decls[|decls| - 1 - j].uri + Sep(c))
    {
      EnvWithIs(c, decls, env, j);
    }
  }

  lemma {:induction false} FirstIsUri(c: Config, env: seq<Declaration>, p: Prefix, i: nat)
    requires FirstOf(env, p, i) && (p.Some? || |env[i].uri| != |Sep(c)|)
    ensures UriOf(c, env, p) == Some(env[i].uri)
    decreases |env|
  {
    if i > 0 { FirstIsUri(c, env[1..], p, i - 1); }
  }

  /** A prefixed name: the URI that counts with its separator, the local part, and with triplets the prefix. */
  lemma PrefixedIs(c: Config, env: seq<Declaration>, own: string, decls: seq<Declaration>, p: string, i: nat,
                   uri: string)
    requires HasPrefix(own, p) && Counts(c, decls, env, Some(p), i, uri)
    requires c.separator != '\0' && '\0' !in uri && '\0' !in own && forall j :: 0 <= j < |decls| ==> Lawful(decls[j])
    ensures Reported(c, env, own, decls)
      == Ok(uri + own[|p| + 1..] + if c.triplets then [c.separator] + p else "")
  {
    hide EnvWith, Lawful, Counts, UriOf;
    NoErrors(decls);
    PrefixIs(own, p);
    NoColonBefore(own);
    var k := CountsIsFirst(c, decls, env, Some(p), i, uri);
    FirstIsUri(c, EnvWith(c, decls, env), Some(p), k);
    ExpandedIs(c, EnvWith(c, decls, env), own);
  }

  /** A name without a prefix, in a default namespace. */
  lemma DefaultedIs(c: Config, env: seq<Declaration>, own: string, decls: seq<Declaration>, i: nat, uri: string)
    requires ':' !in own && Counts(c, decls, env, None, i, uri) && |uri| != |Sep(c)|
    requires c.separator != '\0' && '\0' !in uri && '\0' !in own && forall j :: 0 <= j < |decls| ==> Lawful(decls[j])
    ensures Reported(c, env, own, decls) == Ok(uri + own)
  {
    hide EnvWith, Lawful, Counts, UriOf;
    NoErrors(decls);
    PrefixIs(own, "");
    var k := CountsIsFirst(c, decls, env, None, i, uri);
    FirstIsUri(c, EnvWith(c, decls, env), None, k);
    ExpandedIs(c, EnvWith(c, decls, env), own);
    assert uri + own + "" == uri + own;
  }
}
