/**
 Balanced content: what the parser reports for an element is what the declarations around it and
 within it mean, and afterwards everything is as it was.
 */
module NamespaceRuns {
  import opened Errors
  import opened Bindings
  import opened Namespaces
  import opened NamespacePrefixes

  datatype Element =
    | EmptyElement(name: string, decls: seq<Declaration>)
    | Element(name: string, decls: seq<Declaration>, children: seq<Element>)

  datatype NameEvent = Start(name: string) | End(name: string)

  /** The names an element and its content are reported with where `env` is in scope; the first error. */
  function Meaning(c: Config, env: seq<Declaration>, e: Element): Result<seq<NameEvent>>
    decreases e, 0
  {
    match Reported(c, env, e.name, e.decls)
    case Err(error) => Err(error)
    case Ok(name) =>
      if e.EmptyElement? then Ok([Start(name), End(name)])
      else
        match MeaningOf(c, EnvWith(c, e.decls, env), e.children, |e.children|)
        case Err(error) => Err(error)
        case Ok(within) => Ok([Start(name)] + within + [End(name)])
  }

  /** The first `n` of the children. */
  function MeaningOf(c: Config, env: seq<Declaration>, children: seq<Element>, n: nat): Result<seq<NameEvent>>
    requires n <= |children|
    decreases children, n
  {
    if n == 0 then Ok([])
    else
      match MeaningOf(c, env, children, n - 1)
      case Err(error) => Err(error)
      case Ok(before) =>
        match Meaning(c, env, children[n - 1])
        case Err(error) => Err(error)
        case Ok(last) => Ok(before + last)
  }

  lemma {:induction false} FirstErrorStays(c: Config, env: seq<Declaration>, children: seq<Element>, m: nat, n: nat)
    requires m <= n <= |children| && MeaningOf(c, env, children, m).Err?
    ensures MeaningOf(c, env, children, n) == MeaningOf(c, env, children, m)
    decreases n
  {
    if m < n {
      FirstErrorStays(c, env, children, m, n - 1);
    }
  }

  /** Every declaration in the element is lawful. */
  predicate AllLawful(e: Element)
    decreases e
  {
    && (forall i :: 0 <= i < |e.decls| ==> Lawful(e.decls[i]))
    && (e.Element? ==> forall i :: 0 <= i < |e.children| ==> AllLawful(e.children[i]))
  }

  /** Every prefix of a name in the element is declared by its tag, by one around it, or known before. */
  ghost predicate AllBound(known: set<string>, e: Element)
    decreases e
  {
    && (forall p :: HasPrefix(e.name, p) ==> p in known || Declares(e.decls, p))
    && (e.Element? ==> forall i :: 0 <= i < |e.children| ==> AllBound(known + Prefixes(e.decls), e.children[i]))
  }

  lemma TagIsBound(c: Config, env: seq<Declaration>, own: string, decls: seq<Declaration>)
    requires forall i :: 0 <= i < |decls| ==> Lawful(decls[i])
    ensures Reported(c, env, own, decls).Ok?
      <==> forall p :: HasPrefix(own, p) ==> p in Prefixes(env) || Declares(decls, p)
    ensures Reported(c, env, own, decls).Err? ==> Reported(c, env, own, decls) == Err(UnboundPrefix)
    ensures Prefixes(EnvWith(c, decls, env)) == Prefixes(env) + Prefixes(decls)
  {
    hide Reported, HasPrefix, Declares, Lawful, EnvWith;
    UnboundExactlyIf(c, env, own, decls);
    PrefixesWith(c, decls, env);
  }

  /** An element with lawful declarations can be reported if and only if all prefixes of names are declared. */
  lemma {:induction false} MeaningExactlyIf(c: Config, env: seq<Declaration>, e: Element)
    requires AllLawful(e)
    ensures if AllBound(Prefixes(env), e) then Meaning(c, env, e).Ok? else Meaning(c, env, e) == Err(UnboundPrefix)
    decreases e, 1
  {
    hide Reported, HasPrefix, Declares, Lawful, EnvWith, Prefixes;
    TagIsBound(c, env, e.name, e.decls);
    if e.Element? {
      ChildrenExactlyIf(c, EnvWith(c, e.decls, env), e.children, |e.children|);
    }
  }

  lemma {:induction false} ChildrenExactlyIf(c: Config, env: seq<Declaration>, children: seq<Element>, n: nat)
    requires n <= |children| && forall i :: 0 <= i < |children| ==> AllLawful(children[i])
    ensures if forall i :: 0 <= i < n ==> AllBound(Prefixes(env), children[i]) then MeaningOf(c, env, children, n).Ok?
      else MeaningOf(c, env, children, n) == Err(UnboundPrefix)
    decreases children, n
  {
    hide AllBound, AllLawful, Meaning, Prefixes;
    if n > 0 {
      ChildrenExactlyIf(c, env, children, n - 1);
      MeaningExactlyIf(c, env, children[n - 1]);
    }
  }

  /** Reads an element with the tags of `parser`. */
  method ReadElement(parser: Namespaces, e: Element) returns (r: Result<seq<NameEvent>>)
    requires parser.Valid()
    modifies parser
    ensures r == Meaning(parser.config, old(parser.Env([])), e) && parser.inherited == old(parser.inherited)
    ensures AllLawful(e) ==>
      if AllBound(Prefixes(old(parser.Env([]))), e) then r.Ok? else r == Err(UnboundPrefix)
    ensures r.Ok? ==> parser.Valid() && parser.Env([]) == old(parser.Env([])) && parser.views == old(parser.views)
    decreases e
  {
    hide Good, EnvOf, Reported, EnvWith, AllLawful, AllBound;
    ghost var env := parser.Env([]);
    if AllLawful(e) { MeaningExactlyIf(parser.config, env, e); }
    if e.EmptyElement? {
      var name := parser.EmptyElement(e.name, e.decls);
      if name.Err? { return Err(name.error); }
      return Ok([Start(name.value), End(name.value)]);
    }
    ghost var views := parser.views;
    OuterEnv(parser);
    assert views == [] ==> |env| == |parser.inherited| by { EnvSize(parser.store, parser.declared, parser.inherited); }
    var name := parser.StartElement(e.name, e.decls);
    if name.Err? { return Err(name.error); }
    ghost var inner := parser.Env([]);
    ghost var entered := parser.views;
    var within: seq<NameEvent> := [];
    var i := 0;
    while i < |e.children|
      invariant 0 <= i <= |e.children| && parser.Valid() && parser.Env([]) == inner && parser.views == entered
      invariant parser.inherited == old(parser.inherited)
      invariant MeaningOf(parser.config, inner, e.children, i) == Ok(within)
    {
      var child := ReadElement(parser, e.children[i]);
      i := i + 1;
      if child.Err? {
        FirstErrorStays(parser.config, inner, e.children, i, |e.children|);
        return Err(child.error);
      }
      within := within + child.value;
    }
    StackSize(parser.config, parser.Now(), []);
    if views == [] { InheritedLast(parser, e.decls, env); }
    var end := parser.EndElement();
    r := Ok([Start(name.value)] + within + [End(end)]);
  }

  /** The declarations in scope are those the innermost open element was entered with. */
  lemma OuterEnv(parser: Namespaces)
    requires parser.Valid()
    ensures parser.Env([]) ==
      if parser.views == [] then EnvOf(parser.store, parser.declared, parser.inherited)
      else parser.views[|parser.views| - 1].env
  {
    hide EnvOf, Linked, Scoped;
    if parser.views != [] {
      LastEnv(parser.config, parser.Now());
    } else {
      assert InScope(parser.Now(), []) == parser.inherited;
    }
  }

  /** Within an element that is not in another one, the inherited declarations are still those around it. */
  lemma InheritedLast(parser: Namespaces, decls: seq<Declaration>, env: seq<Declaration>)
    requires parser.Env([]) == EnvWith(parser.config, decls, env) && |env| == |parser.inherited|
    ensures EnvOf(parser.store, parser.declared, parser.inherited) == env
  {
    hide EnvWith, EnvOf, Scope;
    var scope := Scope(parser.views, parser.inherited);
    assert InScope(parser.Now(), []) == scope;
    EnvWithSplits(parser.config, decls, env);
    InheritedLastInScope(parser.views, parser.inherited);
    EnvSize(parser.store, parser.declared, scope);
    EnvSlice(parser.store, parser.declared, scope, |scope| - |parser.inherited|);
  }

  lemma EnvSize(store: Store, declared: map<Address, string>, scope: seq<Address>)
    ensures |EnvOf(store, declared, scope)| == |scope|
  {
  }

  lemma EnvSlice(store: Store, declared: map<Address, string>, scope: seq<Address>, n: nat)
    requires n <= |scope|
    ensures EnvOf(store, declared, scope)[n..] == EnvOf(store, declared, scope[n..])
  {
  }

  lemma {:induction false} InheritedLastInScope(views: seq<View>, inherited: seq<Address>)
    ensures var scope := Scope(views, inherited); |scope| >= |inherited| && scope[|scope| - |inherited|..] == inherited
    decreases |views|
  {
    if views != [] {
      InheritedLastInScope(views[..|views| - 1], inherited);
    }
  }
}
