/**
 Namespace bindings: the objects by their addresses, the lists they are on, and which of them is in
 force for a prefix.

 The bindings in scope are listed innermost first.  A prefix points to the innermost one of its
 own, and each binding remembers the one it hides.
 */
module Bindings {
  import opened Errors

  /** The address of a binding or of a buffer; `None` is NULL. */
  type Address = nat

  /** A prefix by its name; the default prefix has none. */
  type Prefix = Option<string>

  /** `BINDING`: `uri` is the address of a buffer that begins with the URI and its separator, `uriLen` characters. */
  datatype Binding = Binding(prefix: Prefix, nextTagBinding: Option<Address>, prevPrefixBinding: Option<Address>,
                             uri: Address, uriLen: nat)

  type Store = map<Address, Binding>

  /** No address is listed twice. */
  predicate Distinct(s: seq<Address>) { forall a :: a in s ==> multiset(s)[a] == 1 }

  predicate AllIn(s: seq<Address>, store: Store) { forall i :: 0 <= i < |s| ==> s[i] in store }

  /** The list that begins at `head`. */
  predicate Linked(store: Store, head: Option<Address>, list: seq<Address>)
    decreases |list|
  {
    if list == [] then head == None
    else head == Some(list[0]) && list[0] in store && Linked(store, store[list[0]].nextTagBinding, list[1..])
  }

  /**
   The declaration with an empty URI, which undeclares the default namespace (section 6.2 of Namespaces in
   XML 1.0).
   */
  predicate Undeclares(b: Binding, sep: nat) { b.prefix == None && b.uriLen == sep }

  /** The binding in force for a prefix, which is that of the innermost declaration. */
  function Innermost(store: Store, sep: nat, scope: seq<Address>, p: Prefix): Option<Address>
    requires AllIn(scope, store)
    decreases |scope|
  {
    if scope == [] then None
    else
      var b := store[scope[0]];
      if b.prefix == p then (if Undeclares(b, sep) then None else Some(scope[0]))
      else Innermost(store, sep, scope[1..], p)
  }

  function InForce(bound: map<Prefix, Option<Address>>, p: Prefix): Option<Address> {
    if p in bound then bound[p] else None
  }

  predicate Remembers(store: Store, sep: nat, scope: seq<Address>, i: nat)
    requires AllIn(scope, store) && i < |scope|
  {
    store[scope[i]].prevPrefixBinding == Innermost(store, sep, scope[i + 1..], store[scope[i]].prefix)
  }

  /** Every prefix points to its binding in force, and every binding to the one it hides. */
  ghost predicate Scoped(store: Store, sep: nat, bound: map<Prefix, Option<Address>>, scope: seq<Address>) {
    && AllIn(scope, store)
    && (forall p :: InForce(bound, p) == Innermost(store, sep, scope, p))
    && (forall i :: 0 <= i < |scope| ==> Remembers(store, sep, scope, i))
  }

  /** The binding means the same: only its links or its buffer have changed. */
  predicate SameMeaning(a: Binding, b: Binding) {
    a.prefix == b.prefix && a.uriLen == b.uriLen && a.prevPrefixBinding == b.prevPrefixBinding
  }

  lemma {:induction false} InnermostStays(store: Store, store': Store, sep: nat, scope: seq<Address>, p: Prefix)
    requires AllIn(scope, store) && AllIn(scope, store')
    requires forall i :: 0 <= i < |scope| ==> SameMeaning(store[scope[i]], store'[scope[i]])
    ensures Innermost(store', sep, scope, p) == Innermost(store, sep, scope, p)
    decreases |scope|
  {
    if scope != [] {
      InnermostStays(store, store', sep, scope[1..], p);
    }
  }

  lemma ScopeStays(store: Store, store': Store, sep: nat, bound: map<Prefix, Option<Address>>, scope: seq<Address>)
    requires Scoped(store, sep, bound, scope) && AllIn(scope, store')
    requires forall i :: 0 <= i < |scope| ==> SameMeaning(store[scope[i]], store'[scope[i]])
    ensures Scoped(store', sep, bound, scope)
  {
    forall p
      ensures InForce(bound, p) == Innermost(store', sep, scope, p)
    {
      InnermostStays(store, store', sep, scope, p);
    }
    forall i | 0 <= i < |scope|
      ensures Remembers(store', sep, scope, i)
    {
      assert Remembers(store, sep, scope, i);
      InnermostStays(store, store', sep, scope[i + 1..], store[scope[i]].prefix);
    }
  }

  lemma {:induction false} LinkStays(store: Store, store': Store, head: Option<Address>, list: seq<Address>)
    requires Linked(store, head, list)
    requires forall i :: 0 <= i < |list| ==> list[i] in store' && (list[i] in store ==>
      store'[list[i]].nextTagBinding == store[list[i]].nextTagBinding)
    ensures Linked(store', head, list)
    decreases |list|
  {
    if list != [] {
      LinkStays(store, store', store[list[0]].nextTagBinding, list[1..]);
    }
  }

  lemma {:induction false} LinkedIn(store: Store, head: Option<Address>, list: seq<Address>)
    requires Linked(store, head, list)
    ensures AllIn(list, store)
    decreases |list|
  {
    if list != [] {
      LinkedIn(store, store[list[0]].nextTagBinding, list[1..]);
    }
  }

  /** A new declaration comes into force, whatever it hides. */
  lemma Declared(store: Store, sep: nat, bound: map<Prefix, Option<Address>>, scope: seq<Address>, b: Address,
                 new': Binding)
    requires Scoped(store, sep, bound, scope) && b !in scope
    requires new'.prevPrefixBinding == InForce(bound, new'.prefix)
    ensures Scoped(store[b := new'], sep, bound[new'.prefix := if Undeclares(new', sep) then None else Some(b)],
                   [b] + scope)
  {
    var store', bound' := store[b := new'], bound[new'.prefix := if Undeclares(new', sep) then None else Some(b)];
    ScopeStays(store, store', sep, bound, scope);
    assert ([b] + scope)[1..] == scope;
    forall p
      ensures InForce(bound', p) == Innermost(store', sep, [b] + scope, p)
    {
      assert InForce(bound, p) == Innermost(store', sep, scope, p);
    }
    forall i | 0 <= i < |scope| + 1
      ensures Remembers(store', sep, [b] + scope, i)
    {
      if i > 0 {
        assert Remembers(store', sep, scope, i - 1);
        assert ([b] + scope)[i + 1..] == scope[i..];
      }
    }
  }

  /** The end of the innermost declaration brings back what it hid. */
  lemma Undone(store: Store, sep: nat, bound: map<Prefix, Option<Address>>, scope: seq<Address>)
    requires Scoped(store, sep, bound, scope) && scope != []
    ensures scope[0] in store
    ensures Scoped(store, sep, bound[store[scope[0]].prefix := store[scope[0]].prevPrefixBinding], scope[1..])
  {
    assert Remembers(store, sep, scope, 0);
    var bound' := bound[store[scope[0]].prefix := store[scope[0]].prevPrefixBinding];
    forall p
      ensures InForce(bound', p) == Innermost(store, sep, scope[1..], p)
    {
      assert InForce(bound, p) == Innermost(store, sep, scope, p);
    }
    forall i | 0 <= i < |scope| - 1
      ensures Remembers(store, sep, scope[1..], i)
    {
      assert Remembers(store, sep, scope, i + 1);
      assert scope[1..][i + 1..] == scope[i + 2..];
    }
  }
}
