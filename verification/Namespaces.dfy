/** Namespace processing: the declarations of a tag, expanded names, and what the end of an element undoes. */
module Namespaces {
  import opened Errors
  import opened Bindings

  const EXPAND_SPARE := 24
  const XML_NAMESPACE := "http://www.w3.org/XML/1998/namespace"
  const XMLNS_NAMESPACE := "http://www.w3.org/2000/xmlns/"

  /** Where the name of a tag is kept: with the tag, or in the buffer of a binding. */
  datatype NamePointer = Own | Buffer(address: Address)

  /** `TAG_NAME`: the name as it stands in the document, and what is needed to expand it again. */
  datatype TagName = TagName(str: NamePointer, own: string, localPart: Option<string>, prefix: Prefix, uriLen: nat)

  datatype Tag = Tag(bindings: Option<Address>, name: TagName)

  /** A namespace declaration: `xmlns` or `xmlns:prefix`, and its value. */
  datatype Declaration = Declaration(prefix: Prefix, uri: string)

  type Buffers = map<Address, string>

  /**
   The open tags as the proof sees them: the list of each, the binding that has its name, the name its
   start was reported with, and the declarations in scope within it.
   */
  datatype View = View(list: seq<Address>, user: Option<Address>, start: string, env: seq<Declaration>)

  // ----- strings -----

  /** The string in a buffer: the characters before the first terminator. */
  function CString(s: string): string {
    if s == [] || s[0] == '\0' then [] else [s[0]] + CString(s[1..])
  }

  lemma {:induction false} CStringPrefix(a: string, b: string)
    requires '\0' in a
    ensures CString(a + b) == CString(a)
  {
    if a[0] != '\0' {
      assert (a + b)[1..] == a[1..] + b;
      CStringPrefix(a[1..], b);
    }
  }

  lemma {:induction false} CStringOf(a: string)
    requires '\0' !in a
    ensures CString(a + "\0") == a
  {
    if a != [] {
      assert (a + "\0")[1..] == a[1..] + "\0";
      CStringOf(a[1..]);
    }
  }

  function Overwrite(s: string, pos: nat, text: string): (r: string)
    requires pos + |text| <= |s|
    ensures |r| == |s| && r[pos..pos + |text|] == text && r[..pos] == s[..pos]
  {
    s[..pos] + text + s[pos + |text|..]
  }

  // ----- what a declaration may say -----

  /** The constraints of sections 3 and 6.2 of Namespaces in XML 1.0 on the names `xml` and `xmlns`. */
  function DeclarationError(d: Declaration): Option<Error> {
    if d.uri == "" && d.prefix.Some? then Some(UndeclaringPrefix)
    else if d.prefix == Some("xmlns") then Some(ReservedPrefixXmlns)
    else if (d.prefix == Some("xml")) != (d.uri == XML_NAMESPACE) then
      Some(if d.prefix == Some("xml") then ReservedPrefixXml else ReservedNamespaceUri)
    else if d.uri == XMLNS_NAMESPACE then Some(ReservedNamespaceUri)
    else None
  }

  // ----- invariants -----

  /** The separator given to `XML_ParserCreateNS`, which may be none, and whether prefixes are reported. */
  datatype Config = Config(separator: char, triplets: bool)

  /** The separator that follows a URI. */
  function Sep(c: Config): string { if c.separator != '\0' then [c.separator] else "" }

  /** What follows the URI in an expanded name, with its terminator. */
  function Tail(c: Config, local: string, prefix: Prefix): string {
    local + (if c.triplets && prefix.Some? then [c.separator] + prefix.value else "") + "\0"
  }

  /** The declared namespace of a binding and its separator are what the buffer of the binding begins with. */
  predicate UriOk(store: Store, buffers: Buffers, declared: map<Address, string>, a: Address) {
    && a in store && a in declared && store[a].uri in buffers
    && store[a].uriLen == |declared[a]| <= |buffers[store[a].uri]|
    && buffers[store[a].uri][..store[a].uriLen] == declared[a]
  }

  /** Every binding has a buffer of its own. */
  ghost predicate BuffersApart(store: Store, buffers: Buffers) {
    && (forall a :: a in store ==> store[a].uri in buffers)
    && (forall a, b :: a in store && b in store && a != b ==> store[a].uri != store[b].uri)
  }

  /** The declarations that the bindings stand for; URIs with the separator. */
  function EnvOf(store: Store, declared: map<Address, string>, scope: seq<Address>): seq<Declaration> {
    seq(|scope|, i requires 0 <= i < |scope| =>
      if scope[i] in store && scope[i] in declared then Declaration(store[scope[i]].prefix, declared[scope[i]])
      else Declaration(None, ""))
  }

  /** The name of an open tag can be rebuilt in the buffer of a binding that is in scope there. */
  predicate TagOk(store: Store, buffers: Buffers, declared: map<Address, string>, c: Config, name: TagName, v: View,
                  visible: seq<Address>) {
    && v.env == EnvOf(store, declared, visible)
    && match name.localPart
       case None => v.user == None && name.str == Own && v.start == name.own
       case Some(local) =>
         match v.user
         case None => false
         case Some(u) =>
           && u in visible && u in store && u in declared && store[u].uri in buffers
           && name.str == Buffer(store[u].uri) && name.uriLen == store[u].uriLen && name.prefix == store[u].prefix
           && store[u].uriLen + |Tail(c, local, name.prefix)| <= |buffers[store[u].uri]|
           && v.start == CString(declared[u] + Tail(c, local, name.prefix))
  }

  /** The bindings of all open tags, innermost first, and the inherited ones. */
  function Scope(views: seq<View>, inherited: seq<Address>): seq<Address> {
    if views == [] then inherited else views[|views| - 1].list + Scope(views[..|views| - 1], inherited)
  }

  predicate TagsOk(store: Store, buffers: Buffers, declared: map<Address, string>, c: Config,
                   tags: seq<Tag>, views: seq<View>, inherited: seq<Address>) {
    && |tags| == |views|
    && forall k :: 0 <= k < |tags| ==>
      && Linked(store, tags[k].bindings, views[k].list)
      && TagOk(store, buffers, declared, c, tags[k].name, views[k], Scope(views[..k + 1], inherited))
  }

  /** All fields of the parser that namespaces use, and what the proof keeps beside them. */
  datatype State = State(store: Store, buffers: Buffers, next: Address, bound: map<Prefix, Option<Address>>,
                         tagStack: seq<Tag>,
                         inheritedBindings: Option<Address>, freeBindingList: Option<Address>,
                         views: seq<View>, inherited: seq<Address>, free: seq<Address>, declared: map<Address, string>)

  function InScope(st: State, pending: seq<Address>): seq<Address> { pending + Scope(st.views, st.inherited) }

  /** No binding is lost, none is on two lists, and the prefixes are bound as the declarations in scope say. */
  ghost predicate GoodScope(c: Config, st: State, scope: seq<Address>) {
    && Distinct(st.free + scope) && (forall a :: a in st.store <==> a in st.free + scope)
    && Scoped(st.store, |Sep(c)|, st.bound, scope)
  }

  ghost predicate GoodBuffers(c: Config, st: State, scope: seq<Address>) {
    && BuffersApart(st.store, st.buffers) && (forall a :: a in scope ==> UriOk(st.store, st.buffers, st.declared, a))
    && TagsOk(st.store, st.buffers, st.declared, c, st.tagStack, st.views, st.inherited)
    && (forall a :: a in st.store || a in st.buffers ==> a < st.next)
  }

  predicate GoodLists(st: State) {
    Linked(st.store, st.freeBindingList, st.free) && Linked(st.store, st.inheritedBindings, st.inherited)
  }

  /** The invariant while the bindings `pending` have been declared by a tag that is being read. */
  ghost predicate Good(c: Config, st: State, pending: seq<Address>) {
    GoodLists(st) && GoodScope(c, st, InScope(st, pending)) && GoodBuffers(c, st, InScope(st, pending))
  }

  // ----- a new binding -----

  lemma {:induction false} ScopeHas(views: seq<View>, inherited: seq<Address>, k: nat)
    requires k < |views|
    ensures forall a :: a in views[k].list ==> a in Scope(views, inherited)
    ensures forall a :: a in Scope(views[..k + 1], inherited) ==> a in Scope(views, inherited)
    decreases |views|
  {
    var n := |views| - 1;
    if k < n {
      ScopeHas(views[..n], inherited, k);
      assert views[..n][..k + 1] == views[..k + 1];
    } else {
      assert views[..n + 1] == views;
    }
  }

  lemma {:induction false} InheritedInScope(views: seq<View>, inherited: seq<Address>)
    ensures forall a :: a in inherited ==> a in Scope(views, inherited)
    decreases |views|
  {
    if views != [] {
      InheritedInScope(views[..|views| - 1], inherited);
    }
  }

  /** Tags are as they were as long as the bindings in scope, and their buffers, are. */
  lemma TagsStay(st: State, st': State, c: Config)
    requires TagsOk(st.store, st.buffers, st.declared, c, st.tagStack, st.views, st.inherited)
    requires st'.tagStack == st.tagStack && st'.views == st.views && st'.inherited == st.inherited
    requires forall a :: a in Scope(st.views, st.inherited) ==>
      Untouched(st, st', a) && a in st.store && a in st.declared
    ensures TagsOk(st'.store, st'.buffers, st'.declared, c, st'.tagStack, st'.views, st'.inherited)
  {
    forall k | 0 <= k < |st.tagStack|
      ensures Linked(st'.store, st.tagStack[k].bindings, st.views[k].list)
      ensures TagOk(st'.store, st'.buffers, st'.declared, c, st.tagStack[k].name, st.views[k],
                    Scope(st.views[..k + 1], st.inherited))
    {
      ScopeHas(st.views, st.inherited, k);
      ListStays(st, st', st.tagStack[k].bindings, st.views[k].list);
      var v := st.views[k];
      assert TagOk(st.store, st.buffers, st.declared, c, st.tagStack[k].name, v,
                   Scope(st.views[..k + 1], st.inherited));
      if v.user.Some? { assert v.user.value in Scope(st.views, st.inherited); }
      EnvStays(st, st', Scope(st.views[..k + 1], st.inherited));
    }
  }

  lemma AreThere(st: State, scope: seq<Address>)
    requires forall a :: a in scope ==> UriOk(st.store, st.buffers, st.declared, a)
    ensures forall a :: a in scope ==> a in st.store && a in st.declared
  {
  }

  lemma EnvStays(st: State, st': State, scope: seq<Address>)
    requires forall a :: a in scope ==> Untouched(st, st', a) && a in st.store && a in st.declared
    ensures EnvOf(st'.store, st'.declared, scope) == EnvOf(st.store, st.declared, scope)
  {
    forall i | 0 <= i < |scope|
      ensures EnvOf(st'.store, st'.declared, scope)[i] == EnvOf(st.store, st.declared, scope)[i]
    {
      assert scope[i] in scope;
    }
  }

  lemma ListStays(st: State, st': State, head: Option<Address>, list: seq<Address>)
    requires Linked(st.store, head, list) && forall a :: a in list ==> Untouched(st, st', a)
    ensures Linked(st'.store, head, list)
  {
    LinkedIn(st.store, head, list);
    assert forall i :: 0 <= i < |list| ==> list[i] in list;
    LinkStays(st.store, st'.store, head, list);
  }

  /** The binding, its URI and the room in its buffer are as they were. */
  predicate Untouched(st: State, st': State, a: Address) {
    && (a in st.store ==> a in st'.store && st'.store[a] == st.store[a])
    && (a in st.declared ==> a in st'.declared && st'.declared[a] == st.declared[a])
    && (a in st.store && st.store[a].uri in st.buffers ==>
          st.store[a].uri in st'.buffers && st'.buffers[st.store[a].uri] == st.buffers[st.store[a].uri])
  }

  /** What `addBinding` does: a binding that was free or is new comes into force for its prefix. */
  ghost predicate Adds(c: Config, st: State, st': State, head: Option<Address>, b: Address) {
    && st'.tagStack == st.tagStack && st'.views == st.views && st'.inherited == st.inherited
    && st'.inheritedBindings == st.inheritedBindings
    && (if b in st.store then st.free != [] && st.free[0] == b && st'.free == st.free[1..]
        && st'.freeBindingList == st.store[b].nextTagBinding
        else st'.free == st.free && st'.freeBindingList == st.freeBindingList)
    && b in st'.store && st'.store == st.store[b := st'.store[b]]
    && st'.store[b].nextTagBinding == head && st'.store[b].prevPrefixBinding == InForce(st.bound, st'.store[b].prefix)
    && st'.bound == st.bound[st'.store[b].prefix := if Undeclares(st'.store[b], |Sep(c)|) then None else Some(b)]
    && UriOk(st'.store, st'.buffers, st'.declared, b) && st'.declared == st.declared[b := st'.declared[b]]
    && (forall a :: a in st.store && a != b ==> Untouched(st, st', a) && st.store[a].uri != st'.store[b].uri)
    && (forall a :: a in st'.store || a in st'.buffers ==> a < st'.next)
  }

  lemma Added(c: Config, st: State, st': State, pending: seq<Address>, head: Option<Address>, b: Address)
    requires Good(c, st, pending) && Linked(st.store, head, pending) && Adds(c, st, st', head, b)
    ensures Good(c, st', [b] + pending) && Linked(st'.store, Some(b), [b] + pending)
  {
    hide GoodLists, GoodScope, GoodBuffers, Linked, Scope;
    var scope := InScope(st, pending);
    assert InScope(st', [b] + pending) == [b] + scope by {
      hide *;
      InScopeIs(st, st', pending, b, head, c);
    }
    AddedScope(c, st, st', scope, head, b);
    InScopeHas(st, pending);
    ScopeIn(c, st, pending);
    AddedBuffers(c, st, st', scope, head, b);
    AddedLists(c, st, st', pending, head, b);
  }

  lemma InScopeIs(st: State, st': State, pending: seq<Address>, b: Address, head: Option<Address>, c: Config)
    requires Adds(c, st, st', head, b)
    ensures InScope(st', [b] + pending) == [b] + InScope(st, pending)
  {
    assert [b] + pending + Scope(st.views, st.inherited) == [b] + (pending + Scope(st.views, st.inherited));
  }

  lemma InScopeHas(st: State, pending: seq<Address>)
    ensures forall a :: a in Scope(st.views, st.inherited) || a in pending || a in st.inherited ==>
      a in InScope(st, pending)
  {
    InheritedInScope(st.views, st.inherited);
  }

  lemma AddedScope(c: Config, st: State, st': State, scope: seq<Address>, head: Option<Address>, b: Address)
    requires GoodScope(c, st, scope) && Adds(c, st, st', head, b)
    ensures b !in scope && b !in st'.free && GoodScope(c, st', [b] + scope)
  {
    hide UriOk, Untouched, Scoped, Undeclares, Distinct;
    if b in st.store { assert st.free == [b] + st'.free; }
    FreeMoved(st.free, scope, b, st'.free);
    Declared(st.store, |Sep(c)|, st.bound, scope, b, st'.store[b]);
  }

  lemma AddedBuffers(c: Config, st: State, st': State, scope: seq<Address>, head: Option<Address>, b: Address)
    requires GoodBuffers(c, st, scope) && Adds(c, st, st', head, b) && b !in scope && AllIn(scope, st.store)
    requires forall a :: a in Scope(st.views, st.inherited) ==> a in scope
    ensures GoodBuffers(c, st', [b] + scope)
  {
    hide TagsOk, Undeclares, InForce, UriOk;
    AreThere(st, scope);
    TagsStay(st, st', c);
    UrisStay(st, st', scope);
    forall x, y | x in st'.store && y in st'.store && x != y
      ensures st'.store[x].uri != st'.store[y].uri
    {
      if x != b { assert Untouched(st, st', x); }
      if y != b { assert Untouched(st, st', y); }
    }
    BuffersThere(c, st, st', head, b);
  }

  lemma BuffersThere(c: Config, st: State, st': State, head: Option<Address>, b: Address)
    requires Adds(c, st, st', head, b) && BuffersApart(st.store, st.buffers)
    ensures forall a :: a in st'.store ==> st'.store[a].uri in st'.buffers
  {
    forall a | a in st'.store
      ensures st'.store[a].uri in st'.buffers
    {
      if a != b { assert Untouched(st, st', a); }
    }
  }

  lemma AddedLists(c: Config, st: State, st': State, pending: seq<Address>, head: Option<Address>, b: Address)
    requires GoodLists(st) && Linked(st.store, head, pending) && Adds(c, st, st', head, b)
    requires b !in InScope(st, pending) && b !in st'.free && AllIn(st.free, st.store)
    requires AllIn(InScope(st, pending), st.store)
    ensures GoodLists(st') && Linked(st'.store, Some(b), [b] + pending)
  {
    hide Undeclares, InForce, UriOk;
    InScopeHas(st, pending);
    ListStays(st, st', st.inheritedBindings, st.inherited);
    ListStays(st, st', head, pending);
    FreeStays(st, st', b);
    ListGrows(st'.store, head, pending, b);
  }

  lemma ListGrows(store: Store, head: Option<Address>, list: seq<Address>, b: Address)
    requires Linked(store, head, list) && b in store && store[b].nextTagBinding == head
    ensures Linked(store, Some(b), [b] + list)
  {
    assert ([b] + list)[1..] == list;
  }

  /** The free list without the binding that was taken. */
  lemma FreeMoved(free: seq<Address>, scope: seq<Address>, b: Address, free': seq<Address>)
    requires Distinct(free + scope)
    requires if b in free + scope then free != [] && free == [b] + free' else free' == free
    ensures b !in scope && b !in free' && Distinct(free' + ([b] + scope))
    ensures forall a :: a in free' + ([b] + scope) <==> a == b || a in free + scope
  {
    var all := multiset(free + scope);
    assert all == multiset(free) + multiset(scope);
    if b in free + scope {
      assert all == multiset{b} + multiset(free') + multiset(scope) && all[b] == 1;
    }
    assert multiset(free' + ([b] + scope)) == multiset(free') + (multiset{b} + multiset(scope));
    forall a | a in free' + ([b] + scope)
      ensures multiset(free' + ([b] + scope))[a] == 1
    {
      if a != b { assert a in free + scope && all[a] == 1; }
    }
  }

  lemma ScopeIn(c: Config, st: State, pending: seq<Address>)
    requires Good(c, st, pending)
    ensures AllIn(InScope(st, pending), st.store) && AllIn(st.free, st.store)
  {
    hide GoodBuffers, GoodLists, Scoped;
  }

  lemma FreeStays(st: State, st': State, b: Address)
    requires Linked(st.store, st.freeBindingList, st.free) && AllIn(st.free, st.store)
    requires b in st'.store && st'.store == st.store[b := st'.store[b]]
    requires if b in st.store then st.free != [] && st.free[0] == b && st'.free == st.free[1..]
      && st'.freeBindingList == st.store[b].nextTagBinding
             else st'.free == st.free && st'.freeBindingList == st.freeBindingList
    requires b !in st'.free
    ensures Linked(st'.store, st'.freeBindingList, st'.free)
  {
    LinkStays(st.store, st'.store, st'.freeBindingList, st'.free);
  }

  lemma UrisStay(st: State, st': State, scope: seq<Address>)
    requires forall a :: a in scope ==> UriOk(st.store, st.buffers, st.declared, a) && Untouched(st, st', a)
    ensures forall a :: a in scope ==> UriOk(st'.store, st'.buffers, st'.declared, a)
  {
  }

  // ----- bindings and tags come and go -----

  /** What the end of an element does to its first binding: it is free, and what it hid is in force again. */
  ghost predicate Frees(st: State, st': State, b: Address) {
    && b in st.store && st'.store == st.store[b := st.store[b].(nextTagBinding := st.freeBindingList)]
    && st'.freeBindingList == Some(b) && st'.free == [b] + st.free
    && st'.bound == st.bound[st.store[b].prefix := st.store[b].prevPrefixBinding]
    && st'.buffers == st.buffers && st'.next == st.next && st'.declared == st.declared
    && st'.tagStack == st.tagStack && st'.views == st.views && st'.inherited == st.inherited
    && st'.inheritedBindings == st.inheritedBindings
  }

  lemma Freed(c: Config, st: State, st': State, pending: seq<Address>, head: Option<Address>)
    requires Good(c, st, pending) && Linked(st.store, head, pending) && pending != [] && Frees(st, st', pending[0])
    ensures Good(c, st', pending[1..]) && Linked(st'.store, st.store[pending[0]].nextTagBinding, pending[1..])
  {
    hide GoodLists, GoodScope, GoodBuffers, Frees;
    var b, rest := pending[0], pending[1..];
    assert pending + Scope(st.views, st.inherited) == [b] + (rest + Scope(st.views, st.inherited));
    SameTags(st, st', b);
    ScopeIn(c, st, pending);
    FreedScope(c, st, st', InScope(st, rest), b);
    InScopeHas(st, rest);
    assert forall i :: 0 <= i < |InScope(st, rest)| ==> InScope(st, rest)[i] == InScope(st, pending)[i + 1];
    FreedBuffers(c, st, st', InScope(st, rest), b);
    FreedLists(st, st', InScope(st, rest), b, rest);
  }

  lemma SameTags(st: State, st': State, b: Address)
    requires Frees(st, st', b)
    ensures st'.views == st.views && st'.inherited == st.inherited
  {
  }

  lemma FreedScope(c: Config, st: State, st': State, scope: seq<Address>, b: Address)
    requires GoodScope(c, st, [b] + scope) && Frees(st, st', b)
    ensures b !in scope && b !in st.free && GoodScope(c, st', scope)
  {
    hide Distinct, Scoped;
    FreedOne(st.free, scope, b);
    var sep := |Sep(c)|;
    AllScoped(st, sep, [b] + scope);
    ScopeStays(st.store, st'.store, sep, st.bound, [b] + scope);
    Undone(st'.store, sep, st.bound, [b] + scope);
    assert ([b] + scope)[1..] == scope;
  }

  lemma AllScoped(st: State, sep: nat, scope: seq<Address>)
    requires Scoped(st.store, sep, st.bound, scope)
    ensures AllIn(scope, st.store)
  {
  }

  lemma FreedOne(free: seq<Address>, scope: seq<Address>, b: Address)
    requires Distinct(free + ([b] + scope))
    ensures b !in scope && b !in free && Distinct([b] + free + scope)
    ensures forall a :: a in [b] + free + scope <==> a in free + ([b] + scope)
  {
    var all := multiset(free + ([b] + scope));
    assert all == multiset(free) + multiset{b} + multiset(scope) == multiset([b] + free + scope);
    assert b in free + ([b] + scope) && all[b] == 1;
    forall a | a in [b] + free + scope
      ensures multiset([b] + free + scope)[a] == 1
    {
      assert a in free + ([b] + scope);
    }
  }

  lemma FreedBuffers(c: Config, st: State, st': State, scope: seq<Address>, b: Address)
    requires GoodBuffers(c, st, [b] + scope) && Frees(st, st', b) && b !in scope && AllIn(scope, st.store)
    requires forall a :: a in Scope(st.views, st.inherited) ==> a in scope
    ensures GoodBuffers(c, st', scope)
  {
    hide TagsOk, UriOk;
    AreThere(st, scope);
    TagsStay(st, st', c);
    UrisStay(st, st', scope);
  }

  lemma FreedLists(st: State, st': State, scope: seq<Address>, b: Address, rest: seq<Address>)
    requires GoodLists(st) && Frees(st, st', b) && b !in scope && b !in st.free && AllIn(st.free, st.store)
    requires forall a :: a in rest || a in st.inherited ==> a in scope
    requires Linked(st.store, st.store[b].nextTagBinding, rest)
    ensures GoodLists(st') && Linked(st'.store, st.store[b].nextTagBinding, rest)
  {
    ListStays(st, st', st.inheritedBindings, st.inherited);
    ListStays(st, st', st.store[b].nextTagBinding, rest);
    LinkStays(st.store, st'.store, st.freeBindingList, st.free);
    ListGrows(st'.store, st.freeBindingList, st.free, b);
  }

  function NewTag(own: string): Tag { Tag(None, TagName(Own, own, None, None, 0)) }

  /** A tag is open; it has no bindings yet, and its name is its own. */
  function PushTag(st: State, own: string): State {
    st.(tagStack := st.tagStack + [NewTag(own)],
        views := st.views + [View([], None, own, EnvOf(st.store, st.declared, Scope(st.views, st.inherited)))])
  }

  lemma ScopePushed(views: seq<View>, inherited: seq<Address>, v: View)
    ensures Scope(views + [v], inherited) == v.list + Scope(views, inherited)
  {
    assert (views + [v])[..|views|] == views;
  }

  lemma TagPushed(c: Config, st: State, pending: seq<Address>, own: string)
    requires Good(c, st, pending)
    ensures Good(c, PushTag(st, own), pending) && InScope(PushTag(st, own), pending) == InScope(st, pending)
  {
    hide Scoped, UriOk, TagsOk, Distinct, BuffersApart, Scope;
    ScopePushed(st.views, st.inherited, PushTag(st, own).views[|st.views|]);
    assert [] + Scope(st.views, st.inherited) == Scope(st.views, st.inherited);
    TagsPushed(c, st, own);
  }

  lemma TagsPushed(c: Config, st: State, own: string)
    requires TagsOk(st.store, st.buffers, st.declared, c, st.tagStack, st.views, st.inherited)
    ensures var st' := PushTag(st, own); TagsOk(st.store, st.buffers, st.declared, c, st'.tagStack, st'.views,
                                                st.inherited)
  {
    var st' := PushTag(st, own);
    forall k | 0 <= k < |st'.tagStack|
      ensures Linked(st.store, st'.tagStack[k].bindings, st'.views[k].list)
      ensures TagOk(st.store, st.buffers, st.declared, c, st'.tagStack[k].name, st'.views[k],
                    Scope(st'.views[..k + 1], st.inherited))
    {
      if k < |st.tagStack| {
        assert st'.views[..k + 1] == st.views[..k + 1];
      } else {
        assert st'.views[..k + 1] == st'.views;
        ScopePushed(st.views, st.inherited, st'.views[k]);
        assert [] + Scope(st.views, st.inherited) == Scope(st.views, st.inherited);
      }
    }
  }

  /** The innermost tag gets its bindings and its name. */
  function NameTag(st: State, head: Option<Address>, name: TagName, v: View): State
    requires st.tagStack != [] && st.views != []
  {
    st.(tagStack := st.tagStack[..|st.tagStack| - 1] + [Tag(head, name)], views := st.views[..|st.views| - 1] + [v])
  }

  lemma TagNamed(c: Config, st: State, pending: seq<Address>, head: Option<Address>, name: TagName, v: View)
    requires Good(c, st, pending) && Linked(st.store, head, pending)
    requires st.tagStack != [] && |st.views| == |st.tagStack| && st.views[|st.views| - 1].list == []
    requires TagOk(st.store, st.buffers, st.declared, c, name, v, InScope(st, pending)) && v.list == pending
    ensures var st' := NameTag(st, head, name, v);
      Good(c, st', []) && InScope(st', []) == InScope(st, pending)
  {
    hide GoodLists, GoodScope, GoodBuffers, TagOk, EnvOf;
    NamedScope(st, pending, head, name, v);
    NamedParts(c, st, NameTag(st, head, name, v), InScope(st, pending));
    NamedBuffers(c, st, pending, head, name, v);
  }

  lemma NamedScope(st: State, pending: seq<Address>, head: Option<Address>, name: TagName, v: View)
    requires st.tagStack != [] && |st.views| == |st.tagStack| && st.views[|st.views| - 1].list == []
    requires v.list == pending
    ensures InScope(NameTag(st, head, name, v), [])
      == InScope(st, pending) == pending + Scope(st.views[..|st.views| - 1], st.inherited)
  {
    hide Scope;
    var outer := st.views[..|st.views| - 1];
    var st' := NameTag(st, head, name, v);
    ScopePushed(outer, st.inherited, v);
    ScopePushed(outer, st.inherited, st.views[|st.views| - 1]);
    assert outer + [st.views[|st.views| - 1]] == st.views;
    assert [] + Scope(outer, st.inherited) == Scope(outer, st.inherited);
    assert [] + Scope(st'.views, st.inherited) == Scope(st'.views, st.inherited);
  }

  lemma NamedParts(c: Config, st: State, st': State, scope: seq<Address>)
    requires st' == st.(tagStack := st'.tagStack, views := st'.views)
    ensures GoodLists(st) ==> GoodLists(st')
    ensures GoodScope(c, st, scope) ==> GoodScope(c, st', scope)
  {
    hide Scoped, Distinct, Linked;
  }

  lemma NamedBuffers(c: Config, st: State, pending: seq<Address>, head: Option<Address>, name: TagName, v: View)
    requires GoodBuffers(c, st, InScope(st, pending)) && Linked(st.store, head, pending)
    requires st.tagStack != [] && |st.views| == |st.tagStack| && st.views[|st.views| - 1].list == []
    requires v.list == pending
    requires TagOk(st.store, st.buffers, st.declared, c, name, v, InScope(st, pending))
    ensures GoodBuffers(c, NameTag(st, head, name, v), InScope(st, pending))
  {
    hide UriOk, TagsOk, TagOk, EnvOf, InScope, Linked;
    NamedScope(st, pending, head, name, v);
    TagsNamed(c, st, pending, head, name, v);
  }

  lemma TagsNamed(c: Config, st: State, pending: seq<Address>, head: Option<Address>, name: TagName, v: View)
    requires TagsOk(st.store, st.buffers, st.declared, c, st.tagStack, st.views, st.inherited)
    requires Linked(st.store, head, pending)
    requires st.tagStack != [] && |st.views| == |st.tagStack| && v.list == pending
    requires TagOk(st.store, st.buffers, st.declared, c, name, v,
                   pending + Scope(st.views[..|st.views| - 1], st.inherited))
    ensures var st' := NameTag(st, head, name, v); TagsOk(st.store, st.buffers, st.declared, c, st'.tagStack, st'.views,
                                                          st.inherited)
  {
    hide Linked, TagOk, Scope;
    var st' := NameTag(st, head, name, v);
    var n := |st.tagStack| - 1;
    forall k | 0 <= k <= n
      ensures Linked(st.store, st'.tagStack[k].bindings, st'.views[k].list)
      ensures TagOk(st.store, st.buffers, st.declared, c, st'.tagStack[k].name, st'.views[k],
                    Scope(st'.views[..k + 1], st.inherited))
    {
      if k < n {
        assert st'.views[..k + 1] == st.views[..k + 1];
      } else {
        ScopePushed(st.views[..n], st.inherited, v);
        assert st'.views[..n + 1] == st.views[..n] + [v];
      }
    }
  }

  /** The innermost tag is closed; its bindings are still in scope. */
  function PopTag(st: State): State
    requires st.tagStack != [] && st.views != []
  {
    st.(tagStack := st.tagStack[..|st.tagStack| - 1], views := st.views[..|st.views| - 1])
  }

  lemma TagPopped(c: Config, st: State)
    requires Good(c, st, []) && st.tagStack != []
    ensures |st.views| == |st.tagStack|
    ensures var n := |st.tagStack| - 1;
      && Good(c, PopTag(st), st.views[n].list) && Linked(st.store, st.tagStack[n].bindings, st.views[n].list)
      && InScope(PopTag(st), st.views[n].list) == InScope(st, [])
      && TagOk(st.store, st.buffers, st.declared, c, st.tagStack[n].name, st.views[n], InScope(st, []))
  {
    hide Scoped, UriOk, TagsOk, Distinct, BuffersApart, Scope, TagOk, EnvOf;
    LastTag(c, st);
    var n := |st.tagStack| - 1;
    ScopePushed(st.views[..n], st.inherited, st.views[n]);
    assert st.views[..n] + [st.views[n]] == st.views;
    assert [] + Scope(st.views, st.inherited) == Scope(st.views, st.inherited);
  }

  lemma LastTag(c: Config, st: State)
    requires TagsOk(st.store, st.buffers, st.declared, c, st.tagStack, st.views, st.inherited) && st.tagStack != []
    ensures |st.views| == |st.tagStack|
    ensures var n := |st.tagStack| - 1;
      && TagsOk(st.store, st.buffers, st.declared, c, st.tagStack[..n], st.views[..n], st.inherited)
      && Linked(st.store, st.tagStack[n].bindings, st.views[n].list)
      && TagOk(st.store, st.buffers, st.declared, c, st.tagStack[n].name, st.views[n], Scope(st.views, st.inherited))
  {
    hide TagOk;
    var n := |st.tagStack| - 1;
    assert st.views[..n + 1] == st.views;
    forall k | 0 <= k < n
      ensures Linked(st.store, st.tagStack[k].bindings, st.views[k].list)
      ensures TagOk(st.store, st.buffers, st.declared, c, st.tagStack[k].name, st.views[k],
                    Scope(st.views[..n][..k + 1], st.inherited))
    {
      assert st.views[..n][..k + 1] == st.views[..k + 1];
    }
  }

  // ----- buffers are written -----

  /** Only what stands behind URIs has been written, and no buffer is shorter. */
  ghost predicate Written(st: State, st': State, scope: seq<Address>) {
    && st' == st.(buffers := st'.buffers) && st'.buffers.Keys == st.buffers.Keys
    && forall a ::
      && a in scope && a in st.store && st.store[a].uri in st.buffers
      && st.store[a].uriLen <= |st.buffers[st.store[a].uri]| ==>
      BehindUri(st.buffers[st.store[a].uri], st'.buffers[st.store[a].uri], st.store[a].uriLen)
  }

  predicate BehindUri(before: string, after: string, uriLen: nat) {
    uriLen <= |before| == |after| && after[..uriLen] == before[..uriLen]
  }

  lemma BufferWritten(c: Config, st: State, st': State, pending: seq<Address>)
    requires Good(c, st, pending) && Written(st, st', InScope(st, pending))
    ensures Good(c, st', pending)
  {
    hide Scoped, Distinct, Linked, Scope;
    var scope := InScope(st, pending);
    InScopeHas(st, pending);
    forall a | a in scope
      ensures UriOk(st'.store, st'.buffers, st'.declared, a)
    {
      assert UriOk(st.store, st.buffers, st.declared, a);
    }
    TagsWritten(c, st, st', scope);
  }

  lemma TagsWritten(c: Config, st: State, st': State, scope: seq<Address>)
    requires TagsOk(st.store, st.buffers, st.declared, c, st.tagStack, st.views, st.inherited)
    requires Written(st, st', scope) && forall a :: a in Scope(st.views, st.inherited) ==> a in scope
    ensures TagsOk(st.store, st'.buffers, st.declared, c, st.tagStack, st.views, st.inherited)
  {
    forall k | 0 <= k < |st.tagStack|
      ensures TagOk(st.store, st'.buffers, st.declared, c, st.tagStack[k].name, st.views[k],
                    Scope(st.views[..k + 1], st.inherited))
    {
      ScopeHas(st.views, st.inherited, k);
      var v := st.views[k];
      assert TagOk(st.store, st.buffers, st.declared, c, st.tagStack[k].name, v,
                   Scope(st.views[..k + 1], st.inherited));
      if v.user.Some? { assert v.user.value in Scope(st.views, st.inherited); }
    }
  }

  // ----- a buffer moves -----

  function Repaired(t: Tag, old': Address, new': Address): Tag {
    if t.name.str == Buffer(old') then t.(name := t.name.(str := Buffer(new'))) else t
  }

  /** The buffer of `b` is replaced by a larger one, and the names that were in it are found there. */
  ghost predicate Moves(st: State, st': State, b: Address) {
    && b in st.store && b in st'.store && st.store[b].uri in st.buffers
    && st'.store == st.store[b := st.store[b].(uri := st'.store[b].uri)]
    && var u, u' := st.store[b].uri, st'.store[b].uri;
    && u' >= st.next && st'.next > u' && u' in st'.buffers && st'.buffers == (st.buffers - {u})[u' := st'.buffers[u']]
    && |st'.buffers[u']| >= |st.buffers[u]| >= st.store[b].uriLen
    && st'.buffers[u'][..st.store[b].uriLen] == st.buffers[u][..st.store[b].uriLen]
    && |st'.tagStack| == |st.tagStack|
    && (forall k :: 0 <= k < |st.tagStack| ==> st'.tagStack[k] == Repaired(st.tagStack[k], u, u'))
    && st' == st.(store := st'.store, buffers := st'.buffers, next := st'.next, tagStack := st'.tagStack)
  }

  lemma Moved(c: Config, st: State, st': State, pending: seq<Address>, b: Address)
    requires Good(c, st, pending) && b in InScope(st, pending) && Moves(st, st', b)
    ensures Good(c, st', pending) && InScope(st', pending) == InScope(st, pending)
  {
    hide GoodLists, GoodScope, GoodBuffers;
    var scope := InScope(st, pending);
    InScopeHas(st, pending);
    MovedScope(c, st, st', scope, b);
    MovedLists(st, st', b);
    MovedBuffers(c, st, st', scope, b);
  }

  lemma MovedScope(c: Config, st: State, st': State, scope: seq<Address>, b: Address)
    requires GoodScope(c, st, scope) && Moves(st, st', b)
    ensures GoodScope(c, st', scope)
  {
    hide Distinct;
    ScopeStays(st.store, st'.store, |Sep(c)|, st.bound, scope);
  }

  lemma MovedLists(st: State, st': State, b: Address)
    requires GoodLists(st) && Moves(st, st', b)
    ensures GoodLists(st')
  {
    LinkedIn(st.store, st.freeBindingList, st.free);
    LinkedIn(st.store, st.inheritedBindings, st.inherited);
    LinkStays(st.store, st'.store, st.freeBindingList, st.free);
    LinkStays(st.store, st'.store, st.inheritedBindings, st.inherited);
  }

  lemma MovedBuffers(c: Config, st: State, st': State, scope: seq<Address>, b: Address)
    requires GoodBuffers(c, st, scope) && Moves(st, st', b) && b in scope
    requires forall a :: a in Scope(st.views, st.inherited) ==> a in scope
    ensures GoodBuffers(c, st', scope)
  {
    hide TagOk, Linked, Scope;
    forall a | a in scope
      ensures UriOk(st'.store, st'.buffers, st'.declared, a)
    {
      assert UriOk(st.store, st.buffers, st.declared, a);
    }
    forall k | 0 <= k < |st.tagStack|
      ensures Linked(st'.store, st'.tagStack[k].bindings, st.views[k].list)
      ensures TagOk(st'.store, st'.buffers, st.declared, c, st'.tagStack[k].name, st.views[k],
                    Scope(st.views[..k + 1], st.inherited))
    {
      LinkedIn(st.store, st.tagStack[k].bindings, st.views[k].list);
      LinkStays(st.store, st'.store, st.tagStack[k].bindings, st.views[k].list);
      TagMoved(c, st, st', b, st.tagStack[k], st.views[k], Scope(st.views[..k + 1], st.inherited));
    }
  }

  lemma TagMoved(c: Config, st: State, st': State, b: Address, t: Tag, v: View, visible: seq<Address>)
    requires TagOk(st.store, st.buffers, st.declared, c, t.name, v, visible)
    requires BuffersApart(st.store, st.buffers) && Moves(st, st', b) && forall a :: a in st.buffers ==> a < st.next
    ensures TagOk(st'.store, st'.buffers, st.declared, c, Repaired(t, st.store[b].uri, st'.store[b].uri).name, v,
                  visible)
  {
  }

  // ----- expanded names -----

  /** The namespace of a prefix where these declarations are in scope, innermost first: URIs with the separator. */
  function UriOf(c: Config, env: seq<Declaration>, p: Prefix): Option<string> {
    if env == [] then None
    else if env[0].prefix == p then (if p == None && |env[0].uri| == |Sep(c)| then None else Some(env[0].uri))
    else UriOf(c, env[1..], p)
  }

  function Colon(name: string): (i: nat)
    ensures i <= |name|
  {
    if name == [] || name[0] == ':' then 0 else 1 + Colon(name[1..])
  }

  function PrefixOf(name: string): Prefix { if Colon(name) < |name| then Some(name[..Colon(name)]) else None }

  function LocalPart(name: string): string { if Colon(name) < |name| then name[Colon(name) + 1..] else name }

  /** The name an element is reported with: section 6.2 of Namespaces in XML 1.0. */
  function Expanded(c: Config, env: seq<Declaration>, name: string): Result<string> {
    match UriOf(c, env, PrefixOf(name))
    case Some(uri) => Ok(CString(uri + Tail(c, LocalPart(name), PrefixOf(name))))
    case None => if PrefixOf(name).Some? then Err(UnboundPrefix) else Ok(name)
  }

  /** Without terminators among its parts, it is the URI, the local part and perhaps the prefix. */
  lemma ExpandedIs(c: Config, env: seq<Declaration>, name: string)
    requires UriOf(c, env, PrefixOf(name)).Some? && c.separator != '\0'
    requires '\0' !in UriOf(c, env, PrefixOf(name)).value && '\0' !in name
    ensures Expanded(c, env, name) == Ok(UriOf(c, env, PrefixOf(name)).value + LocalPart(name)
      + if c.triplets && PrefixOf(name).Some? then [c.separator] + PrefixOf(name).value else "")
  {
    var all := UriOf(c, env, PrefixOf(name)).value + LocalPart(name)
      + if c.triplets && PrefixOf(name).Some? then [c.separator] + PrefixOf(name).value else "";
    assert UriOf(c, env, PrefixOf(name)).value + Tail(c, LocalPart(name), PrefixOf(name)) == all + "\0";
    CStringOf(all);
  }

  /** What a prefix points to is the declaration in scope. */
  lemma {:induction false} InnermostUri(c: Config, st: State, scope: seq<Address>, p: Prefix)
    requires AllIn(scope, st.store) && forall a :: a in scope ==> UriOk(st.store, st.buffers, st.declared, a)
    ensures match Innermost(st.store, |Sep(c)|, scope, p)
      case None =>
        UriOf(c, EnvOf(st.store, st.declared, scope), p) == None
      case Some(b) =>
        && b in scope && b in st.store && b in st.declared && st.store[b].prefix == p
        && UriOf(c, EnvOf(st.store, st.declared, scope), p) == Some(st.declared[b])
    decreases |scope|
  {
    if scope != [] {
      assert UriOk(st.store, st.buffers, st.declared, scope[0]);
      assert EnvOf(st.store, st.declared, scope)[1..] == EnvOf(st.store, st.declared, scope[1..]);
      InnermostUri(c, st, scope[1..], p);
    }
  }

  lemma InForceUri(c: Config, st: State, pending: seq<Address>, p: Prefix)
    requires Good(c, st, pending)
    ensures match InForce(st.bound, p)
      case None =>
        UriOf(c, EnvOf(st.store, st.declared, InScope(st, pending)), p) == None
      case Some(b) =>
        && b in InScope(st, pending) && b in st.store && b in st.declared && st.store[b].prefix == p
        && UriOk(st.store, st.buffers, st.declared, b)
        && UriOf(c, EnvOf(st.store, st.declared, InScope(st, pending)), p) == Some(st.declared[b])
  {
    hide EnvOf, TagsOk, UriOk, UriOf, Linked;
    InnermostUri(c, st, InScope(st, pending), p);
    assert InForce(st.bound, p) == Innermost(st.store, |Sep(c)|, InScope(st, pending), p);
  }

  // ----- the parser -----

  class Namespaces {
    const config: Config
    /** `BINDING` objects and URI buffers by address, and the address to be used next. */
    var store: Store
    var buffers: Buffers
    var next: Address
    /** `prefix->binding` */
    var bound: map<Prefix, Option<Address>>
    var tagStack: seq<Tag>
    var inheritedBindings: Option<Address>
    var freeBindingList: Option<Address>
    ghost var views: seq<View>
    ghost var inherited: seq<Address>
    ghost var free: seq<Address>
    /** The URI each binding was declared with, and the separator. */
    ghost var declared: map<Address, string>

    ghost function Now(): State
      reads this
    {
      State(store, buffers, next, bound, tagStack, inheritedBindings, freeBindingList, views, inherited, free, declared)
    }

    ghost predicate Valid()
      reads this
    {
      Good(config, Now(), [])
    }

    constructor (config: Config)
      ensures this.config == config
      ensures Valid() && tagStack == [] && views == [] && inherited == []
    {
      this.config := config;
      store, buffers, next, bound := map[], map[], 0, map[];
      tagStack, inheritedBindings, freeBindingList := [], None, None;
      views, inherited, free, declared := [], [], [], map[];
    }

    /** `malloc` for a buffer that begins with `text`. */
    method Allocate(size: nat, text: string) returns (a: Address)
      requires |text| <= size
      modifies `buffers, `next
      ensures a == old(next) && next == old(next) + 1 && a in buffers
      ensures |buffers[a]| == size && buffers[a][..|text|] == text && buffers == old(buffers)[a := buffers[a]]
    {
      a := next;
      next := next + 1;
      buffers := buffers[a := text + seq(size - |text|, _ => '\0')];
    }

    /** Copies characters into a buffer, one by one. */
    method CopyTo(a: Address, pos: nat, text: string) returns (end: nat)
      requires a in buffers && pos + |text| <= |buffers[a]|
      modifies `buffers
      ensures end == pos + |text| && buffers == old(buffers)[a := Overwrite(old(buffers)[a], pos, text)]
    {
      end := pos;
      var i := 0;
      assert Overwrite(old(buffers)[a], pos, text[..0]) == buffers[a];
      while i < |text|
        invariant 0 <= i <= |text| && end == pos + i && a in buffers && |buffers[a]| == |old(buffers)[a]|
        invariant buffers == old(buffers)[a := Overwrite(old(buffers)[a], pos, text[..i])]
      {
        assert Overwrite(old(buffers)[a], pos, text[..i])[end := text[i]]
          == Overwrite(old(buffers)[a], pos, text[..i + 1]);
        buffers := buffers[a := buffers[a][end := text[i]]];
        end := end + 1;
        i := i + 1;
      }
      assert text[..i] == text;
    }

    /** A larger buffer for a binding; the names of open tags that are in the old one are repaired. */
    method MoveBuffer(b: Address, n: nat, ghost pending: seq<Address>)
      requires Good(config, Now(), pending) && b in InScope(Now(), pending) && b in store && store[b].uri in buffers
      requires |buffers[store[b].uri]| < n && store[b].uriLen <= |buffers[store[b].uri]|
      modifies `store, `buffers, `next, `tagStack
      ensures Good(config, Now(), pending) && Moves(old(Now()), Now(), b) && n <= |buffers[store[b].uri]|
    {
      hide Good;
      ghost var st := Now();
      var was := store[b].uri;
      var uri := Allocate(n + EXPAND_SPARE, buffers[was][..store[b].uriLen]);
      var k := |tagStack|;
      while k > 0
        invariant 0 <= k <= |tagStack| == |st.tagStack|
        invariant forall j :: 0 <= j < k ==> tagStack[j] == st.tagStack[j]
        invariant forall j :: k <= j < |tagStack| ==> tagStack[j] == Repaired(st.tagStack[j], was, uri)
        modifies `tagStack
      {
        k := k - 1;
        if tagStack[k].name.str == Buffer(was) {
          tagStack := tagStack[k := tagStack[k].(name := tagStack[k].name.(str := Buffer(uri)))];
        }
      }
      UsedAddress(config, st, pending);
      buffers := buffers - {was};
      store := store[b := store[b].(uri := uri)];
      Moved(config, st, Now(), pending, b);
    }

    lemma UsedAddress(c: Config, st: State, pending: seq<Address>)
      requires Good(c, st, pending)
      ensures forall a :: a in st.buffers ==> a < st.next
    {
    }

    /** The parts of a qualified name. */
    method Split(name: string) returns (prefix: Prefix, localPart: string)
      ensures prefix == PrefixOf(name) && localPart == LocalPart(name)
    {
      var i := 0;
      assert name[0..] == name;
      while i < |name| && name[i] != ':'
        invariant 0 <= i <= |name| && Colon(name) == i + Colon(name[i..])
      {
        assert name[i..][1..] == name[i + 1..];
        i := i + 1;
      }
      prefix := if i < |name| then Some(name[..i]) else None;
      localPart := if i < |name| then name[i + 1..] else name;
    }

    /** Copies `more` behind the `text` that has been copied to `pos`. */
    method CopyBehind(a: Address, at: nat, more: string, ghost pos: nat, ghost text: string,
                      ghost was: map<Address, string>) returns (end: nat)
      requires a in was && at == pos + |text| && at + |more| <= |was[a]|
      requires buffers == was[a := Overwrite(was[a], pos, text)]
      modifies `buffers
      ensures buffers == was[a := Overwrite(was[a], pos, text + more)] && end == at + |more|
    {
      OverwriteTwice(was[a], pos, text, more);
      end := CopyTo(a, at, more);
    }

    /** Puts the local part, and perhaps the prefix, behind the URI of a binding whose buffer has room. */
    method Fill(uri: Address, localPart: string, prefix: Prefix, uriLen: nat, ghost b: Address,
                ghost pending: seq<Address>)
      requires Good(config, Now(), pending) && b in InScope(Now(), pending) && b in store && store[b].uri == uri
      requires uri in buffers
      requires uriLen == store[b].uriLen && uriLen + |Tail(config, localPart, prefix)| <= |buffers[uri]|
      modifies `buffers
      ensures Good(config, Now(), pending) && Now() == old(Now()).(buffers := buffers)
      ensures uri in buffers && buffers[uri] == Overwrite(old(buffers)[uri], uriLen, Tail(config, localPart, prefix))
    {
      hide Good, Overwrite, Tail;
      ghost var st := Now();
      TailIs(config, localPart, prefix);
      var end := CopyTo(uri, uriLen, localPart);
      ghost var text := localPart;
      if config.triplets && prefix.Some? {
        end := CopyBehind(uri, end, [config.separator], uriLen, text, st.buffers);
        end := CopyBehind(uri, end, prefix.value, uriLen, text + [config.separator], st.buffers);
        text := text + [config.separator] + prefix.value;
      }
      end := CopyBehind(uri, end, "\0", uriLen, text, st.buffers);
      OnlyBehind(config, st, Now(), pending, b);
    }

    /** A loop over the URI finds out whether it is one of the reserved ones. */
    method IsReserved(uri: string, mustBeXML: bool) returns (isXML: bool, isXMLNS: bool)
      ensures isXML == (uri == XML_NAMESPACE)
      ensures !mustBeXML ==> isXMLNS == (uri == XMLNS_NAMESPACE)
      ensures isXML ==> !isXMLNS
    {
      hide SoFar;
      isXML, isXMLNS := true, true;
      var len := 0;
      SoFarAt(uri, XML_NAMESPACE);
      SoFarAt(uri, XMLNS_NAMESPACE);
      while len < |uri|
        invariant 0 <= len <= |uri|
        invariant isXML == SoFar(uri, XML_NAMESPACE, len)
        invariant !mustBeXML ==> isXMLNS == SoFar(uri, XMLNS_NAMESPACE, len)
      {
        SoFarNext(uri, XML_NAMESPACE, len);
        SoFarNext(uri, XMLNS_NAMESPACE, len);
        if isXML && (len >= |XML_NAMESPACE| || uri[len] != XML_NAMESPACE[len]) { isXML := false; }
        if !mustBeXML && isXMLNS && (len >= |XMLNS_NAMESPACE| || uri[len] != XMLNS_NAMESPACE[len]) { isXMLNS := false; }
        len := len + 1;
      }
      isXML := isXML && len == |XML_NAMESPACE|;
      isXMLNS := isXMLNS && len == |XMLNS_NAMESPACE|;
    }

    /** The errors of a declaration, found in the order of the source. */
    method CheckDeclaration(d: Declaration) returns (error: Option<Error>)
      ensures error == DeclarationError(d)
    {
      hide SoFar;
      if d.uri == "" && d.prefix.Some? { return Some(UndeclaringPrefix); }
      var mustBeXML := false;
      assert "xml"[..3] == "xml" && "xmlns"[..3] == "xml" && "xmlns"[3..] == "ns";
      if d.prefix.Some? && |d.prefix.value| >= 3 && d.prefix.value[..3] == "xml" {
        if d.prefix.value[3..] == "ns" {
          assert d.prefix.value == d.prefix.value[..3] + d.prefix.value[3..] == "xmlns";
          return Some(ReservedPrefixXmlns);
        }
        assert d.prefix.value == d.prefix.value[..3] + d.prefix.value[3..];
        assert d.prefix.value != "xmlns";
        assert |d.prefix.value| == 3 ==> d.prefix.value[3..] == "";
        if d.prefix.value[3..] == "" {
          assert "xml" + "" == "xml";
          mustBeXML := true;
        }
      }
      assert mustBeXML == (d.prefix == Some("xml")) && d.prefix != Some("xmlns");
      var isXML, isXMLNS := IsReserved(d.uri, mustBeXML);
      if mustBeXML != isXML { return Some(if mustBeXML then ReservedPrefixXml else ReservedNamespaceUri); }
      if isXMLNS { return Some(ReservedNamespaceUri); }
      return None;
    }

    /** A binding from the free list, or a new one, with room for `len` characters. */
    method TakeBinding(len: nat) returns (b: Address)
      requires forall a :: a in store || a in buffers ==> a < next
      requires freeBindingList.Some? ==> freeBindingList.value in store && store[freeBindingList.value].uri in buffers
      modifies `store, `buffers, `next, `freeBindingList
      ensures b in store && store == old(store)[b := store[b]] && store[b].uri in buffers
      ensures len <= |buffers[store[b].uri]|
      ensures if b in old(store) then old(freeBindingList) == Some(b) && freeBindingList == old(store)[b].nextTagBinding
        else old(freeBindingList) == freeBindingList == None
      ensures (b in old(store) && store[b].uri == old(store)[b].uri) || store[b].uri >= old(next)
      ensures forall a :: a in old(buffers) && !(b in old(store) && a == old(store)[b].uri) ==>
        a in buffers && buffers[a] == old(buffers)[a]
      ensures forall a :: a in store || a in buffers ==> a < next
    {
      if freeBindingList.Some? {
        b := freeBindingList.value;
        freeBindingList := store[b].nextTagBinding;
        var was := store[b].uri;
        if len > |buffers[was]| {
          var u := Allocate(len + EXPAND_SPARE, buffers[was]);
          buffers := buffers - {was};
          store := store[b := store[b].(uri := u)];
        }
      } else {
        b := next;
        next := next + 1;
        var u := Allocate(len + EXPAND_SPARE, "");
        store := store[b := Binding(None, None, None, u, 0)];
      }
    }

    /** `addBinding`: a declaration of the tag being read, whose bindings so far begin at `head`. */
    method AddBinding(d: Declaration, head: Option<Address>, ghost pending: seq<Address>)
      returns (error: Option<Error>, head': Option<Address>, ghost pending': seq<Address>)
      requires Good(config, Now(), pending) && Linked(store, head, pending)
      modifies `store, `buffers, `next, `freeBindingList, `free, `bound, `declared
      ensures error == DeclarationError(d)
      ensures error.Some? ==> Now() == old(Now()) && head' == head && pending' == pending
      ensures error.None? ==>
        && Good(config, Now(), pending') && Linked(store, head', pending')
        && |pending'| == |pending| + 1
        && Env(pending') == [Declaration(d.prefix, d.uri + Sep(config))] + old(Env(pending))
    {
      hide Good, Linked, Enters, EnvOf;
      error := CheckDeclaration(d);
      head', pending' := head, pending;
      if error.Some? { return; }
      ghost var st := Now();
      BeforeAdding(config, st, pending);
      var b := Enter(d, head);
      pending' := [b] + pending;
      head' := Some(b);
      Entered(config, st, Now(), pending, head, b, d);
    }

    /** The binding of a declaration without errors. */
    method Enter(d: Declaration, head: Option<Address>) returns (b: Address)
      requires forall a :: a in store || a in buffers ==> a < next
      requires freeBindingList.Some? ==>
        free != [] && free[0] == freeBindingList.value && free[0] in store && store[free[0]].uri in buffers
      modifies `store, `buffers, `next, `freeBindingList, `free, `bound, `declared
      ensures Enters(config, old(Now()), Now(), head, b, d)
    {
      hide InForce, Sep;
      hide EntersLists, EntersStore, EntersBuffers;
      ghost var st := Now();
      b := TakeFor(d);
      ghost var taken := Now();
      Bind(b, d, head);
      if b in st.store { free := free[1..]; }
      TakenLists(st, Now(), b);
      TakenStore(config, st, taken, Now(), head, b, d);
    }

    /** The fields of the binding, and the binding of the prefix. */
    method Bind(b: Address, d: Declaration, head: Option<Address>)
      requires b in store
      modifies `store, `bound, `declared
      ensures store == old(store)[b := Binding(d.prefix, head, InForce(old(bound), d.prefix), old(store)[b].uri,
                                               |d.uri| + |Sep(config)|)]
      ensures bound == old(bound)[d.prefix := if d.uri == "" && d.prefix.None? then None else Some(b)]
      ensures declared == old(declared)[b := d.uri + Sep(config)]
    {
      store := store[b := Binding(d.prefix, head, InForce(bound, d.prefix), store[b].uri, |d.uri| + |Sep(config)|)];
      bound := bound[d.prefix := if d.uri == "" && d.prefix.None? then None else Some(b)];
      declared := declared[b := d.uri + Sep(config)];
    }

    /** A binding whose buffer begins with the URI. */
    method TakeFor(d: Declaration) returns (b: Address)
      requires forall a :: a in store || a in buffers ==> a < next
      requires freeBindingList.Some? ==> freeBindingList.value in store && store[freeBindingList.value].uri in buffers
      modifies `store, `buffers, `next, `freeBindingList
      ensures b in store && store == old(store)[b := store[b]]
      ensures if b in old(store) then old(freeBindingList) == Some(b) && freeBindingList == old(store)[b].nextTagBinding
        else old(freeBindingList) == freeBindingList == None
      ensures EntersBuffers(config, old(Now()), Now(), b, d)
    {
      b := TakeBinding(|d.uri| + |Sep(config)|);
      WriteUri(store[b].uri, d.uri);
    }

    /** The URI and the separator at the beginning of a buffer. */
    method WriteUri(u: Address, uri: string)
      requires u in buffers && |uri| + |Sep(config)| <= |buffers[u]|
      modifies `buffers
      ensures u in buffers && buffers == old(buffers)[u := buffers[u]] && |buffers[u]| == |old(buffers)[u]|
      ensures buffers[u][..|uri| + |Sep(config)|] == uri + Sep(config)
    {
      var end := CopyTo(u, 0, uri);
      if config.separator != '\0' {
        OverwriteTwice(old(buffers)[u], 0, uri, [config.separator]);
        end := CopyTo(u, end, [config.separator]);
      }
    }

    ghost function Env(pending: seq<Address>): seq<Declaration>
      reads this
    {
      EnvOf(store, declared, InScope(Now(), pending))
    }

    /** At the end of an element its bindings are freed, first to last, and what they hid is in force again. */
    method FreeBindings(head: Option<Address>, ghost pending: seq<Address>)
      requires Good(config, Now(), pending) && Linked(store, head, pending)
      modifies `store, `freeBindingList, `free, `bound
      ensures Valid() && Env([]) == old(Env(pending))[|pending|..]
      ensures EnvOf(store, declared, Scope(views, inherited)) == old(EnvOf(store, declared, Scope(views, inherited)))
    {
      hide Good, EnvOf, Linked;
      var bindings := head;
      ghost var left := pending;
      ghost var outer := EnvOf(store, declared, Scope(views, inherited));
      EnvSplits(config, Now(), pending);
      assert pending[0..] == pending;
      while bindings.Some?
        invariant Good(config, Now(), left) && Linked(store, bindings, left)
        invariant EnvOf(store, declared, Scope(views, inherited)) == outer
        decreases |left|
      {
        ghost var st := Now();
        HeadIsFirst(store, bindings, left);
        var b := bindings.value;
        bindings := store[b].nextTagBinding;
        store := store[b := store[b].(nextTagBinding := freeBindingList)];
        freeBindingList := Some(b);
        free := [b] + free;
        bound := bound[store[b].prefix := store[b].prevPrefixBinding];
        Freed(config, st, Now(), left, Some(b));
        EnvKept(st, Now(), b);
        left := left[1..];
      }
      HeadIsFirst(store, bindings, left);
      EnvSplits(config, Now(), []);
    }

    /** The name an element is reported with, in the buffer of a binding if it is in a namespace. */
    method ExpandName(own: string, ghost pending: seq<Address>)
      returns (r: Result<TagName>, ghost user: Option<Address>)
      requires Good(config, Now(), pending)
      modifies `store, `buffers, `next, `tagStack
      ensures Good(config, Now(), pending) && Env(pending) == old(Env(pending)) && |tagStack| == |old(tagStack)|
      ensures forall a :: a in old(store) ==> a in store && store[a].nextTagBinding == old(store)[a].nextTagBinding
      ensures match Expanded(config, old(Env(pending)), own)
        case Err(e) => r == Err(e)
        case Ok(full) =>
          && r.Ok? && TagOk(store, buffers, declared, config, r.value, View(pending, user, full, Env(pending)),
                            InScope(Now(), pending))
          && NameText(r.value) == full
    {
      hide Good, EnvOf, TagOk, CString, UriOf;
      var prefix, localPart := Split(own);
      var binding := InForce(bound, prefix);
      InForceUri(config, Now(), pending, prefix);
      if binding.None? {
        if prefix.Some? { return Err(UnboundPrefix), None; }
        r := Ok(TagName(Own, own, None, None, 0));
        user := None;
        OwnIsOk(Now(), config, own, pending);
        return;
      }
      var b := binding.value;
      var uriLen := store[b].uriLen;
      var n := uriLen + |Tail(config, localPart, prefix)|;
      if n > |buffers[store[b].uri]| {
        ghost var st := Now();
        MoveBuffer(b, n, pending);
        MovedEnv(st, Now(), b, InScope(st, pending));
      }
      Fill(store[b].uri, localPart, prefix, uriLen, b, pending);
      r := Ok(TagName(Buffer(store[b].uri), own, Some(localPart), prefix, uriLen));
      user := Some(b);
      FilledIsOk(config, Now(), pending, b, own, localPart);
    }

    /** What the handler of a name reads. */
    function NameText(name: TagName): string
      reads `buffers
    {
      match name.str
      case Own => name.own
      case Buffer(a) => if a in buffers then CString(buffers[a]) else ""
    }

    /** The declarations of a tag, in order, up to the first error. */
    method AddBindings(decls: seq<Declaration>)
      returns (error: Option<Error>, head: Option<Address>, ghost pending: seq<Address>)
      requires Good(config, Now(), [])
      modifies `store, `buffers, `next, `freeBindingList, `free, `bound, `declared
      ensures error == FirstError(decls)
      ensures error.None? ==>
        && Good(config, Now(), pending) && Linked(store, head, pending) && |pending| == |decls|
        && Env(pending) == EnvWith(config, decls, old(Env([])))
    {
      hide Good, EnvOf, Linked, DeclarationError;
      error, head, pending := None, None, [];
      NothingLinked(store);
      var i := 0;
      assert decls[0..] == decls;
      while i < |decls|
        invariant 0 <= i <= |decls| && FirstError(decls) == FirstError(decls[i..])
        invariant Good(config, Now(), pending) && Linked(store, head, pending) && |pending| == i
        invariant EnvWith(config, decls, old(Env([]))) == EnvWith(config, decls[i..], Env(pending))
      {
        assert decls[i..][1..] == decls[i + 1..];
        error, head, pending := AddBinding(decls[i], head, pending);
        if error.Some? { return; }
        i := i + 1;
      }
      error := None;
    }

    /** A start tag: the name the handler is called with, or the error. */
    method StartElement(own: string, decls: seq<Declaration>) returns (r: Result<string>)
      requires Valid()
      modifies this
      ensures r == Reported(config, old(Env([])), own, decls) && inherited == old(inherited)
      ensures r.Ok? ==>
        && Valid() && Env([]) == EnvWith(config, decls, old(Env([])))
        && |views| == |old(views)| + 1 && views[..|old(views)|] == old(views)
        && views[|old(views)|].start == r.value && views[|old(views)|].env == Env([])
    {
      hide Good, EnvOf, TagOk, Linked, NameText, Expanded;
      ghost var st, outer := Now(), views;
      TagPushed(config, st, [], own);
      tagStack := tagStack + [NewTag(own)];
      views := PushTag(st, own).views;
      assert Now() == PushTag(st, own);
      var error, head;
      ghost var pending, user;
      error, head, pending := AddBindings(decls);
      if error.Some? { return Err(error.value); }
      ghost var was := views;
      var name;
      ghost var linked := store;
      name, user := ExpandName(own, pending);
      if name.Err? { return Err(name.error); }
      LinkedIn(linked, head, pending);
      LinkStays(linked, store, head, pending);
      ghost var v := View(pending, user, NameText(name.value), Env(pending));
      StackSize(config, Now(), pending);
      TagNamed(config, Now(), pending, head, name.value, v);
      ghost var named := NameTag(Now(), head, name.value, v);
      views := named.views;
      tagStack := tagStack[|tagStack| - 1 := Tag(head, name.value)];
      assert Now() == named;
      assert was[..|was| - 1] == outer;
      return Ok(NameText(name.value));
    }

    /** The end tag of the innermost element. */
    method EndElement() returns (name: string)
      requires Valid() && tagStack != []
      modifies this
      ensures Valid() && |old(views)| > 0 && views == old(views)[..|old(views)| - 1] && inherited == old(inherited)
      ensures name == old(views)[|old(views)| - 1].start
      ensures Env([])
        == if |old(views)| > 1 then old(views)[|old(views)| - 2].env else old(EnvOf(store, declared, inherited))
    {
      hide Good, EnvOf, Linked, CString;
      ghost var st := Now();
      TagPopped(config, st);
      var tag := tagStack[|tagStack| - 1];
      ghost var v := views[|views| - 1];
      tagStack := tagStack[..|tagStack| - 1];
      views := views[..|views| - 1];
      assert Now() == PopTag(st);
      if tag.name.localPart.Some? {
        Refill(tag.name, v);
      }
      name := NameText(tag.name);
      assert views == [] ==> Scope(views, inherited) == inherited;
      FreeBindings(tag.bindings, v.list);
      if views != [] { LastEnv(config, Now()); }
      assert InScope(Now(), []) == Scope(views, inherited);
    }

    /** An empty-element tag: its declarations go as they came. */
    method EmptyElement(own: string, decls: seq<Declaration>) returns (r: Result<string>)
      requires Valid()
      modifies this
      ensures r == Reported(config, old(Env([])), own, decls) && inherited == old(inherited)
      ensures r.Ok? ==> Valid() && Env([]) == old(Env([])) && views == old(views)
    {
      hide Good, EnvOf, TagOk, Linked, NameText, Expanded;
      var error, head;
      ghost var pending, user;
      ghost var outer := Env([]);
      error, head, pending := AddBindings(decls);
      if error.Some? { return Err(error.value); }
      ghost var linked := store;
      var name;
      name, user := ExpandName(own, pending);
      if name.Err? { return Err(name.error); }
      LinkedIn(linked, head, pending);
      LinkStays(linked, store, head, pending);
      r := Ok(NameText(name.value));
      EnvWithSplits(config, decls, outer);
      FreeBindings(head, pending);
    }

    /** A binding outside all elements, like that of `xml`: the list at `inheritedBindings` grows. */
    method InheritBinding(d: Declaration) returns (error: Option<Error>)
      requires Valid() && tagStack == []
      modifies this
      ensures error == DeclarationError(d)
      ensures Valid() && tagStack == [] && views == []
      ensures Env([])
        == if error.Some? then old(Env([])) else [Declaration(d.prefix, d.uri + Sep(config))] + old(Env([]))
    {
      hide Good, EnvOf, Linked;
      ghost var st := Now();
      StackSize(config, st, []);
      AsPending(config, st, inherited, inheritedBindings);
      var head := inheritedBindings;
      ghost var pending := inherited;
      inheritedBindings, inherited := None, [];
      error, head, pending := AddBinding(d, head, pending);
      ghost var after := Now();
      inheritedBindings, inherited := head, pending;
      assert after == Now().(inheritedBindings := None, inherited := []);
      AsPending(config, Now(), inherited, inheritedBindings);
    }

    /** The name of an open tag is put together again in the buffer it shares with others. */
    method Refill(name: TagName, ghost v: View)
      requires Good(config, Now(), v.list) && TagOk(store, buffers, declared, config, name, v, InScope(Now(), v.list))
      requires name.localPart.Some?
      modifies `buffers
      ensures Good(config, Now(), v.list) && Now() == old(Now()).(buffers := buffers)
      ensures NameText(name) == v.start
    {
      hide Good, EnvOf, CString, Overwrite;
      Fill(name.str.address, name.localPart.value, name.prefix, name.uriLen, v.user.value, v.list);
      FilledIsOk(config, Now(), v.list, v.user.value, name.own, name.localPart.value);
    }
  }

  /** The declarations of a tag come before those around it; URIs with the separator. */
  function EnvWith(c: Config, decls: seq<Declaration>, env: seq<Declaration>): seq<Declaration>
    decreases |decls|
  {
    if decls == [] then env else EnvWith(c, decls[1..], [Declaration(decls[0].prefix, decls[0].uri + Sep(c))] + env)
  }

  function FirstError(decls: seq<Declaration>): Option<Error> {
    if decls == [] then None
    else if DeclarationError(decls[0]).Some? then DeclarationError(decls[0])
    else FirstError(decls[1..])
  }

  /** What a tag is reported as where `env` is in scope. */
  function Reported(c: Config, env: seq<Declaration>, own: string, decls: seq<Declaration>): Result<string> {
    match FirstError(decls)
    case Some(e) => Err(e)
    case None => Expanded(c, EnvWith(c, decls, env), own)
  }

  lemma NothingLinked(store: Store)
    ensures Linked(store, None, [])
  {
  }

  lemma LastEnv(c: Config, st: State)
    requires Good(c, st, []) && st.views != []
    ensures st.views[|st.views| - 1].env == EnvOf(st.store, st.declared, InScope(st, []))
  {
    hide EnvOf, Linked, Scoped, UriOk;
    LastTag(c, st);
    assert [] + Scope(st.views, st.inherited) == Scope(st.views, st.inherited);
  }

  lemma StackSize(c: Config, st: State, pending: seq<Address>)
    requires Good(c, st, pending)
    ensures |st.tagStack| == |st.views|
  {
  }

  /** What surrounds the declarations of a tag is what was there before. */
  lemma {:induction false} EnvWithSplits(c: Config, decls: seq<Declaration>, env: seq<Declaration>)
    ensures |EnvWith(c, decls, env)| == |decls| + |env| && EnvWith(c, decls, env)[|decls|..] == env
    decreases |decls|
  {
    if decls != [] {
      EnvWithSplits(c, decls[1..], [Declaration(decls[0].prefix, decls[0].uri + Sep(c))] + env);
    }
  }

  /** Outside all elements the inherited bindings are like those of a tag that is being read. */
  lemma AsPending(c: Config, st: State, list: seq<Address>, head: Option<Address>)
    requires st.inherited == list && st.inheritedBindings == head && |st.tagStack| == 0 && |st.views| == 0
    ensures var st' := st.(inherited := [], inheritedBindings := None);
      && (Good(c, st, []) <==> Good(c, st', list) && Linked(st.store, head, list))
      && InScope(st', list) == InScope(st, [])
  {
    hide Scoped, UriOk, Distinct, BuffersApart, Linked;
    var st' := st.(inherited := [], inheritedBindings := None);
    NothingLinked(st.store);
    assert [] + list == list && list + [] == list;
    assert InScope(st', list) == InScope(st, []);
  }

  lemma HeadIsFirst(store: Store, head: Option<Address>, list: seq<Address>)
    requires Linked(store, head, list)
    ensures if head.None? then list == [] else list != [] && head == Some(list[0]) && list[0] in store
  {
  }

  lemma EnvSplits(c: Config, st: State, pending: seq<Address>)
    ensures EnvOf(st.store, st.declared, InScope(st, pending))[|pending|..]
      == EnvOf(st.store, st.declared, Scope(st.views, st.inherited))
  {
  }

  lemma EnvKept(st: State, st': State, b: Address)
    requires Frees(st, st', b)
    ensures EnvOf(st'.store, st'.declared, Scope(st'.views, st'.inherited))
      == EnvOf(st.store, st.declared, Scope(st.views, st.inherited))
  {
    hide Scope;
  }

  lemma OwnIsOk(st: State, c: Config, own: string, pending: seq<Address>)
    ensures TagOk(st.store, st.buffers, st.declared, c, TagName(Own, own, None, None, 0),
                  View(pending, None, own, EnvOf(st.store, st.declared, InScope(st, pending))), InScope(st, pending))
  {
  }

  lemma MovedEnv(st: State, st': State, b: Address, scope: seq<Address>)
    requires Moves(st, st', b)
    ensures EnvOf(st'.store, st'.declared, scope) == EnvOf(st.store, st.declared, scope)
  {
  }

  /** The buffer of a binding holds the expanded name. */
  lemma FilledIsOk(c: Config, st: State, pending: seq<Address>, b: Address, own: string, localPart: string)
    requires Good(c, st, pending) && b in InScope(st, pending) && b in st.store && st.store[b].uri in st.buffers
    requires var tail := Tail(c, localPart, st.store[b].prefix);
      var buffer := st.buffers[st.store[b].uri];
      st.store[b].uriLen + |tail| <= |buffer| && buffer[st.store[b].uriLen..st.store[b].uriLen + |tail|] == tail
    ensures b in st.declared
    ensures var full := CString(st.declared[b] + Tail(c, localPart, st.store[b].prefix));
      && TagOk(st.store, st.buffers, st.declared, c,
               TagName(Buffer(st.store[b].uri), own, Some(localPart), st.store[b].prefix, st.store[b].uriLen),
               View(pending, Some(b), full, EnvOf(st.store, st.declared, InScope(st, pending))), InScope(st, pending))
      && CString(st.buffers[st.store[b].uri]) == full
  {
    hide EnvOf, TagsOk, Scoped, Distinct, Linked;
    assert UriOk(st.store, st.buffers, st.declared, b);
    var buffer := st.buffers[st.store[b].uri];
    var head := st.declared[b] + Tail(c, localPart, st.store[b].prefix);
    assert buffer == head + buffer[|head|..];
    assert head[|head| - 1] == '\0';
    CStringPrefix(head, buffer[|head|..]);
  }

  /** The effect of the assignments of `AddBinding`. */
  ghost predicate Enters(c: Config, st: State, st': State, head: Option<Address>, b: Address, d: Declaration) {
    && st'.tagStack == st.tagStack && st'.views == st.views && st'.inherited == st.inherited
    && st'.inheritedBindings == st.inheritedBindings
    && st'.declared == st.declared[b := d.uri + Sep(c)]
    && EntersLists(st, st', b) && EntersStore(c, st, st', head, b, d) && EntersBuffers(c, st, st', b, d)
  }

  predicate EntersLists(st: State, st': State, b: Address) {
    if b in st.store then st.free != [] && st.free[0] == b && st'.free == st.free[1..]
      && st'.freeBindingList == st.store[b].nextTagBinding
    else st'.free == st.free && st'.freeBindingList == st.freeBindingList
  }

  predicate EntersStore(c: Config, st: State, st': State, head: Option<Address>, b: Address, d: Declaration) {
    && b in st'.store
    && st'.store == st.store[b := Binding(d.prefix, head, InForce(st.bound, d.prefix), st'.store[b].uri,
                                          |d.uri| + |Sep(c)|)]
    && st'.bound == st.bound[d.prefix := if d.uri == "" && d.prefix.None? then None else Some(b)]
  }

  ghost predicate EntersBuffers(c: Config, st: State, st': State, b: Address, d: Declaration) {
    && b in st'.store && st'.store[b].uri in st'.buffers && |d.uri| + |Sep(c)| <= |st'.buffers[st'.store[b].uri]|
    && st'.buffers[st'.store[b].uri][..|d.uri| + |Sep(c)|] == d.uri + Sep(c)
    && ((b in st.store && st'.store[b].uri == st.store[b].uri) || st'.store[b].uri >= st.next)
    && KeptBut(st.buffers, st'.buffers, if b in st.store then st.store[b].uri else st'.store[b].uri, st'.store[b].uri)
    && (forall a :: a in st'.store || a in st'.buffers ==> a < st'.next)
  }

  predicate KeptBut(before: Buffers, after: Buffers, x: Address, y: Address) {
    forall a :: a in before && a != x && a != y ==> a in after && after[a] == before[a]
  }

  lemma Entered(c: Config, st: State, st': State, pending: seq<Address>, head: Option<Address>, b: Address,
                d: Declaration)
    requires Good(c, st, pending) && Linked(st.store, head, pending) && Enters(c, st, st', head, b, d)
    ensures Good(c, st', [b] + pending) && Linked(st'.store, Some(b), [b] + pending)
    ensures EnvOf(st'.store, st'.declared, InScope(st', [b] + pending))
         == [Declaration(d.prefix, d.uri + Sep(c))] + EnvOf(st.store, st.declared, InScope(st, pending))
  {
    hide Good, Adds, Linked, EnvOf;
    BeforeAdding(c, st, pending);
    IsAdded(c, st, st', head, b, d);
    Added(c, st, st', pending, head, b);
    EnvAdded(c, st, st', pending, head, b, d);
  }

  lemma IsAdded(c: Config, st: State, st': State, head: Option<Address>, b: Address, d: Declaration)
    requires forall a :: a in st.store || a in st.buffers ==> a < st.next
    requires BuffersApart(st.store, st.buffers) && Enters(c, st, st', head, b, d)
    ensures Adds(c, st, st', head, b)
  {
    forall a | a in st.store && a != b
      ensures Untouched(st, st', a) && st.store[a].uri != st'.store[b].uri
    {
      assert st.store[a].uri in st.buffers;
    }
  }

  lemma EnvAdded(c: Config, st: State, st': State, pending: seq<Address>, head: Option<Address>, b: Address,
                 d: Declaration)
    requires Good(c, st, pending) && Adds(c, st, st', head, b) && st'.store[b].prefix == d.prefix
    requires st'.declared[b] == d.uri + Sep(c)
    ensures EnvOf(st'.store, st'.declared, InScope(st', [b] + pending))
         == [Declaration(d.prefix, d.uri + Sep(c))] + EnvOf(st.store, st.declared, InScope(st, pending))
  {
    hide Good, Adds, InScope, Untouched;
    var scope := InScope(st, pending);
    InScopeIs(st, st', pending, b, head, c);
    ScopeUntouched(c, st, st', pending, head, b);
    EnvStays(st, st', scope);
  }

  lemma ScopeUntouched(c: Config, st: State, st': State, pending: seq<Address>, head: Option<Address>, b: Address)
    requires Good(c, st, pending) && Adds(c, st, st', head, b)
    ensures forall a :: a in InScope(st, pending) ==> Untouched(st, st', a) && a in st.store && a in st.declared
    ensures b in st'.store && b in st'.declared
  {
    hide GoodLists, Scoped, TagsOk, Distinct, Untouched, InScope;
    var scope := InScope(st, pending);
    AddedScope(c, st, st', scope, head, b);
    AreThere(st, scope);
  }

  lemma BeforeAdding(c: Config, st: State, pending: seq<Address>)
    requires Good(c, st, pending)
    ensures forall a :: a in st.store || a in st.buffers ==> a < st.next
    ensures st.freeBindingList.Some? ==>
      && st.free != [] && st.free[0] == st.freeBindingList.value
      && st.free[0] in st.store && st.store[st.free[0]].uri in st.buffers
    ensures BuffersApart(st.store, st.buffers)
  {
  }

  lemma TakenLists(st: State, st': State, b: Address)
    requires st.freeBindingList.Some? ==> st.free != [] && st.free[0] == st.freeBindingList.value
    requires if b in st.store then st.freeBindingList == Some(b) && st'.freeBindingList == st.store[b].nextTagBinding
             else st.freeBindingList == st'.freeBindingList == None
    requires st'.free == if b in st.store then st.free[1..] else st.free
    ensures EntersLists(st, st', b)
  {
  }

  lemma TakenStore(c: Config, st: State, taken: State, st': State, head: Option<Address>, b: Address, d: Declaration)
    requires b in taken.store && taken.store == st.store[b := taken.store[b]] && taken.bound == st.bound
    requires EntersBuffers(c, st, taken, b, d)
    requires st'.store == taken.store[b := Binding(d.prefix, head, InForce(taken.bound, d.prefix), taken.store[b].uri,
                                                   |d.uri| + |Sep(c)|)]
    requires st'.bound == taken.bound[d.prefix := if d.uri == "" && d.prefix.None? then None else Some(b)]
    requires st'.buffers == taken.buffers && st'.next == taken.next
    ensures EntersStore(c, st, st', head, b, d) && EntersBuffers(c, st, st', b, d)
  {
  }

  lemma OverwriteTwice(s: string, pos: nat, a: string, b: string)
    requires pos + |a| + |b| <= |s|
    ensures Overwrite(Overwrite(s, pos, a), pos + |a|, b) == Overwrite(s, pos, a + b)
  {
  }

  lemma TailIs(c: Config, localPart: string, prefix: Prefix)
    ensures Tail(c, localPart, prefix)
      == (if c.triplets && prefix.Some? then localPart + [c.separator] + prefix.value else localPart) + "\0"
  {
  }

  lemma OnlyBehind(c: Config, st: State, st': State, pending: seq<Address>, b: Address)
    requires Good(c, st, pending) && b in InScope(st, pending) && b in st.store && st.store[b].uri in st.buffers
    requires st' == st.(buffers := st'.buffers) && st.store[b].uri in st'.buffers
    requires st'.buffers == st.buffers[st.store[b].uri := st'.buffers[st.store[b].uri]]
    requires BehindUri(st.buffers[st.store[b].uri], st'.buffers[st.store[b].uri], st.store[b].uriLen)
    ensures Good(c, st', pending)
  {
    hide UriOk, TagsOk, Scoped, Linked, Distinct, Scope;
    BufferWritten(c, st, st', pending);
  }

  /** The first `len` characters are those of `text`. */
  predicate SoFar(uri: string, text: string, len: nat)
    requires len <= |uri|
  {
    len <= |text| && uri[..len] == text[..len]
  }

  lemma SoFarNext(uri: string, text: string, len: nat)
    requires len < |uri|
    ensures SoFar(uri, text, len + 1) <==> SoFar(uri, text, len) && len < |text| && uri[len] == text[len]
  {
    if len < |text| {
      assert uri[..len + 1] == uri[..len] + [uri[len]] && text[..len + 1] == text[..len] + [text[len]];
    }
  }

  lemma SoFarAt(uri: string, text: string)
    ensures SoFar(uri, text, 0) && (uri == text <==> |uri| == |text| && SoFar(uri, text, |uri|))
  {
    if |uri| == |text| {
      assert uri[..|uri|] == uri && text[..|uri|] == text;
    }
  }
}
