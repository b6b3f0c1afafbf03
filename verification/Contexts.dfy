/**
 Contexts: the bindings and the open entities of a parser written out as a string, from which a parser
 for an external entity takes them over.
 */
module Contexts {
  import opened Errors
  import opened Bindings
  import opened Namespaces

  const CONTEXT_SEP: char := '\U{C}'

  /** A part of a context; the default prefix has an empty name. */
  datatype Part = Bind(name: string, uri: string) | Open(name: string)

  function PartText(p: Part): string { if p.Bind? then p.name + "=" + p.uri else p.name }

  /** The parts, with separators between them. */
  function ContextOf(parts: seq<Part>): string {
    if parts == [] then ""
    else if |parts| == 1 then PartText(parts[0])
    else PartText(parts[0]) + [CONTEXT_SEP] + ContextOf(parts[1..])
  }

  predicate EndsName(c: char) { c == '=' || c == CONTEXT_SEP }

  /** Where the first name of a string ends. */
  function NameStop(s: string): (i: nat)
    ensures i <= |s| && (i < |s| ==> EndsName(s[i])) && forall k :: 0 <= k < i ==> !EndsName(s[k])
  {
    if s == "" || EndsName(s[0]) then 0 else 1 + NameStop(s[1..])
  }

  /** Where a URI ends. */
  function UriStop(s: string): (i: nat)
    ensures i <= |s| && (i < |s| ==> s[i] == CONTEXT_SEP) && forall k :: 0 <= k < i ==> s[k] != CONTEXT_SEP
  {
    if s == "" || s[0] == CONTEXT_SEP then 0 else 1 + UriStop(s[1..])
  }

  /** What is left behind a part, without the separator. */
  function Behind(s: string, i: nat): (r: string)
    requires i <= |s|
    ensures i > 0 ==> |r| < |s|
    ensures i < |s| ==> |r| < |s|
  {
    if i == |s| then "" else s[i + 1..]
  }

  /** The first part of a string, and where it ends. */
  function First(s: string): (r: (Part, nat))
    requires s != ""
    ensures r.1 <= |s| && (r.1 == 0 ==> s[0] == CONTEXT_SEP)
  {
    var i := NameStop(s);
    if i < |s| && s[i] == '=' then
      var j := UriStop(s[i + 1..]);
      (Bind(s[..i], s[i + 1..][..j]), i + 1 + j)
    else (Open(s[..i]), i)
  }

  /** The parts of any string, as they are read. */
  function Parts(context: string): seq<Part>
    decreases |context|
  {
    if context == "" then [] else [First(context).0] + Parts(Behind(context, First(context).1))
  }

  // ----- reading what was written -----

  /** A part whose text is read back: names without `=` and form feed, and URIs without form feed. */
  predicate Readable(p: Part) {
    && (forall c :: c in p.name ==> !EndsName(c))
    && if p.Bind? then CONTEXT_SEP !in p.uri else p.name != ""
  }

  lemma StopIs(s: string, i: nat)
    requires i <= |s| && (i < |s| ==> EndsName(s[i])) && forall k :: 0 <= k < i ==> !EndsName(s[k])
    ensures NameStop(s) == i
  {
  }

  lemma UriStopIs(s: string, i: nat)
    requires i <= |s| && (i < |s| ==> s[i] == CONTEXT_SEP) && forall k :: 0 <= k < i ==> s[k] != CONTEXT_SEP
    ensures UriStop(s) == i
  {
  }

  lemma FirstIsBind(w: string, k: nat, end: nat)
    requires k < end <= |w| && (forall i :: 0 <= i < k ==> !EndsName(w[i])) && w[k] == '='
    requires (forall i :: k < i < end ==> w[i] != CONTEXT_SEP) && (end < |w| ==> w[end] == CONTEXT_SEP)
    ensures First(w) == (Bind(w[..k], w[k + 1..end]), end)
  {
    StopIs(w, k);
    var uri := w[k + 1..];
    assert uri[..end - k - 1] == w[k + 1..end];
    UriStopIs(uri, end - k - 1);
  }

  lemma FirstIsOpen(w: string, k: nat)
    requires k <= |w| && w != "" && (forall i :: 0 <= i < k ==> !EndsName(w[i])) && (k < |w| ==> w[k] == CONTEXT_SEP)
    ensures First(w) == (Open(w[..k]), k)
  {
    StopIs(w, k);
  }

  lemma FirstIs(p: Part, more: string)
    requires Readable(p) && (more == "" || more[0] == CONTEXT_SEP)
    ensures PartText(p) != "" && First(PartText(p) + more) == (p, |PartText(p)|)
  {
    hide First;
    var w, k := PartText(p) + more, |p.name|;
    assert w[..k] == p.name;
    if p.Bind? {
      var end := |PartText(p)|;
      assert w[k + 1..end] == p.uri;
      FirstIsBind(w, k, end);
    } else {
      FirstIsOpen(w, k);
    }
  }

  /** A context is read as the parts it was made of. */
  lemma {:induction false} PartsOfContext(parts: seq<Part>)
    requires forall i :: 0 <= i < |parts| ==> Readable(parts[i])
    ensures Parts(ContextOf(parts)) == parts
  {
    hide First, PartText, Readable;
    if parts != [] {
      var p, rest := parts[0], ContextOf(parts[1..]);
      var more := if |parts| == 1 then "" else [CONTEXT_SEP] + rest;
      PartsOfContext(parts[1..]);
      FirstIs(p, more);
      assert ContextOf(parts) == PartText(p) + more;
      assert Behind(PartText(p) + more, |PartText(p)|) == rest;
    }
  }

  // ----- the parts of a parser -----

  datatype Entity = Entity(name: string, open: bool)

  function PrefixNamed(name: string): Prefix { if name == "" then None else Some(name) }

  /** A URI without the separator. */
  function Bare(c: Config, uri: string): string { if |Sep(c)| <= |uri| then uri[..|uri| - |Sep(c)|] else uri }

  /** Declarations that were accepted; URIs with the separator. */
  ghost predicate Lawful(c: Config, env: seq<Declaration>) {
    forall d :: d in env
      ==> d.uri == Bare(c, d.uri) + Sep(c) && DeclarationError(Declaration(d.prefix, Bare(c, d.uri))).None?
  }

  lemma {:induction false} UriIsLawful(c: Config, env: seq<Declaration>, p: Prefix)
    requires Lawful(c, env)
    ensures match UriOf(c, env, p)
      case None => true
      case Some(u) => u == Bare(c, u) + Sep(c) && DeclarationError(Declaration(p, Bare(c, u))).None? && Bare(c, u) != ""
  {
    if env != [] && env[0].prefix != p {
      assert forall d :: d in env[1..] ==> d in env;
      UriIsLawful(c, env[1..], p);
    }
  }

  /** What a parser accepts keeps its declarations lawful. */
  lemma {:induction false} StaysLawful(c: Config, decls: seq<Declaration>, env: seq<Declaration>)
    requires Lawful(c, env) && FirstError(decls).None?
    ensures Lawful(c, EnvWith(c, decls, env))
    decreases |decls|
  {
    if decls != [] {
      var d := Declaration(decls[0].prefix, decls[0].uri + Sep(c));
      assert Bare(c, d.uri) == decls[0].uri;
      StaysLawful(c, decls[1..], [d] + env);
    }
  }

  /** The part for a prefix, if it is bound. */
  function BindPart(c: Config, env: seq<Declaration>, name: string): seq<Part> {
    match UriOf(c, env, PrefixNamed(name))
    case Some(uri) => [Bind(name, Bare(c, uri))]
    case None => []
  }

  function BindParts(c: Config, env: seq<Declaration>, names: seq<string>): seq<Part> {
    if names == [] then [] else BindPart(c, env, names[0]) + BindParts(c, env, names[1..])
  }

  function OpenParts(entities: seq<Entity>): seq<Part> {
    if entities == [] then []
    else (if entities[0].open then [Open(entities[0].name)] else []) + OpenParts(entities[1..])
  }

  /** The default prefix comes first, then the prefixes and the entities in the order of their tables. */
  function PartsOf(c: Config, env: seq<Declaration>, names: seq<string>, entities: seq<Entity>): seq<Part> {
    BindParts(c, env, [""] + names) + OpenParts(entities)
  }

  function DeclarationsOf(parts: seq<Part>): seq<Declaration> {
    if parts == [] then []
    else
      (if parts[0].Bind? then [Declaration(PrefixNamed(parts[0].name), parts[0].uri)] else [])
      + DeclarationsOf(parts[1..])
  }

  function OpenedBy(parts: seq<Part>): set<string> { set p | p in parts && p.Open? :: p.name }

  // ----- writing -----

  /** What `written` becomes when the parts are appended. */
  function Appended(written: string, needSep: bool, parts: seq<Part>): string {
    if parts == [] then written else written + (if needSep then [CONTEXT_SEP] else "") + ContextOf(parts)
  }

  lemma AppendPart(written: string, needSep: bool, p: Part, rest: seq<Part>)
    ensures Appended(written, needSep, [p] + rest)
      == Appended(written + (if needSep then [CONTEXT_SEP] else "") + PartText(p), true, rest)
  {
    assert ([p] + rest)[1..] == rest;
    if rest != [] {
      assert ContextOf([p] + rest) == PartText(p) + [CONTEXT_SEP] + ContextOf(rest);
    }
  }

  lemma NothingAppended(parts: seq<Part>)
    ensures Appended("", false, parts) == ContextOf(parts)
  {
  }

  lemma BufferOf(c: Config, st: State, p: Prefix)
    requires Good(c, st, [])
    ensures match InForce(st.bound, p)
      case None => UriOf(c, EnvOf(st.store, st.declared, InScope(st, [])), p) == None
      case Some(b) =>
        && b in st.store && st.store[b].uri in st.buffers && st.store[b].uriLen <= |st.buffers[st.store[b].uri]|
        && UriOf(c, EnvOf(st.store, st.declared, InScope(st, [])), p)
          == Some(st.buffers[st.store[b].uri][..st.store[b].uriLen])
  {
    hide Good, UriOf, EnvOf;
    InForceUri(c, st, [], p);
  }

  /** The URI of a prefix, without the separator, if it is bound. */
  method ReadUri(parent: Namespaces, p: Prefix) returns (uri: Option<string>)
    requires parent.Valid() && Lawful(parent.config, parent.Env([]))
    ensures uri
      == (match UriOf(parent.config, parent.Env([]), p) case Some(u) => Some(Bare(parent.config, u)) case None => None)
  {
    hide Good, EnvOf, UriOf, Lawful, DeclarationError;
    BufferOf(parent.config, parent.Now(), p);
    UriIsLawful(parent.config, parent.Env([]), p);
    var binding := InForce(parent.bound, p);
    if binding.None? { return None; }
    var b := binding.value;
    var len := parent.store[b].uriLen;
    if parent.config.separator != '\0' {
      len := len - 1;
    }
    ghost var whole := parent.buffers[parent.store[b].uri][..parent.store[b].uriLen];
    assert whole[..len] == parent.buffers[parent.store[b].uri][..len];
    uri := Some(parent.buffers[parent.store[b].uri][..len]);
  }

  /** A binding is written, if the prefix has one. */
  method WriteBinding(parent: Namespaces, name: string, was: string, needSep: bool, ghost rest: seq<Part>)
    returns (context: string, needSep': bool)
    requires parent.Valid() && Lawful(parent.config, parent.Env([]))
    ensures Appended(context, needSep', rest)
      == Appended(was, needSep, BindPart(parent.config, parent.Env([]), name) + rest)
  {
    hide Good, Lawful, EnvOf, UriOf, Appended, ContextOf, Bare;
    context, needSep' := was, needSep;
    var uri := ReadUri(parent, PrefixNamed(name));
    ghost var part := BindPart(parent.config, parent.Env([]), name);
    if uri.None? {
      assert part + rest == rest;
      return;
    }
    AppendPart(was, needSep, Bind(name, uri.value), rest);
    if needSep { context := context + [CONTEXT_SEP]; }
    context, needSep' := context + name + "=" + uri.value, true;
    assert (if needSep then was + [CONTEXT_SEP] else was) + name + "=" + uri.value
      == was + (if needSep then [CONTEXT_SEP] else "") + (name + "=" + uri.value);
  }

  method WriteEntities(entities: seq<Entity>, was: string, sep: bool) returns (context: string)
    ensures context == Appended(was, sep, OpenParts(entities))
  {
    hide Appended;
    var needSep := sep;
    context := was;
    var i := 0;
    while i < |entities|
      invariant 0 <= i <= |entities|
      invariant Appended(context, needSep, OpenParts(entities[i..])) == Appended(was, sep, OpenParts(entities))
    {
      assert entities[i..][1..] == entities[i + 1..];
      if !entities[i].open {
        assert OpenParts(entities[i..]) == OpenParts(entities[i + 1..]);
      } else {
        ghost var before, sep' := context, needSep;
        AppendPart(context, needSep, Open(entities[i].name), OpenParts(entities[i + 1..]));
        if needSep { context := context + [CONTEXT_SEP]; }
        context, needSep := context + entities[i].name, true;
        assert context == before + (if sep' then [CONTEXT_SEP] else "") + entities[i].name;
      }
      i := i + 1;
    }
    AppendNone(context, needSep);
  }

  lemma AppendNone(written: string, needSep: bool)
    ensures Appended(written, needSep, []) == written
  {
  }

  /** `getContext`, for any order of the tables. */
  method GetContext(parent: Namespaces, names: seq<string>, entities: seq<Entity>) returns (context: string)
    requires parent.Valid() && Lawful(parent.config, parent.Env([]))
    ensures context == ContextOf(PartsOf(parent.config, parent.Env([]), names, entities))
  {
    hide ContextOf, EnvOf, UriOf, Good, Lawful, Appended, BindPart;
    ghost var c := parent.config;
    ghost var env := parent.Env([]);
    ghost var opens := OpenParts(entities);
    ghost var all := PartsOf(c, env, names, entities);
    NothingAppended(all);
    assert ([""] + names)[1..] == names;
    assert all == BindPart(c, env, "") + (BindParts(c, env, names) + opens);
    var needSep;
    context, needSep := WriteBinding(parent, "", "", false, BindParts(c, env, names) + opens);
    var i := 0;
    assert names[0..] == names;
    while i < |names|
      invariant 0 <= i <= |names| && Appended(context, needSep, BindParts(c, env, names[i..]) + opens) == ContextOf(all)
    {
      ghost var rest := BindParts(c, env, names[i + 1..]) + opens;
      assert BindParts(c, env, names[i..]) + opens == BindPart(c, env, names[i]) + rest;
      context, needSep := WriteBinding(parent, names[i], context, needSep, rest);
      i := i + 1;
    }
    assert BindParts(c, env, names[i..]) + opens == opens;
    context := WriteEntities(entities, context, needSep);
  }

  // ----- reading -----

  /** The loop over the URI of a binding. */
  method ScanUri(context: string, from: nat) returns (at: nat, temp: string)
    requires from <= |context|
    ensures from <= at <= |context| && temp == context[from..at] && CONTEXT_SEP !in temp
    ensures at < |context| ==> context[at] == CONTEXT_SEP
  {
    at, temp := from, "";
    while at != |context| && context[at] != CONTEXT_SEP
      invariant from <= at <= |context| && temp == context[from..at] && CONTEXT_SEP !in temp
    {
      assert context[from..at + 1] == context[from..at] + [context[at]];
      temp := temp + [context[at]];
      at := at + 1;
    }
  }

  /**
   `setContext` of a parser whose entity table has the names `table`: the bindings are declared in
   order, up to the first error, and the entities that are known are open.
   */
  method SetContext(child: Namespaces, context: string, table: set<string>) returns (ok: bool, open: set<string>)
    requires child.Valid() && child.tagStack == []
    modifies child
    ensures child.Valid() && child.tagStack == []
    ensures ok <==> FirstError(DeclarationsOf(Parts(context))).None?
    ensures ok ==> child.Env([]) == EnvWith(child.config, DeclarationsOf(Parts(context)), old(child.Env([])))
    ensures ok ==> open == OpenedBy(Parts(context)) * table
  {
    hide Good, EnvOf, DeclarationError, First, Behind, Parts, DeclarationsOf, OpenedBy, EnvWith, FirstError;
    var at, s, temp := 0, 0, "";
    open := {};
    ghost var all := Parts(context);
    assert context[0..] == context;
    while at != |context|
      invariant 0 <= at <= s <= |context| && temp == context[at..s] && (forall c :: c in temp ==> !EndsName(c))
      invariant child.Valid() && child.tagStack == []
      invariant FirstError(DeclarationsOf(all)) == FirstError(DeclarationsOf(Parts(context[at..])))
      invariant EnvWith(child.config, DeclarationsOf(all), old(child.Env([])))
        == EnvWith(child.config, DeclarationsOf(Parts(context[at..])), child.Env([]))
      invariant OpenedBy(all) * table == open + OpenedBy(Parts(context[at..])) * table
      decreases |context| - at, |context| - s
    {
      if s == |context| || context[s] == CONTEXT_SEP {
        OpenFirst(context, at, s);
        OpenNext(temp, Parts(context[if s == |context| then s else s + 1..]));
        if temp in table { open := open + {temp}; }
        if s != |context| { s := s + 1; }
        at, temp := s, "";
      } else if context[s] == '=' {
        var name := temp;
        ghost var was := at;
        at, temp := ScanUri(context, s + 1);
        BindFirst(context, was, s, at);
        BindNext(child.config, name, temp, Parts(context[if at == |context| then at else at + 1..]), child.Env([]));
        var error := child.InheritBinding(Declaration(PrefixNamed(name), temp));
        if error.Some? {
          return false, open;
        }
        temp := "";
        if at != |context| { at := at + 1; }
        s := at;
      } else {
        temp := temp + [context[s]];
        s := s + 1;
      }
    }
    assert context[at..] == "";
    NoParts(child.config, child.Env([]));
    ok := true;
  }

  lemma NoParts(c: Config, env: seq<Declaration>)
    ensures Parts("") == [] && DeclarationsOf([]) == [] && OpenedBy([]) == {} && FirstError([]) == None
    ensures EnvWith(c, [], env) == env
  {
  }

  lemma OpenFirst(context: string, at: nat, s: nat)
    requires at <= s <= |context| && at < |context| && (forall c :: c in context[at..s] ==> !EndsName(c))
    requires s == |context| || context[s] == CONTEXT_SEP
    ensures Parts(context[at..]) == [Open(context[at..s])] + Parts(context[if s == |context| then s else s + 1..])
  {
    hide First, Behind, EndsName;
    var w := context[at..];
    assert w[..s - at] == context[at..s];
    FirstIsOpen(w, s - at);
    BehindIs(context, at, s);
  }

  lemma BehindIs(context: string, at: nat, s: nat)
    requires at <= s <= |context|
    ensures Behind(context[at..], s - at) == context[if s == |context| then s else s + 1..]
  {
  }

  lemma BindFirst(context: string, at: nat, s: nat, end: nat)
    requires at <= s < end <= |context| && (forall c :: c in context[at..s] ==> !EndsName(c)) && context[s] == '='
    requires CONTEXT_SEP !in context[s + 1..end] && (end < |context| ==> context[end] == CONTEXT_SEP)
    ensures Parts(context[at..])
      == [Bind(context[at..s], context[s + 1..end])] + Parts(context[if end == |context| then end else end + 1..])
  {
    FirstIsBind(context[at..], s - at, end - at);
    var w := context[at..];
    assert w[..s - at] == context[at..s] && w[s - at + 1..end - at] == context[s + 1..end];
    hide First;
    assert Behind(w, end - at) == context[if end == |context| then end else end + 1..];
  }

  lemma BindNext(c: Config, name: string, uri: string, rest: seq<Part>, env: seq<Declaration>)
    ensures var d := Declaration(PrefixNamed(name), uri); var parts := [Bind(name, uri)] + rest;
      && FirstError(DeclarationsOf(parts))
        == (if DeclarationError(d).Some? then DeclarationError(d) else FirstError(DeclarationsOf(rest)))
      && EnvWith(c, DeclarationsOf(parts), env) == EnvWith(c, DeclarationsOf(rest),
                                                           [Declaration(d.prefix, uri + Sep(c))] + env)
      && OpenedBy(parts) == OpenedBy(rest)
  {
    var d, parts := Declaration(PrefixNamed(name), uri), [Bind(name, uri)] + rest;
    assert parts[1..] == rest;
    assert DeclarationsOf(parts) == [d] + DeclarationsOf(rest);
    assert DeclarationsOf(parts)[1..] == DeclarationsOf(rest);
  }

  lemma OpenNext(name: string, rest: seq<Part>)
    ensures DeclarationsOf([Open(name)] + rest) == DeclarationsOf(rest)
    ensures OpenedBy([Open(name)] + rest) == {name} + OpenedBy(rest)
  {
    var parts := [Open(name)] + rest;
    assert parts[1..] == rest;
    assert forall p :: p in parts <==> p == Open(name) || p in rest;
    forall n | n in {name} + OpenedBy(rest)
      ensures n in OpenedBy(parts)
    {
      assert Open(n) in parts;
    }
  }

  // ----- round trip -----

  /** Names can be read back, and so can the URIs of the declarations in scope. */
  ghost predicate Writable(c: Config, env: seq<Declaration>, names: seq<string>, entities: seq<Entity>) {
    && (forall n :: n in names ==> n != "" && forall k :: 0 <= k < |n| ==> !EndsName(n[k]))
    && (forall e :: e in entities ==> e.name != "" && forall k :: 0 <= k < |e.name| ==> !EndsName(e.name[k]))
    && (forall d :: d in env ==> CONTEXT_SEP !in Bare(c, d.uri))
  }

  lemma {:induction false} UriInEnv(c: Config, env: seq<Declaration>, p: Prefix)
    ensures match UriOf(c, env, p) case None => true case Some(u) => exists d :: d in env && d.uri == u
  {
    if env != [] && env[0].prefix != p {
      UriInEnv(c, env[1..], p);
      assert forall d :: d in env[1..] ==> d in env;
    } else if env != [] {
      assert env[0] in env;
    }
  }

  /** The parts for prefixes are those of the bound ones. */
  lemma {:induction false} BindPartsAre(c: Config, env: seq<Declaration>, names: seq<string>)
    ensures forall q :: q in BindParts(c, env, names) <==> exists n :: n in names && q in BindPart(c, env, n)
  {
    if names != [] {
      BindPartsAre(c, env, names[1..]);
      assert forall n :: n in names <==> n == names[0] || n in names[1..];
    }
  }

  lemma {:induction false} OpenPartsAre(entities: seq<Entity>)
    ensures forall q :: q in OpenParts(entities) <==> exists e :: e in entities && e.open && q == Open(e.name)
  {
    if entities != [] {
      OpenPartsAre(entities[1..]);
      assert forall e :: e in entities <==> e == entities[0] || e in entities[1..];
    }
  }

  lemma {:induction false} DeclarationsAre(parts: seq<Part>)
    ensures forall d ::
      d in DeclarationsOf(parts) <==>
      exists q :: q in parts && q.Bind? && d == Declaration(PrefixNamed(q.name), q.uri)
  {
    if parts != [] {
      DeclarationsAre(parts[1..]);
      assert forall q :: q in parts <==> q == parts[0] || q in parts[1..];
    }
  }

  /** Declarations that say what `target` says leave nothing else in scope but what was there. */
  lemma {:induction false} EnvAgrees(c: Config, decls: seq<Declaration>, env: seq<Declaration>, target: Option<string>,
                                     p: Prefix)
    requires forall d :: d in decls && d.prefix == p ==> target == Some(d.uri + Sep(c)) && d.uri != ""
    requires UriOf(c, env, p) == target || exists d :: d in decls && d.prefix == p
    ensures UriOf(c, EnvWith(c, decls, env), p) == target
    decreases |decls|
  {
    if decls != [] {
      var d := Declaration(decls[0].prefix, decls[0].uri + Sep(c));
      assert decls[0] in decls && forall x :: x in decls <==> x == decls[0] || x in decls[1..];
      assert ([d] + env)[1..] == env;
      EnvAgrees(c, decls[1..], [d] + env, target, p);
    }
  }

  lemma {:induction false} NoError(decls: seq<Declaration>)
    requires forall d :: d in decls ==> DeclarationError(d).None?
    ensures FirstError(decls).None?
  {
    if decls != [] {
      assert decls[0] in decls;
      NoError(decls[1..]);
    }
  }

  /** A part that is written for a prefix: it can be read back, and declares what the prefix is bound to. */
  lemma BindPartIs(c: Config, env: seq<Declaration>, name: string, q: Part)
    requires Lawful(c, env) && q in BindPart(c, env, name)
    requires (forall k :: 0 <= k < |name| ==> !EndsName(name[k]))
    requires forall d :: d in env ==> CONTEXT_SEP !in Bare(c, d.uri)
    ensures Readable(q) && q.Bind? && q.name == name
    ensures UriOf(c, env, PrefixNamed(name)) == Some(q.uri + Sep(c)) && q.uri != ""
    ensures DeclarationError(Declaration(PrefixNamed(name), q.uri)).None?
  {
    hide DeclarationError, Bare;
    UriIsLawful(c, env, PrefixNamed(name));
    UriInEnv(c, env, PrefixNamed(name));
  }

  lemma EachPart(c: Config, env: seq<Declaration>, names: seq<string>, entities: seq<Entity>, q: Part)
    requires Lawful(c, env) && Writable(c, env, names, entities) && q in PartsOf(c, env, names, entities)
    ensures Readable(q)
    ensures q.Open? ==> Entity(q.name, true) in entities
    ensures q.Bind? ==> UriOf(c, env, PrefixNamed(q.name)) == Some(q.uri + Sep(c)) && q.uri != ""
    ensures q.Bind? ==> DeclarationError(Declaration(PrefixNamed(q.name), q.uri)).None?
  {
    hide UriOf, DeclarationError, BindPart, Bare;
    BindPartsAre(c, env, [""] + names);
    OpenPartsAre(entities);
    if q in BindParts(c, env, [""] + names) {
      var n :| n in [""] + names && q in BindPart(c, env, n);
      BindPartIs(c, env, n, q);
    } else {
      var e :| e in entities && e.open && q == Open(e.name);
      assert e == Entity(q.name, true);
    }
  }

  function OpenNames(entities: seq<Entity>): set<string> { set e | e in entities && e.open :: e.name }

  lemma OpenedAre(c: Config, env: seq<Declaration>, names: seq<string>, entities: seq<Entity>)
    requires Lawful(c, env) && Writable(c, env, names, entities)
    ensures OpenedBy(PartsOf(c, env, names, entities)) == OpenNames(entities)
  {
    hide Lawful, Writable, UriOf, BindParts;
    var parts := PartsOf(c, env, names, entities);
    OpenPartsAre(entities);
    forall q | q in parts && q.Open?
      ensures q.name in OpenNames(entities)
    {
      EachPart(c, env, names, entities, q);
    }
    forall e | e in entities && e.open
      ensures e.name in OpenedBy(parts)
    {
      assert Open(e.name) in OpenParts(entities);
      assert Open(e.name) in parts;
    }
  }

  /** The declarations a context carries are accepted, and bind every prefix as it was bound. */
  lemma BindingsAre(c: Config, env: seq<Declaration>, names: seq<string>, entities: seq<Entity>, p: Prefix)
    requires Lawful(c, env) && Writable(c, env, names, entities)
    requires p.Some? && UriOf(c, env, p).Some? ==> p.value in names
    ensures FirstError(DeclarationsOf(PartsOf(c, env, names, entities))).None?
    ensures UriOf(c, EnvWith(c, DeclarationsOf(PartsOf(c, env, names, entities)), []), p) == UriOf(c, env, p)
  {
    hide Lawful, Writable, UriOf, DeclarationError, PartsOf, BindPart;
    var parts := PartsOf(c, env, names, entities);
    var decls := DeclarationsOf(parts);
    DeclarationsAre(parts);
    forall d | d in decls
      ensures DeclarationError(d).None? && UriOf(c, env, d.prefix) == Some(d.uri + Sep(c)) && d.uri != ""
    {
      var q :| q in parts && q.Bind? && d == Declaration(PrefixNamed(q.name), q.uri);
      EachPart(c, env, names, entities, q);
    }
    NoError(decls);
    if UriOf(c, env, p).Some? {
      IsWritten(c, env, names, entities, p);
    } else {
      assert UriOf(c, [], p) == None by { NothingBound(c, p); }
    }
    EnvAgrees(c, decls, [], UriOf(c, env, p), p);
  }

  lemma NothingBound(c: Config, p: Prefix)
    ensures UriOf(c, [], p) == None
  {
  }

  lemma IsWritten(c: Config, env: seq<Declaration>, names: seq<string>, entities: seq<Entity>, p: Prefix)
    requires UriOf(c, env, p).Some? && (p.Some? ==> p.value in names) && Writable(c, env, names, entities)
    ensures exists d :: d in DeclarationsOf(PartsOf(c, env, names, entities)) && d.prefix == p
  {
    var n := if p.Some? then p.value else "";
    assert PrefixNamed(n) == p;
    assert n in [""] + names;
    var q := BindPart(c, env, n)[0];
    assert q in BindPart(c, env, n);
    hide BindPart, UriOf;
    BindPartsAre(c, env, [""] + names);
    var parts := PartsOf(c, env, names, entities);
    assert q in parts;
    DeclarationsAre(parts);
    assert Declaration(PrefixNamed(q.name), q.uri) in DeclarationsOf(parts);
  }

  /**
   A parser that takes over the context of another one has every prefix bound to the same namespace,
   and the same entities open, whatever the order of the tables is.
   */
  method CopyContext(parent: Namespaces, child: Namespaces, names: seq<string>, entities: seq<Entity>)
    returns (ok: bool, open: set<string>)
    requires parent.Valid() && child.Valid() && child.tagStack == [] && parent != child && child.config == parent.config
    requires Lawful(parent.config, parent.Env([])) && Writable(parent.config, parent.Env([]), names, entities)
    requires forall n :: UriOf(parent.config, parent.Env([]), Some(n)).Some? ==> n in names
    requires child.Env([]) == []
    modifies child
    ensures ok && child.Valid() && open == OpenNames(entities)
    ensures forall p :: UriOf(child.config, child.Env([]), p) == UriOf(parent.config, parent.Env([]), p)
  {
    hide Good, EnvOf, UriOf, Lawful, Writable, PartsOf, ContextOf, Parts, DeclarationsOf, OpenedBy, EnvWith, FirstError;
    ghost var c, env := parent.config, parent.Env([]);
    var context := GetContext(parent, names, entities);
    ghost var parts := PartsOf(c, env, names, entities);
    forall i | 0 <= i < |parts|
      ensures Readable(parts[i])
    {
      EachPart(c, env, names, entities, parts[i]);
    }
    PartsOfContext(parts);
    OpenedAre(c, env, names, entities);
    BindingsAre(c, env, names, entities, None);
    forall p
      ensures UriOf(c, EnvWith(c, DeclarationsOf(parts), []), p) == UriOf(c, env, p)
    {
      BindingsAre(c, env, names, entities, p);
    }
    var table := set e | e in entities :: e.name;
    ok, open := SetContext(child, context, table);
    assert OpenNames(entities) <= table;
  }
}
