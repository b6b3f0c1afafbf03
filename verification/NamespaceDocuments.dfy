/**
 A document with namespaces: the tags that the content parser reports, handled by the tag stack that expands
 names.  An empty element is its start and its end.
 */
module NamespaceDocuments {
  import opened Encodings
  import opened Errors
  import opened Bindings
  import opened Namespaces
  import opened NamespacePrefixes
  import opened NamespaceRuns
  import opened AttributeValues
  import opened Content
  import opened ChunkIndependence
  import opened Nesting

  function Text(b: Bytes): string { seq(|b|, i requires 0 <= i < |b| => b[i] as char) }

  /** The namespace declarations among the attributes, in order. */
  function DeclarationsIn(atts: seq<(Bytes, Bytes)>): seq<Declaration> {
    if atts == [] then []
    else
      var name, rest := Text(atts[0].0), DeclarationsIn(atts[1..]);
      if name == "xmlns" then [Declaration(None, Text(atts[0].1))] + rest
      else if "xmlns:" <= name then [Declaration(Some(name[6..]), Text(atts[0].1))] + rest
      else rest
  }

  /** The attribute at `i` is this declaration. */
  predicate DeclaredBy(atts: seq<(Bytes, Bytes)>, i: nat, d: Declaration)
    requires i < |atts|
  {
    && d.uri == Text(atts[i].1)
    && Text(atts[i].0) == match d.prefix case None => "xmlns" case Some(p) => "xmlns:" + p
  }

  /** The declarations of a tag are its attributes `xmlns` and `xmlns:` with a prefix, and no others. */
  lemma {:induction false} DeclarationIsThere(atts: seq<(Bytes, Bytes)>, d: Declaration)
    ensures d in DeclarationsIn(atts) <==> exists i :: 0 <= i < |atts| && DeclaredBy(atts, i, d)
    decreases |atts|
  {
    hide Text;
    if atts != [] {
      var rest, name := atts[1..], Text(atts[0].0);
      DeclarationIsThere(rest, d);
      NameOfDeclaration(name);
      if d in DeclarationsIn(rest) {
        var i :| 0 <= i < |rest| && DeclaredBy(rest, i, d);
        assert DeclaredBy(atts, i + 1, d);
      }
      if d in DeclarationsIn(atts) && d !in DeclarationsIn(rest) { assert DeclaredBy(atts, 0, d); }
      forall i | 0 <= i < |atts| && DeclaredBy(atts, i, d)
        ensures d in DeclarationsIn(atts)
      {
        if i > 0 { assert DeclaredBy(rest, i - 1, d); }
      }
    }
  }

  lemma NameOfDeclaration(name: string)
    ensures "xmlns:" <= name ==> name == "xmlns:" + name[6..] && name != "xmlns"
    ensures forall p: string :: name == "xmlns:" + p ==> "xmlns:" <= name && name[6..] == p
  {
    forall p: string | name == "xmlns:" + p
      ensures "xmlns:" <= name && name[6..] == p
    {
    }
  }

  /** An open element: the name it was reported with, and the declarations in scope within it. */
  datatype Opened = Opened(start: string, env: seq<Declaration>)

  function Innermost(base: seq<Declaration>, open: seq<Opened>): seq<Declaration> {
    if open == [] then base else open[|open| - 1].env
  }

  function Named(e: NameEvent, r: Result<seq<NameEvent>>): Result<seq<NameEvent>> {
    match r
    case Ok(names) => Ok([e] + names)
    case Err(error) => Err(error)
  }

  /** The names that the elements are reported with, or the first error; `base` is in scope around the root. */
  function NamesOf(c: Config, base: seq<Declaration>, open: seq<Opened>, calls: seq<Call>): Result<seq<NameEvent>>
    decreases |calls|, 0
  {
    if calls == [] then Ok([])
    else
      var e := calls[0].event;
      if e.StartElement? then NamesOfStart(c, base, open, e, calls[1..])
      else if e.EndElement? && open != [] then NamesOfEnd(c, base, open, calls[1..])
      else NamesOf(c, base, open, calls[1..])
  }

  /** A start tag, and the calls behind it. */
  function NamesOfStart(c: Config, base: seq<Declaration>, open: seq<Opened>, e: Event, calls: seq<Call>):
    Result<seq<NameEvent>>
    requires e.StartElement?
    decreases |calls|, 1
  {
    var env, decls := Innermost(base, open), DeclarationsIn(e.atts);
    match Reported(c, env, Text(e.name), decls)
    case Err(error) => Err(error)
    case Ok(name) => Named(Start(name), NamesOf(c, base, open + [Opened(name, EnvWith(c, decls, env))], calls))
  }

  /** The end of the innermost element, and the calls behind it. */
  function NamesOfEnd(c: Config, base: seq<Declaration>, open: seq<Opened>, calls: seq<Call>): Result<seq<NameEvent>>
    requires open != []
    decreases |calls|, 1
  {
    Named(End(open[|open| - 1].start), NamesOf(c, base, open[..|open| - 1], calls))
  }

  /** The declarations of all tags are lawful. */
  predicate CallsLawful(calls: seq<Call>) {
    forall i, d :: 0 <= i < |calls| && calls[i].event.StartElement? && d in DeclarationsIn(calls[i].event.atts) ==>
      Lawful(d)
  }

  /**
   Every prefix of a name is declared by its tag or one that is open around it, or known before; `open` has the
   prefixes declared within each open element.
   */
  ghost predicate CallsBound(base: set<string>, open: seq<set<string>>, calls: seq<Call>)
    decreases |calls|
  {
    calls == [] ||
    var e, known := calls[0].event, if open == [] then base else open[|open| - 1];
    if e.StartElement? then
      && (forall p :: HasPrefix(Text(e.name), p) ==> p in known || Declares(DeclarationsIn(e.atts), p))
      && CallsBound(base, open + [known + Prefixes(DeclarationsIn(e.atts))], calls[1..])
    else if e.EndElement? && open != [] then CallsBound(base, open[..|open| - 1], calls[1..])
    else CallsBound(base, open, calls[1..])
  }

  /** The prefixes declared within open elements. */
  function Known(open: seq<Opened>): (r: seq<set<string>>)
    ensures |r| == |open|
  {
    seq(|open|, i requires 0 <= i < |open| => Prefixes(open[i].env))
  }

  lemma KnownInnermost(base: seq<Declaration>, open: seq<Opened>)
    ensures Prefixes(Innermost(base, open))
      == if open == [] then Prefixes(base) else Known(open)[|open| - 1]
  {
  }

  lemma RestLawful(calls: seq<Call>)
    requires calls != [] && CallsLawful(calls)
    ensures CallsLawful(calls[1..])
    ensures calls[0].event.StartElement? ==>
      forall i :: 0 <= i < |DeclarationsIn(calls[0].event.atts)| ==> Lawful(DeclarationsIn(calls[0].event.atts)[i])
  {
    hide Lawful, DeclarationsIn;
    if calls[0].event.StartElement? {
      var decls := DeclarationsIn(calls[0].event.atts);
      assert forall i :: 0 <= i < |decls| ==> decls[i] in decls;
    }
    assert forall i :: 0 <= i < |calls[1..]| ==> calls[1..][i] == calls[i + 1];
  }

  /** With lawful declarations the names can be reported if and only if all prefixes of names are declared. */
  lemma {:induction false} NamesExactlyIf(c: Config, base: seq<Declaration>, open: seq<Opened>, calls: seq<Call>)
    requires CallsLawful(calls)
    ensures if CallsBound(Prefixes(base), Known(open), calls) then NamesOf(c, base, open, calls).Ok?
      else NamesOf(c, base, open, calls) == Err(UnboundPrefix)
    decreases |calls|
  {
    hide Reported, HasPrefix, Declares, Lawful, EnvWith, Prefixes, DeclarationsIn, CallsLawful;
    if calls != [] {
      var e := calls[0].event;
      RestLawful(calls);
      KnownInnermost(base, open);
      if e.StartElement? {
        var env, decls := Innermost(base, open), DeclarationsIn(e.atts);
        TagIsBound(c, env, Text(e.name), decls);
        if Reported(c, env, Text(e.name), decls).Ok? {
          var inner := open + [Opened(Reported(c, env, Text(e.name), decls).value, EnvWith(c, decls, env))];
          assert Known(inner) == Known(open) + [Prefixes(env) + Prefixes(decls)];
          NamesExactlyIf(c, base, inner, calls[1..]);
        }
      } else if e.EndElement? && open != [] {
        assert Known(open[..|open| - 1]) == Known(open)[..|open| - 1];
        NamesExactlyIf(c, base, open[..|open| - 1], calls[1..]);
      } else {
        NamesExactlyIf(c, base, open, calls[1..]);
      }
    }
  }

  /** The names of the elements that are open after the events, if each end has the name of its start. */
  function NestNames(open: seq<string>, events: seq<NameEvent>): Option<seq<string>>
    decreases |events|
  {
    if events == [] then Some(open)
    else if events[0].Start? then NestNames(open + [events[0].name], events[1..])
    else if open == [] || open[|open| - 1] != events[0].name then None
    else NestNames(open[..|open| - 1], events[1..])
  }

  function Starts(open: seq<Opened>): (r: seq<string>)
    ensures |r| == |open|
  {
    seq(|open|, i requires 0 <= i < |open| => open[i].start)
  }

  /** Where the tags of a document nest, their expanded names do: each end is reported with the name of its start. */
  lemma {:induction false} NamesNest(c: Config, base: seq<Declaration>, open: seq<Opened>, raw: seq<Bytes>,
                                     calls: seq<Call>)
    requires |raw| == |open| && Nest(raw, calls).Some? && NamesOf(c, base, open, calls).Ok?
    ensures var left := NestNames(Starts(open), NamesOf(c, base, open, calls).value);
      left.Some? && |left.value| == |Nest(raw, calls).value|
    decreases |calls|
  {
    hide Reported, EnvWith, DeclarationsIn;
    if calls != [] {
      var e := calls[0].event;
      if e.StartElement? {
        var env, decls := Innermost(base, open), DeclarationsIn(e.atts);
        var inner := open + [Opened(Reported(c, env, Text(e.name), decls).value, EnvWith(c, decls, env))];
        assert Starts(inner) == Starts(open) + [inner[|open|].start];
        NamesNest(c, base, inner, raw + [e.name], calls[1..]);
        NestsFirst(Starts(open), NamesOf(c, base, open, calls).value, NamesOf(c, base, inner, calls[1..]).value);
      } else if e.EndElement? {
        var outer := open[..|open| - 1];
        assert Starts(outer) == Starts(open)[..|open| - 1];
        NamesNest(c, base, outer, raw[..|raw| - 1], calls[1..]);
        NestsFirst(Starts(open), NamesOf(c, base, open, calls).value, NamesOf(c, base, outer, calls[1..]).value);
      } else {
        NamesNest(c, base, open, raw, calls[1..]);
      }
    }
  }

  lemma NestsFirst(open: seq<string>, events: seq<NameEvent>, rest: seq<NameEvent>)
    requires events != [] && events == [events[0]] + rest
    ensures NestNames(open, events) ==
      if events[0].Start? then NestNames(open + [events[0].name], rest)
      else if open == [] || open[|open| - 1] != events[0].name then None
      else NestNames(open[..|open| - 1], rest)
  {
    assert events[1..] == rest;
  }

  // ----- the parser -----

  function OpenedBy(views: seq<View>): (r: seq<Opened>)
    ensures |r| == |views|
  {
    seq(|views|, i requires 0 <= i < |views| => Opened(views[i].start, views[i].env))
  }

  /** The declarations around the root are the last ones in scope everywhere. */
  predicate EndsWith(env: seq<Declaration>, base: seq<Declaration>) {
    |env| >= |base| && env[|env| - |base|..] == base
  }

  ghost predicate AllEndWith(views: seq<View>, base: seq<Declaration>) {
    forall i :: 0 <= i < |views| ==> EndsWith(views[i].env, base)
  }

  lemma EnvWithEnds(c: Config, decls: seq<Declaration>, env: seq<Declaration>, base: seq<Declaration>)
    requires EndsWith(env, base)
    ensures EndsWith(EnvWith(c, decls, env), base)
  {
    hide EnvWith;
    EnvWithSplits(c, decls, env);
    var inner := EnvWith(c, decls, env);
    assert inner[|inner| - |base|..] == inner[|decls|..][|env| - |base|..];
  }

  lemma BaseIs(parser: Namespaces, base: seq<Declaration>)
    requires parser.Valid() && |base| == |parser.inherited| && EndsWith(parser.Env([]), base)
    ensures EnvOf(parser.store, parser.declared, parser.inherited) == base
  {
    hide Good, EnvOf, Scope;
    var scope := Scope(parser.views, parser.inherited);
    assert InScope(parser.Now(), []) == scope;
    InheritedLastInScope(parser.views, parser.inherited);
    EnvSize(parser.store, parser.declared, scope);
    EnvSlice(parser.store, parser.declared, scope, |scope| - |parser.inherited|);
  }

  /** The state of `parser` between two tags. */
  ghost predicate Stands(parser: Namespaces, base: seq<Declaration>, raw: Option<seq<Bytes>>)
    reads parser
  {
    && parser.Valid() && |base| == |parser.inherited| && AllEndWith(parser.views, base)
    && parser.Env([]) == Innermost(base, OpenedBy(parser.views)) && raw.Some? && |raw.value| == |parser.views|
  }

  /**
   The start and end tags of a document: the names they are reported with, or the first error.  When all
   elements are closed, the declarations in scope are those before the document.
   */
  method ReportNames(parser: Namespaces, calls: seq<Call>) returns (r: Result<seq<NameEvent>>)
    requires parser.Valid() && parser.tagStack == [] && Nest([], calls).Some?
    modifies parser
    ensures r == NamesOf(parser.config, old(parser.Env([])), [], calls)
    ensures CallsLawful(calls) ==>
      if CallsBound(Prefixes(old(parser.Env([]))), [], calls) then r.Ok? else r == Err(UnboundPrefix)
    ensures r.Ok? ==> parser.Valid() && |parser.tagStack| == |Nest([], calls).value|
    ensures r.Ok? && Nest([], calls).value == [] ==> parser.Env([]) == old(parser.Env([]))
  {
    hide Good, EnvOf, Reported, EnvWith, NamesOf, Nest, AllNamed, GoesOn, CallsLawful, CallsBound, Prefixes;
    ghost var base := parser.Env([]);
    assert Known([]) == [];
    if CallsLawful(calls) { NamesExactlyIf(parser.config, base, [], calls); }
    StackSize(parser.config, parser.Now(), []);
    NothingOpen(parser);
    NothingNamed(parser.config, base, []);
    NoCall([]);
    var names: seq<NameEvent> := [];
    var i := 0;
    assert calls[0..] == calls && calls[..0] == [];
    while i < |calls|
      invariant 0 <= i <= |calls| && Stands(parser, base, Nest([], calls[..i]))
      invariant NamesOf(parser.config, base, [], calls)
        == AllNamed(names, NamesOf(parser.config, base, OpenedBy(parser.views), calls[i..]))
    {
      NestUpTo(calls, i);
      r := ReportName(parser, calls[i].event, base, calls[i..], Nest([], calls[..i]).value);
      i := i + 1;
      GoesOnTwice(names, r, NamesOf(parser.config, base, OpenedBy(parser.views), calls[i..]));
      if r.Err? { return; }
      names := names + r.value;
    }
    assert calls[i..] == [] && calls[..i] == calls;
    NothingNamed(parser.config, base, OpenedBy(parser.views));
    StackSize(parser.config, parser.Now(), []);
    r := Ok(names);
  }

  lemma NestUpTo(calls: seq<Call>, i: nat)
    requires Nest([], calls).Some? && i < |calls|
    ensures calls[i..][0] == calls[i] && calls[i..][1..] == calls[i + 1..]
    ensures Nest([], calls[..i]).Some? && Nest([], calls[..i + 1]).Some?
    ensures Nest(Nest([], calls[..i]).value, [calls[i]]) == Nest([], calls[..i + 1])
  {
    hide Nest;
    assert calls[..i + 1] == calls[..i] + [calls[i]];
    assert calls == calls[..i + 1] + calls[i + 1..];
    NestAppend([], calls[..i + 1], calls[i + 1..]);
    NestAppend([], calls[..i], [calls[i]]);
  }

  /** One call. */
  method ReportName(parser: Namespaces, e: Event, ghost base: seq<Declaration>, ghost calls: seq<Call>,
                    ghost raw: seq<Bytes>) returns (r: Result<seq<NameEvent>>)
    requires Stands(parser, base, Some(raw)) && calls != [] && calls[0].event == e && Nest(raw, [calls[0]]).Some?
    modifies parser
    ensures r.Ok? ==> Stands(parser, base, Nest(raw, [calls[0]]))
    ensures NamesOf(parser.config, base, OpenedBy(old(parser.views)), calls)
      == GoesOn(r, NamesOf(parser.config, base, OpenedBy(parser.views), calls[1..]))
  {
    hide Stands, Nest, NamesOfStart, NamesOfEnd, Innermost, OpenedBy, GoesOn;
    OneCall(raw, calls[0]);
    SameDepth(parser, base, raw);
    if e.StartElement? {
      r := ReportStart(parser, e, base, raw, calls[1..]);
    } else if e.EndElement? {
      r := ReportEnd(parser, base, raw, calls[1..]);
    } else {
      r := Ok([]);
      NothingGoesOn(NamesOf(parser.config, base, OpenedBy(parser.views), calls[1..]));
    }
  }

  lemma SameDepth(parser: Namespaces, base: seq<Declaration>, raw: seq<Bytes>)
    requires Stands(parser, base, Some(raw))
    ensures |parser.views| == |raw|
  {
  }

  /** What has been reported, and then the rest. */
  function GoesOn(r: Result<seq<NameEvent>>, rest: Result<seq<NameEvent>>): Result<seq<NameEvent>> {
    match r
    case Ok(names) => AllNamed(names, rest)
    case Err(error) => Err(error)
  }

  lemma NothingGoesOn(rest: Result<seq<NameEvent>>)
    ensures GoesOn(Ok([]), rest) == rest
  {
    if rest.Ok? { assert [] + rest.value == rest.value; }
  }

  method ReportStart(parser: Namespaces, e: Event, ghost base: seq<Declaration>, ghost raw: seq<Bytes>,
                     ghost calls: seq<Call>) returns (r: Result<seq<NameEvent>>)
    requires Stands(parser, base, Some(raw)) && e.StartElement?
    modifies parser
    ensures r.Ok? ==> Stands(parser, base, Some(raw + [e.name]))
    ensures NamesOfStart(parser.config, base, OpenedBy(old(parser.views)), e, calls)
      == GoesOn(r, NamesOf(parser.config, base, OpenedBy(parser.views), calls))
  {
    hide Good, EnvOf, Reported, EnvWith, NamesOf;
    ghost var was, env := parser.views, parser.Env([]);
    var decls := DeclarationsIn(e.atts);
    var name := parser.StartElement(Text(e.name), decls);
    if name.Err? { return Err(name.error); }
    assert OpenedBy(parser.views) == OpenedBy(was) + [Opened(name.value, EnvWith(parser.config, decls, env))];
    EnvEnds(was, base);
    EnvWithEnds(parser.config, decls, env, base);
    r := Ok([Start(name.value)]);
  }

  method ReportEnd(parser: Namespaces, ghost base: seq<Declaration>, ghost raw: seq<Bytes>, ghost calls: seq<Call>)
    returns (r: Result<seq<NameEvent>>)
    requires Stands(parser, base, Some(raw)) && raw != []
    modifies parser
    ensures r.Ok? && Stands(parser, base, Some(raw[..|raw| - 1]))
    ensures NamesOfEnd(parser.config, base, OpenedBy(old(parser.views)), calls)
      == GoesOn(r, NamesOf(parser.config, base, OpenedBy(parser.views), calls))
  {
    hide Good, EnvOf, NamesOf;
    ghost var was := parser.views;
    StackSize(parser.config, parser.Now(), []);
    EnvEnds(was, base);
    BaseIs(parser, base);
    var name := parser.EndElement();
    assert OpenedBy(parser.views) == OpenedBy(was)[..|was| - 1];
    r := Ok([End(name)]);
  }

  lemma EnvEnds(views: seq<View>, base: seq<Declaration>)
    requires AllEndWith(views, base)
    ensures EndsWith(Innermost(base, OpenedBy(views)), base)
  {
  }

  lemma NothingOpen(parser: Namespaces)
    requires parser.Valid() && parser.views == []
    ensures |parser.Env([])| == |parser.inherited|
  {
    hide Good;
    EnvSize(parser.store, parser.declared, parser.inherited);
    assert InScope(parser.Now(), []) == parser.inherited;
  }

  function AllNamed(names: seq<NameEvent>, r: Result<seq<NameEvent>>): Result<seq<NameEvent>> {
    match r
    case Ok(more) => Ok(names + more)
    case Err(error) => Err(error)
  }

  lemma GoesOnTwice(names: seq<NameEvent>, r: Result<seq<NameEvent>>, rest: Result<seq<NameEvent>>)
    ensures AllNamed(names, GoesOn(r, rest)) == match r
      case Ok(more) => AllNamed(names + more, rest)
      case Err(error) => Err(error)
  {
    if r.Ok? && rest.Ok? { assert names + (r.value + rest.value) == names + r.value + rest.value; }
  }

  lemma NothingNamed(c: Config, base: seq<Declaration>, open: seq<Opened>)
    ensures NamesOf(c, base, open, []) == Ok([])
    ensures forall r: Result<seq<NameEvent>> :: AllNamed([], r) == r
    ensures forall names: seq<NameEvent> :: AllNamed(names, Ok([])) == Ok(names)
  {
    forall r: Result<seq<NameEvent>>
      ensures AllNamed([], r) == r
    {
      if r.Ok? { assert [] + r.value == r.value; }
    }
    forall names: seq<NameEvent>
      ensures AllNamed(names, Ok([])) == Ok(names)
    {
      assert names + [] == names;
    }
  }

  // ----- whole documents -----

  /** The calls that are not character data. */
  function Marks(atoms: seq<Atom>): seq<Call> {
    if atoms == [] then []
    else (if atoms[0].Mark? then [Call(atoms[0].e, atoms[0].at)] else []) + Marks(atoms[1..])
  }

  lemma {:induction false} MarksAppend(a: seq<Atom>, b: seq<Atom>)
    ensures Marks(a + b) == Marks(a) + Marks(b)
  {
    if a == [] {
      assert a + b == b;
    } else {
      assert (a + b)[0] == a[0] && (a + b)[1..] == a[1..] + b;
      MarksAppend(a[1..], b);
      var first := if a[0].Mark? then [Call(a[0].e, a[0].at)] else [];
      assert first + (Marks(a[1..]) + Marks(b)) == first + Marks(a[1..]) + Marks(b);
    }
  }

  lemma {:induction false} NoMarks(data: seq<Atom>)
    requires forall a :: a in data ==> a.Datum?
    ensures Marks(data) == []
  {
    if data != [] {
      assert data[0] in data;
      NoMarks(data[1..]);
    }
  }

  /** Character data does not change the names. */
  lemma {:induction false} NamesOfMarks(c: Config, base: seq<Declaration>, open: seq<Opened>, calls: seq<Call>)
    ensures NamesOf(c, base, open, calls) == NamesOf(c, base, open, Marks(Atoms(calls)))
    decreases |calls|
  {
    hide Reported, EnvWith, DeclarationsIn;
    if calls != [] {
      var e := calls[0].event;
      MarksAppend(AtomsOf(calls[0]), Atoms(calls[1..]));
      if e.CharacterData? {
        NoMarks(AtomsOf(calls[0]));
        assert Marks(Atoms(calls)) == [] + Marks(Atoms(calls[1..])) == Marks(Atoms(calls[1..]));
        NamesOfMarks(c, base, open, calls[1..]);
      } else {
        assert Marks([Mark(e, calls[0].at)]) == [calls[0]] by { assert [Mark(e, calls[0].at)][1..] == []; }
        assert Marks(Atoms(calls))[1..] == Marks(Atoms(calls[1..]));
        if e.StartElement? {
          var env, decls := Innermost(base, open), DeclarationsIn(e.atts);
          if Reported(c, env, Text(e.name), decls).Ok? {
            var name := Reported(c, env, Text(e.name), decls).value;
            NamesOfMarks(c, base, open + [Opened(name, EnvWith(c, decls, env))], calls[1..]);
          }
        } else if e.EndElement? && open != [] {
          NamesOfMarks(c, base, open[..|open| - 1], calls[1..]);
        } else {
          NamesOfMarks(c, base, open, calls[1..]);
        }
      }
    }
  }

  /**
   A document with namespaces: however it is cut, its elements are reported with the same names, or the same
   error is the first one; and each end is reported with the name of its start.
   */
  lemma DocumentIsNamed(env: Env, enc: Encoding, c: Config, base: seq<Declaration>, chunks: seq<Bytes>)
    requires chunks != []
    ensures var root := Position(false, []);
      var r, whole := ParseChunks(env, enc, root, [], chunks), Parse(env, enc, root, Concat(chunks), true);
      var names := NamesOf(c, base, [], r.calls);
      && names == NamesOf(c, base, [], whole.calls)
      && (names.Ok? ==> NestNames([], names.value).Some? && (r.end.Closed? ==> NestNames([], names.value) == Some([])))
  {
    hide Parse, ParseChunks, HeldBack, Atoms, Marks, NamesOf, Nest;
    var root := Position(false, []);
    var r, whole := ParseChunks(env, enc, root, [], chunks), Parse(env, enc, root, Concat(chunks), true);
    assert [] + Concat(chunks) == Concat(chunks);
    ChunksDoNotMatter(env, enc, root, [], chunks);
    HeldBackIsData(env, enc, root, Concat(chunks), true);
    SameMarks(Atoms(whole.calls), Atoms(r.calls), HeldBack(env, enc, root, Concat(chunks), true));
    NamesOfMarks(c, base, [], r.calls);
    NamesOfMarks(c, base, [], whole.calls);
    ChunksNest(env, enc, root, [], chunks);
    if NamesOf(c, base, [], r.calls).Ok? {
      NamesNest(c, base, [], [], r.calls);
      assert Starts([]) == [];
    }
  }

  lemma SameMarks(a: seq<Atom>, b: seq<Atom>, held: seq<Atom>)
    requires a <= b <= a + held && forall x :: x in held ==> x.Datum?
    ensures Marks(a) == Marks(b)
  {
    var more := b[|a|..];
    assert b == a + more;
    forall i | 0 <= i < |more|
      ensures more[i].Datum?
    {
      assert more[i] == b[|a| + i] == (a + held)[|a| + i] == held[i];
    }
    MarksAppend(a, more);
    NoMarks(more);
  }
}
