/**
  What the visitor sees, as a trace of events in visiting order, and what a name means at a point of
  the trace: the last binding of it in a scope that is still open.  The visitor, which carries its
  bindings along, resolves every call accordingly.
 */
module ScopeTraces {
  import opened Options
  import opened Scopes

  // ----- what is visited -----

  /** The roots of all calls, in visiting order, whatever scope they stand in. */
  function CallRoots(n: Node): seq<Option<string>> {
    match n
    case Name(_, _) => []
    case Attribute(value, _, _) => CallRoots(value)
    case Assign(targets, rhs) => CallRoots(rhs) + AllCallRoots(targets)
    case Function(_, decorators, defaults, _, body) => AllCallRoots(decorators) + AllCallRoots(defaults) + AllCallRoots(body)
    case Lambda(defaults, _, result) => AllCallRoots(defaults) + CallRoots(result)
    case Comprehension(generators, elements) => GeneratorCallRoots(generators) + AllCallRoots(elements)
    case Class(_, children) => AllCallRoots(children)
    case Import(_) => []
    case ImportFrom(_, _, _) => []
    case Call(func, args) => [Root(func)] + CallRoots(func) + AllCallRoots(args)
    case Other(children) => AllCallRoots(children)
  }

  function AllCallRoots(nodes: seq<Node>): seq<Option<string>> {
    if nodes == [] then [] else CallRoots(nodes[0]) + AllCallRoots(nodes[1..])
  }

  function GeneratorCallRoots(generators: seq<Generator>): seq<Option<string>> {
    if generators == [] then []
    else
      var g := generators[0];
      CallRoots(g.iter) + CallRoots(g.target) + AllCallRoots(g.conditions) + GeneratorCallRoots(generators[1..])
  }

  function RootsOf(calls: seq<CallSite>): (r: seq<Option<string>>)
    ensures |r| == |calls| && forall i :: 0 <= i < |r| ==> r[i] == calls[i].root
  {
    seq(|calls|, i requires 0 <= i < |calls| => calls[i].root)
  }

  lemma {:induction false} RootsOfMore(a: seq<CallSite>, b: seq<CallSite>)
    ensures RootsOf(a + b) == RootsOf(a) + RootsOf(b)
  {
  }

  lemma {:induction false} ImportsKeepAll(aliases: seq<Alias>, s: State)
    ensures AfterImports(aliases, s).calls == s.calls
  {
    if aliases != [] { ImportsKeepAll(aliases[..|aliases| - 1], s); }
  }

  /** A visit adds exactly the calls of the tree, those inside functions, lambdas, comprehensions and classes included. */
  lemma {:induction false} EveryCallIsSeen(n: Node, s: State)
    ensures RootsOf(Visit(n, s).calls) == RootsOf(s.calls) + CallRoots(n)
    decreases n
  {
    hide RootsOf, Unbind, LocalsOf, Resolve, AfterImports;
    match n
    case Name(_, _) =>
    case Attribute(value, _, store) => EveryCallIsSeen(value, AfterStore(value, store, s));
    case Assign(targets, rhs) =>
      EveryCallIsSeen(rhs, s);
      AllCallsAreSeen(targets, Visit(rhs, s));
    case Function(name, decorators, defaults, params, body) =>
      AllCallsAreSeen(decorators, s);
      AllCallsAreSeen(defaults, VisitAll(decorators, s));
      var outside := VisitAll(defaults, VisitAll(decorators, s));
      assert RootsOf(outside.calls) == RootsOf(s.calls) + (AllCallRoots(decorators) + AllCallRoots(defaults));
      AllCallsAreSeen(body, outside.(env := Unbind(Unbind(outside.env[name := None], params), LocalsOf(body))));
      assert RootsOf(Visit(n, s).calls) == RootsOf(outside.calls) + AllCallRoots(body);
    case Lambda(defaults, params, result) =>
      AllCallsAreSeen(defaults, s);
      var outside := VisitAll(defaults, s);
      EveryCallIsSeen(result, outside.(env := Unbind(outside.env, params)));
    case Comprehension(generators, elements) =>
      GeneratorCallsAreSeen(generators, s);
      AllCallsAreSeen(elements, VisitGenerators(generators, s));
    case Class(name, children) => AllCallsAreSeen(children, s.(env := s.env[name := None]));
    case Import(aliases) => ImportsKeepAll(aliases, s);
    case ImportFrom(source, level, aliases) =>
      TakingsKeepCalls(source, level, aliases, if Absolute(source, level) then s.(imports := s.imports + [source.value]) else s);
    case Call(func, args) =>
      var site := CallSite(Root(func), Resolve(func, s.env));
      RootsOfMore(s.calls, [site]);
      EveryCallIsSeen(func, s.(calls := s.calls + [site]));
      AllCallsAreSeen(args, Visit(func, s.(calls := s.calls + [site])));
    case Other(children) => AllCallsAreSeen(children, s);
  }

  lemma {:induction false} AllCallsAreSeen(nodes: seq<Node>, s: State)
    ensures RootsOf(VisitAll(nodes, s).calls) == RootsOf(s.calls) + AllCallRoots(nodes)
    decreases nodes
  {
    if nodes != [] {
      EveryCallIsSeen(nodes[0], s);
      AllCallsAreSeen(nodes[1..], Visit(nodes[0], s));
    }
  }

  lemma {:induction false} GeneratorCallsAreSeen(generators: seq<Generator>, s: State)
    ensures RootsOf(VisitGenerators(generators, s).calls) == RootsOf(s.calls) + GeneratorCallRoots(generators)
    decreases generators
  {
    if generators != [] {
      var g := generators[0];
      var iterated := Visit(g.iter, s);
      var bound := Visit(g.target, iterated);
      var kept := VisitAll(g.conditions, bound);
      assert VisitGenerators(generators, s) == VisitGenerators(generators[1..], kept);
      hide Visit, VisitAll, VisitGenerators, RootsOf, CallRoots, AllCallRoots;
      EveryCallIsSeen(g.iter, s);
      EveryCallIsSeen(g.target, iterated);
      AllCallsAreSeen(g.conditions, bound);
      GeneratorCallsAreSeen(generators[1..], kept);
    }
  }

  // ----- resolution -----

  /** The attributes of a chain, from the root on. */
  function Attributes(n: Node): seq<string> {
    match n
    case Attribute(value, attr, _) => Attributes(value) + [attr]
    case _ => []
  }

  /** A meaning followed by attributes, with dots between them. */
  function Dotted(meaning: string, attributes: seq<string>): string {
    if attributes == [] then meaning
    else Dotted(meaning, attributes[..|attributes| - 1]) + "." + attributes[|attributes| - 1]
  }

  function MeaningWith(meaning: string, attributes: seq<string>): string {
    if meaning == "" then "" else Dotted(meaning, attributes)
  }

  /** A chain resolves to what its root means, followed by its attributes; anything else to nothing. */
  lemma {:induction false} ResolvesDotted(n: Node, env: Env)
    ensures Resolve(n, env) == if Root(n).None? then "" else MeaningWith(Lookup(env, Root(n).value), Attributes(n))
  {
    match n
    case Attribute(value, attr, _) =>
      ResolvesDotted(value, env);
      assert (Attributes(value) + [attr])[..|Attributes(value)|] == Attributes(value);
      if Root(value).Some? && Lookup(env, Root(value).value) != "" { DottedNotEmpty(Lookup(env, Root(value).value), Attributes(value)); }
    case _ =>
  }

  lemma {:induction false} DottedNotEmpty(meaning: string, attributes: seq<string>)
    requires meaning != ""
    ensures Dotted(meaning, attributes) != ""
  {
  }

  // ----- events -----

  datatype Event =
    | Bound(name: string, meaning: Option<string>) | Recorded(name: string)
    | Called(root: Option<string>, attributes: seq<string>) | Enter | Leave

  function Shadowed(names: seq<string>): (r: seq<Event>)
    ensures |r| == |names| && forall i :: 0 <= i < |r| ==> r[i] == Bound(names[i], None)
  {
    seq(|names|, i requires 0 <= i < |names| => Bound(names[i], None))
  }

  function ImportEvents(aliases: seq<Alias>): seq<Event> {
    if aliases == [] then []
    else
      var a := aliases[|aliases| - 1];
      var top := Head(a.name);
      ImportEvents(aliases[..|aliases| - 1])
        + [if a.asname.Some? && a.asname.value != "" then Bound(a.asname.value, Some(a.name)) else Bound(top, Some(top)), Recorded(a.name)]
  }

  /** The name an alias of a from-import binds. */
  function Taken(a: Alias): string { if a.asname.Some? && a.asname.value != "" then a.asname.value else a.name }

  function FromEvents(source: string, aliases: seq<Alias>): seq<Event> {
    if aliases == [] then [Recorded(source)]
    else
      var a := aliases[|aliases| - 1];
      FromEvents(source, aliases[..|aliases| - 1])
        + [Bound(Taken(a), Some(source + "." + a.name)), Recorded(source + "." + a.name)]
  }

  function RelativeEvents(aliases: seq<Alias>): seq<Event> {
    if aliases == [] then []
    else RelativeEvents(aliases[..|aliases| - 1]) + [Bound(Taken(aliases[|aliases| - 1]), None)]
  }

  /** Storing into an attribute takes its meaning from the name at its root. */
  function StoreEvents(value: Node, store: bool): seq<Event> {
    if store && Root(value).Some? then [Bound(Root(value).value, None)] else []
  }

  function Events(n: Node): seq<Event> {
    match n
    case Name(id, store) => if store then [Bound(id, None)] else []
    case Attribute(value, _, store) => StoreEvents(value, store) + Events(value)
    case Assign(targets, rhs) => Events(rhs) + AllEvents(targets)
    case Function(name, decorators, defaults, params, body) =>
      AllEvents(decorators) + AllEvents(defaults) + [Bound(name, None), Enter]
        + Shadowed(params) + Shadowed(LocalsOf(body)) + AllEvents(body) + [Leave]
    case Lambda(defaults, params, result) => AllEvents(defaults) + [Enter] + Shadowed(params) + Events(result) + [Leave]
    case Comprehension(generators, elements) => [Enter] + GeneratorEvents(generators) + AllEvents(elements) + [Leave]
    case Class(name, children) => [Bound(name, None), Enter] + AllEvents(children) + [Leave]
    case Import(aliases) => ImportEvents(aliases)
    case ImportFrom(source, level, aliases) =>
      if source.Some? && level == 0 then FromEvents(source.value, aliases) else RelativeEvents(aliases)
    case Call(func, args) => [Called(Root(func), Attributes(func))] + Events(func) + AllEvents(args)
    case Other(children) => AllEvents(children)
  }

  function AllEvents(nodes: seq<Node>): seq<Event> {
    if nodes == [] then [] else Events(nodes[0]) + AllEvents(nodes[1..])
  }

  function GeneratorEvents(generators: seq<Generator>): seq<Event> {
    if generators == [] then []
    else OneGenerator(generators[0]) + GeneratorEvents(generators[1..])
  }

  function OneGenerator(g: Generator): seq<Event> {
    Events(g.iter) + (Events(g.target) + AllEvents(g.conditions))
  }

  /** What x means after the trace: the last binding outside of the scopes that have been left; closed of them are open backwards. */
  function Meaning(trace: seq<Event>, x: string, closed: nat): string {
    if trace == [] then ""
    else
      var before := trace[..|trace| - 1];
      match trace[|trace| - 1]
      case Bound(name, meaning) =>
        if closed == 0 && name == x then (if meaning.Some? then meaning.value else "") else Meaning(before, x, closed)
      case Leave => Meaning(before, x, closed + 1)
      case Enter => Meaning(before, x, if closed > 0 then closed - 1 else 0)
      case _ => Meaning(before, x, closed)
  }

  /** Every call with what its chain means where it stands. */
  function CallsOf(trace: seq<Event>): seq<CallSite> {
    if trace == [] then []
    else
      var before := trace[..|trace| - 1];
      match trace[|trace| - 1]
      case Called(root, attributes) =>
        CallsOf(before) + [CallSite(root, if root.Some? then MeaningWith(Meaning(before, root.value, 0), attributes) else "")]
      case _ => CallsOf(before)
  }

  function ImportsOf(trace: seq<Event>): seq<string> {
    if trace == [] then []
    else
      var before := trace[..|trace| - 1];
      match trace[|trace| - 1]
      case Recorded(name) => ImportsOf(before) + [name]
      case _ => ImportsOf(before)
  }

  /** The state is what the trace says. */
  ghost predicate Agrees(trace: seq<Event>, s: State) {
    (forall x :: Lookup(s.env, x) == Meaning(trace, x, 0)) && s.calls == CallsOf(trace) && s.imports == ImportsOf(trace)
  }

  // ----- scopes that have been left do not matter -----

  lemma {:induction false} LastEvent(trace: seq<Event>, e: Event, x: string, closed: nat)
    ensures Meaning(trace + [e], x, closed) ==
      match e
      case Bound(name, meaning) =>
        if closed == 0 && name == x then (if meaning.Some? then meaning.value else "") else Meaning(trace, x, closed)
      case Leave => Meaning(trace, x, closed + 1)
      case Enter => Meaning(trace, x, if closed > 0 then closed - 1 else 0)
      case _ => Meaning(trace, x, closed)
  {
    assert (trace + [e])[..|trace|] == trace;
  }

  /** Events that a scope which has been left hides. */
  ghost predicate Hidden(events: seq<Event>) {
    forall trace, x, closed: nat :: closed > 0 ==> Meaning(trace + events, x, closed) == Meaning(trace, x, closed)
  }

  lemma {:induction false} NoneHidden()
    ensures Hidden([])
  {
    forall trace: seq<Event>, x, closed: nat | closed > 0 ensures Meaning(trace + [], x, closed) == Meaning(trace, x, closed) {
      assert trace + [] == trace;
    }
  }

  lemma {:induction false} HiddenTogether(a: seq<Event>, b: seq<Event>)
    requires Hidden(a) && Hidden(b)
    ensures Hidden(a + b)
  {
    forall trace, x, closed: nat | closed > 0 ensures Meaning(trace + (a + b), x, closed) == Meaning(trace, x, closed) {
      assert trace + (a + b) == (trace + a) + b;
    }
  }

  lemma {:induction false} OneHidden(e: Event)
    requires !e.Enter? && !e.Leave?
    ensures Hidden([e])
  {
    forall trace, x, closed: nat | closed > 0 ensures Meaning(trace + [e], x, closed) == Meaning(trace, x, closed) {
      LastEvent(trace, e, x, closed);
    }
  }

  lemma {:induction false} ScopeHidden(events: seq<Event>)
    requires Hidden(events)
    ensures Hidden([Enter] + events + [Leave])
    ensures forall trace, x :: Meaning(trace + ([Enter] + events + [Leave]), x, 0) == Meaning(trace, x, 0)
  {
    forall trace: seq<Event>, x, closed: nat
      ensures Meaning(trace + ([Enter] + events + [Leave]), x, closed) == Meaning(trace, x, closed)
    {
      assert trace + ([Enter] + events + [Leave]) == ((trace + [Enter]) + events) + [Leave];
      LastEvent((trace + [Enter]) + events, Leave, x, closed);
      LastEvent(trace, Enter, x, closed + 1);
    }
  }

  lemma {:induction false} ShadowedHidden(names: seq<string>)
    ensures Hidden(Shadowed(names))
  {
    if names == [] {
      NoneHidden();
    } else {
      var front, last := names[..|names| - 1], Bound(names[|names| - 1], None);
      ShadowedHidden(front);
      OneHidden(last);
      HiddenTogether(Shadowed(front), [last]);
      assert Shadowed(names) == Shadowed(front) + [last];
    }
  }

  lemma {:induction false} TwoHidden(a: Event, b: Event)
    requires !a.Enter? && !a.Leave? && !b.Enter? && !b.Leave?
    ensures Hidden([a, b])
  {
    OneHidden(a);
    OneHidden(b);
    HiddenTogether([a], [b]);
    assert [a] + [b] == [a, b];
  }

  lemma {:induction false} ImportsHidden(aliases: seq<Alias>)
    ensures Hidden(ImportEvents(aliases))
  {
    if aliases == [] {
      NoneHidden();
    } else {
      var front, a := aliases[..|aliases| - 1], aliases[|aliases| - 1];
      var top := Head(a.name);
      var bound := if a.asname.Some? && a.asname.value != "" then Bound(a.asname.value, Some(a.name)) else Bound(top, Some(top));
      ImportsHidden(front);
      TwoHidden(bound, Recorded(a.name));
      HiddenTogether(ImportEvents(front), [bound, Recorded(a.name)]);
    }
  }

  lemma {:induction false} FromHidden(source: string, aliases: seq<Alias>)
    ensures Hidden(FromEvents(source, aliases))
  {
    if aliases == [] {
      OneHidden(Recorded(source));
    } else {
      var front, a := aliases[..|aliases| - 1], aliases[|aliases| - 1];
      FromHidden(source, front);
      TwoHidden(Bound(Taken(a), Some(source + "." + a.name)), Recorded(source + "." + a.name));
      HiddenTogether(FromEvents(source, front), [Bound(Taken(a), Some(source + "." + a.name)), Recorded(source + "." + a.name)]);
    }
  }

  lemma {:induction false} RelativeHidden(aliases: seq<Alias>)
    ensures Hidden(RelativeEvents(aliases))
  {
    if aliases == [] {
      NoneHidden();
    } else {
      var front, a := aliases[..|aliases| - 1], aliases[|aliases| - 1];
      RelativeHidden(front);
      OneHidden(Bound(Taken(a), None));
      HiddenTogether(RelativeEvents(front), [Bound(Taken(a), None)]);
    }
  }

  lemma {:induction false} EventsHidden(n: Node)
    ensures Hidden(Events(n))
    decreases n
  {
    hide Hidden;
    NoneHidden();
    match n
    case Name(id, store) => OneHidden(Bound(id, None));
    case Attribute(value, _, store) =>
      EventsHidden(value);
      if store && Root(value).Some? { OneHidden(Bound(Root(value).value, None)); }
      HiddenTogether(StoreEvents(value, store), Events(value));
    case Assign(targets, rhs) =>
      EventsHidden(rhs);
      AllHidden(targets);
      HiddenTogether(Events(rhs), AllEvents(targets));
    case Function(name, decorators, defaults, params, body) =>
      AllHidden(decorators);
      AllHidden(defaults);
      AllHidden(body);
      FunctionHidden(name, AllEvents(decorators), AllEvents(defaults), params, LocalsOf(body), AllEvents(body));
      FunctionEvents(name, decorators, defaults, params, body);
    case Lambda(defaults, params, result) =>
      AllHidden(defaults);
      EventsHidden(result);
      ShadowedHidden(params);
      HiddenTogether(Shadowed(params), Events(result));
      ScopeHidden(Shadowed(params) + Events(result));
      HiddenTogether(AllEvents(defaults), [Enter] + (Shadowed(params) + Events(result)) + [Leave]);
      assert Events(n) == AllEvents(defaults) + ([Enter] + (Shadowed(params) + Events(result)) + [Leave]);
    case Comprehension(generators, elements) =>
      GeneratorsHidden(generators);
      AllHidden(elements);
      HiddenTogether(GeneratorEvents(generators), AllEvents(elements));
      ScopeHidden(GeneratorEvents(generators) + AllEvents(elements));
      assert Events(n) == [Enter] + (GeneratorEvents(generators) + AllEvents(elements)) + [Leave];
    case Class(name, children) =>
      AllHidden(children);
      OneHidden(Bound(name, None));
      ScopeHidden(AllEvents(children));
      HiddenTogether([Bound(name, None)], [Enter] + AllEvents(children) + [Leave]);
      assert Events(n) == [Bound(name, None)] + ([Enter] + AllEvents(children) + [Leave]);
    case Import(aliases) => ImportsHidden(aliases);
    case ImportFrom(source, level, aliases) =>
      if source.Some? && level == 0 { FromHidden(source.value, aliases); } else { RelativeHidden(aliases); }
    case Call(func, args) =>
      OneHidden(Called(Root(func), Attributes(func)));
      EventsHidden(func);
      AllHidden(args);
      HiddenTogether([Called(Root(func), Attributes(func))], Events(func));
      HiddenTogether([Called(Root(func), Attributes(func))] + Events(func), AllEvents(args));
    case Other(children) => AllHidden(children);
  }

  /** What goes on inside a function. */
  function Inside(params: seq<string>, locals: seq<string>, body: seq<Event>): seq<Event> {
    [Enter] + (Shadowed(params) + Shadowed(locals) + body) + [Leave]
  }

  lemma {:induction false} FunctionEvents(name: string, decorators: seq<Node>, defaults: seq<Node>, params: seq<string>, body: seq<Node>)
    ensures Events(Function(name, decorators, defaults, params, body)) ==
      AllEvents(decorators) + AllEvents(defaults) + [Bound(name, None)] + Inside(params, LocalsOf(body), AllEvents(body))
  {
  }

  lemma {:induction false} FunctionHidden(name: string, decorators: seq<Event>, defaults: seq<Event>, params: seq<string>, locals: seq<string>, body: seq<Event>)
    requires Hidden(decorators) && Hidden(defaults) && Hidden(body)
    ensures Hidden(Inside(params, locals, body))
    ensures forall trace, x :: Meaning(trace + Inside(params, locals, body), x, 0) == Meaning(trace, x, 0)
    ensures Hidden(decorators + defaults + [Bound(name, None)] + Inside(params, locals, body))
  {
    ShadowedHidden(params);
    ShadowedHidden(locals);
    hide Hidden;
    HiddenTogether(Shadowed(params), Shadowed(locals));
    HiddenTogether(Shadowed(params) + Shadowed(locals), body);
    ScopeHidden(Shadowed(params) + Shadowed(locals) + body);
    OneHidden(Bound(name, None));
    HiddenTogether(decorators, defaults);
    HiddenTogether(decorators + defaults, [Bound(name, None)]);
    HiddenTogether(decorators + defaults + [Bound(name, None)], Inside(params, locals, body));
  }

  lemma {:induction false} AllHidden(nodes: seq<Node>)
    ensures Hidden(AllEvents(nodes))
    decreases nodes
  {
    hide Hidden;
    if nodes == [] {
      NoneHidden();
    } else {
      EventsHidden(nodes[0]);
      AllHidden(nodes[1..]);
      HiddenTogether(Events(nodes[0]), AllEvents(nodes[1..]));
    }
  }

  lemma {:induction false} GeneratorsHidden(generators: seq<Generator>)
    ensures Hidden(GeneratorEvents(generators))
    decreases generators
  {
    hide Hidden;
    if generators == [] {
      NoneHidden();
    } else {
      var g := generators[0];
      EventsHidden(g.iter);
      EventsHidden(g.target);
      AllHidden(g.conditions);
      GeneratorsHidden(generators[1..]);
      HiddenTogether(Events(g.target), AllEvents(g.conditions));
      HiddenTogether(Events(g.iter), Events(g.target) + AllEvents(g.conditions));
      HiddenTogether(OneGenerator(g), GeneratorEvents(generators[1..]));
    }
  }

  // ----- the visitor follows the trace -----

  lemma {:induction false} AgreesNext(trace: seq<Event>, e: Event, s: State, t: State)
    requires Agrees(trace, s)
    requires match e
      case Bound(name, meaning) => t == s.(env := s.env[name := meaning])
      case Recorded(name) => t == s.(imports := s.imports + [name])
      case Called(root, attributes) =>
        t == s.(calls := s.calls + [CallSite(root, if root.Some? then MeaningWith(Lookup(s.env, root.value), attributes) else "")])
      case Enter => t == s
      case Leave => false
    ensures Agrees(trace + [e], t)
  {
    assert (trace + [e])[..|trace|] == trace;
    forall x ensures Lookup(t.env, x) == Meaning(trace + [e], x, 0) { LastEvent(trace, e, x, 0); }
  }

  /** Leaving a scope: bindings as they were on entering it, calls and imports as they are. */
  lemma {:induction false} AgreesAfter(trace: seq<Event>, events: seq<Event>, outer: State, s: State)
    requires Agrees(trace, outer) && Agrees(trace + ([Enter] + events), s) && Hidden(events)
    ensures Agrees(trace + ([Enter] + events + [Leave]), s.(env := outer.env))
  {
    var all := trace + ([Enter] + events + [Leave]);
    assert all == trace + ([Enter] + events) + [Leave] && all[..|all| - 1] == trace + ([Enter] + events);
    ScopeHidden(events);
  }

  lemma {:induction false} UnbindFollows(trace: seq<Event>, names: seq<string>, s: State)
    requires Agrees(trace, s)
    ensures Agrees(trace + Shadowed(names), s.(env := Unbind(s.env, names)))
  {
    if names == [] {
      assert trace + Shadowed(names) == trace;
    } else {
      var front, last := names[..|names| - 1], Bound(names[|names| - 1], None);
      UnbindFollows(trace, front, s);
      AgreesNext(trace + Shadowed(front), last, s.(env := Unbind(s.env, front)), s.(env := Unbind(s.env, names)));
      assert trace + Shadowed(names) == trace + Shadowed(front) + [last];
    }
  }

  lemma {:induction false} ImportsFollow(trace: seq<Event>, aliases: seq<Alias>, s: State)
    requires Agrees(trace, s)
    ensures Agrees(trace + ImportEvents(aliases), AfterImports(aliases, s))
  {
    if aliases == [] {
      assert trace + ImportEvents(aliases) == trace;
    } else {
      var front, a := aliases[..|aliases| - 1], aliases[|aliases| - 1];
      ImportsFollow(trace, front, s);
      var before, t := trace + ImportEvents(front), AfterImports(front, s);
      var top := Head(a.name);
      var bound := if a.asname.Some? && a.asname.value != "" then Bound(a.asname.value, Some(a.name)) else Bound(top, Some(top));
      var u := t.(env := t.env[bound.name := bound.meaning]);
      AgreesNext(before, bound, t, u);
      AgreesNext(before + [bound], Recorded(a.name), u, u.(imports := u.imports + [a.name]));
      assert trace + ImportEvents(aliases) == before + [bound] + [Recorded(a.name)];
    }
  }

  lemma {:induction false} FromFollows(trace: seq<Event>, source: Option<string>, level: nat, aliases: seq<Alias>, s: State)
    requires Agrees(trace, s) && source.Some? && level == 0
    ensures Agrees(trace + FromEvents(source.value, aliases), AfterImportFrom(source, level, aliases, s))
  {
    if aliases == [] {
      AgreesNext(trace, Recorded(source.value), s, s.(imports := s.imports + [source.value]));
    } else {
      var front, a := aliases[..|aliases| - 1], aliases[|aliases| - 1];
      FromFollows(trace, source, level, front, s);
      var before, t := trace + FromEvents(source.value, front), AfterImportFrom(source, level, front, s);
      var full := source.value + "." + a.name;
      var u := t.(env := t.env[Taken(a) := Some(full)]);
      AgreesNext(before, Bound(Taken(a), Some(full)), t, u);
      AgreesNext(before + [Bound(Taken(a), Some(full))], Recorded(full), u, u.(imports := u.imports + [full]));
      assert trace + FromEvents(source.value, aliases) == before + [Bound(Taken(a), Some(full))] + [Recorded(full)];
    }
  }

  lemma {:induction false} RelativeFollows(trace: seq<Event>, source: Option<string>, level: nat, aliases: seq<Alias>, s: State)
    requires Agrees(trace, s) && !(source.Some? && level == 0)
    ensures Agrees(trace + RelativeEvents(aliases), AfterImportFrom(source, level, aliases, s))
  {
    if aliases == [] {
      assert trace + RelativeEvents(aliases) == trace;
    } else {
      var front, a := aliases[..|aliases| - 1], aliases[|aliases| - 1];
      RelativeFollows(trace, source, level, front, s);
      var before, t := trace + RelativeEvents(front), AfterImportFrom(source, level, front, s);
      AgreesNext(before, Bound(Taken(a), None), t, t.(env := t.env[Taken(a) := None]));
      assert trace + RelativeEvents(aliases) == before + [Bound(Taken(a), None)];
    }
  }

  lemma {:induction false} FunctionFollows(trace: seq<Event>, name: string, params: seq<string>, body: seq<Node>, outside: State)
    requires Agrees(trace, outside)
    ensures var outer := outside.env[name := None];
      Agrees(trace + ([Bound(name, None)] + Inside(params, LocalsOf(body), AllEvents(body))),
             VisitAll(body, outside.(env := Unbind(Unbind(outer, params), LocalsOf(body)))).(env := outer))
    decreases body, 1
  {
    hide Agrees, Unbind, LocalsOf, Hidden;
    var left := outside.(env := outside.env[name := None]);
    AgreesNext(trace, Bound(name, None), outside, left);
    var named := trace + [Bound(name, None)];
    AgreesNext(named, Enter, left, left);
    UnbindFollows(named + [Enter], params, left);
    var inner := left.(env := Unbind(left.env, params));
    UnbindFollows(named + [Enter] + Shadowed(params), LocalsOf(body), inner);
    var start := inner.(env := Unbind(inner.env, LocalsOf(body)));
    AllFollow(named + [Enter] + Shadowed(params) + Shadowed(LocalsOf(body)), body, start);
    var events := Shadowed(params) + Shadowed(LocalsOf(body)) + AllEvents(body);
    assert named + [Enter] + Shadowed(params) + Shadowed(LocalsOf(body)) + AllEvents(body) == named + ([Enter] + events);
    EventsInsideHidden(params, body);
    AgreesAfter(named, events, left, VisitAll(body, start));
    assert trace + ([Bound(name, None)] + Inside(params, LocalsOf(body), AllEvents(body))) == named + ([Enter] + events + [Leave]);
  }

  lemma {:induction false} EventsInsideHidden(params: seq<string>, body: seq<Node>)
    ensures Hidden(Shadowed(params) + Shadowed(LocalsOf(body)) + AllEvents(body))
  {
    hide Hidden;
    ShadowedHidden(params);
    ShadowedHidden(LocalsOf(body));
    AllHidden(body);
    HiddenTogether(Shadowed(params), Shadowed(LocalsOf(body)));
    HiddenTogether(Shadowed(params) + Shadowed(LocalsOf(body)), AllEvents(body));
  }

  lemma {:induction false} LambdaFollows(trace: seq<Event>, params: seq<string>, result: Node, outside: State)
    requires Agrees(trace, outside)
    ensures Agrees(trace + ([Enter] + (Shadowed(params) + Events(result)) + [Leave]),
                   Visit(result, outside.(env := Unbind(outside.env, params))).(env := outside.env))
    decreases result, 2
  {
    AgreesNext(trace, Enter, outside, outside);
    UnbindFollows(trace + [Enter], params, outside);
    var start := outside.(env := Unbind(outside.env, params));
    Follows(trace + [Enter] + Shadowed(params), result, start);
    var events := Shadowed(params) + Events(result);
    assert trace + [Enter] + Shadowed(params) + Events(result) == trace + ([Enter] + events);
    ShadowedHidden(params);
    EventsHidden(result);
    HiddenTogether(Shadowed(params), Events(result));
    AgreesAfter(trace, events, outside, Visit(result, start));
  }

  lemma {:induction false} ComprehensionFollows(trace: seq<Event>, generators: seq<Generator>, elements: seq<Node>, s: State)
    requires Agrees(trace, s)
    ensures Agrees(trace + ([Enter] + (GeneratorEvents(generators) + AllEvents(elements)) + [Leave]),
                   VisitAll(elements, VisitGenerators(generators, s)).(env := s.env))
    decreases Comprehension(generators, elements), 0
  {
    AgreesNext(trace, Enter, s, s);
    GeneratorsFollow(trace + [Enter], generators, s);
    AllFollow(trace + [Enter] + GeneratorEvents(generators), elements, VisitGenerators(generators, s));
    var events := GeneratorEvents(generators) + AllEvents(elements);
    assert trace + [Enter] + GeneratorEvents(generators) + AllEvents(elements) == trace + ([Enter] + events);
    GeneratorsHidden(generators);
    AllHidden(elements);
    HiddenTogether(GeneratorEvents(generators), AllEvents(elements));
    AgreesAfter(trace, events, s, VisitAll(elements, VisitGenerators(generators, s)));
  }

  lemma {:induction false} ClassFollows(trace: seq<Event>, name: string, children: seq<Node>, s: State)
    requires Agrees(trace, s)
    ensures var outer := s.env[name := None];
      Agrees(trace + ([Bound(name, None)] + ([Enter] + AllEvents(children) + [Leave])), VisitAll(children, s.(env := outer)).(env := outer))
    decreases children, 1
  {
    var left, named := s.(env := s.env[name := None]), trace + [Bound(name, None)];
    AgreesNext(trace, Bound(name, None), s, left);
    AgreesNext(named, Enter, left, left);
    AllFollow(named + [Enter], children, left);
    assert named + [Enter] + AllEvents(children) == named + ([Enter] + AllEvents(children));
    AllHidden(children);
    AgreesAfter(named, AllEvents(children), left, VisitAll(children, left));
    assert trace + ([Bound(name, None)] + ([Enter] + AllEvents(children) + [Leave])) == named + ([Enter] + AllEvents(children) + [Leave]);
  }

  lemma {:induction false} CallFollows(trace: seq<Event>, func: Node, args: seq<Node>, s: State)
    requires Agrees(trace, s)
    ensures Agrees(trace + ([Called(Root(func), Attributes(func))] + Events(func) + AllEvents(args)),
                   VisitAll(args, Visit(func, s.(calls := s.calls + [CallSite(Root(func), Resolve(func, s.env))]))))
    decreases Call(func, args), 0
  {
    hide Agrees, Resolve, Attributes;
    var e, t := Called(Root(func), Attributes(func)), s.(calls := s.calls + [CallSite(Root(func), Resolve(func, s.env))]);
    ResolvesDotted(func, s.env);
    AgreesNext(trace, e, s, t);
    Follows(trace + [e], func, t);
    AllFollow(trace + [e] + Events(func), args, Visit(func, t));
    assert trace + ([e] + Events(func) + AllEvents(args)) == trace + [e] + Events(func) + AllEvents(args);
  }

  lemma {:induction false} StoreFollows(trace: seq<Event>, value: Node, store: bool, s: State)
    requires Agrees(trace, s)
    ensures Agrees(trace + StoreEvents(value, store), AfterStore(value, store, s))
  {
    if store && Root(value).Some? {
      AgreesNext(trace, Bound(Root(value).value, None), s, AfterStore(value, store, s));
    } else {
      assert trace + StoreEvents(value, store) == trace;
    }
  }

  lemma Regroup(a: seq<Event>, b: seq<Event>, c: seq<Event>, d: seq<Event>, e: seq<Event>)
    ensures a + (b + c + d + e) == a + b + c + (d + e)
  {
  }

  /** Visiting a node extends the trace by the events of the node. */
  lemma {:induction false} Follows(trace: seq<Event>, n: Node, s: State)
    requires Agrees(trace, s)
    ensures Agrees(trace + Events(n), Visit(n, s))
    decreases n, 1
  {
    hide Agrees, Unbind, LocalsOf, Resolve, AfterStore, StoreEvents, AfterImports, AfterImportFrom, Inside, ImportEvents, FromEvents, RelativeEvents, Attributes;
    match n
    case Name(id, store) =>
      if store { AgreesNext(trace, Bound(id, None), s, s.(env := s.env[id := None])); } else { assert trace + [] == trace; }
    case Attribute(value, _, store) =>
      StoreFollows(trace, value, store, s);
      Follows(trace + StoreEvents(value, store), value, AfterStore(value, store, s));
      assert trace + Events(n) == trace + StoreEvents(value, store) + Events(value);
    case Assign(targets, rhs) =>
      Follows(trace, rhs, s);
      AllFollow(trace + Events(rhs), targets, Visit(rhs, s));
      assert trace + Events(n) == trace + Events(rhs) + AllEvents(targets);
    case Function(name, decorators, defaults, params, body) =>
      AllFollow(trace, decorators, s);
      AllFollow(trace + AllEvents(decorators), defaults, VisitAll(decorators, s));
      FunctionFollows(trace + AllEvents(decorators) + AllEvents(defaults), name, params, body, VisitAll(defaults, VisitAll(decorators, s)));
      FunctionEvents(name, decorators, defaults, params, body);
      Regroup(trace, AllEvents(decorators), AllEvents(defaults), [Bound(name, None)], Inside(params, LocalsOf(body), AllEvents(body)));
    case Lambda(defaults, params, result) =>
      AllFollow(trace, defaults, s);
      LambdaFollows(trace + AllEvents(defaults), params, result, VisitAll(defaults, s));
      assert trace + Events(n) == trace + AllEvents(defaults) + ([Enter] + (Shadowed(params) + Events(result)) + [Leave]);
    case Comprehension(generators, elements) =>
      ComprehensionFollows(trace, generators, elements, s);
      assert Events(n) == [Enter] + (GeneratorEvents(generators) + AllEvents(elements)) + [Leave];
    case Class(name, children) =>
      ClassFollows(trace, name, children, s);
      assert Events(n) == [Bound(name, None)] + ([Enter] + AllEvents(children) + [Leave]);
    case Import(aliases) => ImportsFollow(trace, aliases, s);
    case ImportFrom(source, level, aliases) =>
      if source.Some? && level == 0 { FromFollows(trace, source, level, aliases, s); }
      else { RelativeFollows(trace, source, level, aliases, s); }
    case Call(func, args) =>
      CallFollows(trace, func, args, s);
    case Other(children) => AllFollow(trace, children, s);
  }

  lemma {:induction false} AllFollow(trace: seq<Event>, nodes: seq<Node>, s: State)
    requires Agrees(trace, s)
    ensures Agrees(trace + AllEvents(nodes), VisitAll(nodes, s))
    decreases nodes, 0
  {
    hide Agrees;
    if nodes == [] {
      assert trace + AllEvents(nodes) == trace;
    } else {
      Follows(trace, nodes[0], s);
      AllFollow(trace + Events(nodes[0]), nodes[1..], Visit(nodes[0], s));
      assert trace + AllEvents(nodes) == trace + Events(nodes[0]) + AllEvents(nodes[1..]);
    }
  }

  lemma {:induction false} GeneratorsFollow(trace: seq<Event>, generators: seq<Generator>, s: State)
    requires Agrees(trace, s)
    ensures Agrees(trace + GeneratorEvents(generators), VisitGenerators(generators, s))
    decreases generators, 0
  {
    hide Agrees;
    if generators == [] {
      assert trace + GeneratorEvents(generators) == trace;
    } else {
      var g := generators[0];
      OneFollows(trace, g, s);
      var after := VisitAll(g.conditions, Visit(g.target, Visit(g.iter, s)));
      hide OneGenerator;
      GeneratorsFollow(trace + OneGenerator(g), generators[1..], after);
      assert trace + GeneratorEvents(generators) == trace + OneGenerator(g) + GeneratorEvents(generators[1..]);
    }
  }

  lemma {:induction false} OneFollows(trace: seq<Event>, g: Generator, s: State)
    requires Agrees(trace, s)
    ensures Agrees(trace + OneGenerator(g), VisitAll(g.conditions, Visit(g.target, Visit(g.iter, s))))
    decreases g, 0
  {
    hide Agrees;
    Follows(trace, g.iter, s);
    Follows(trace + Events(g.iter), g.target, Visit(g.iter, s));
    AllFollow(trace + Events(g.iter) + Events(g.target), g.conditions, Visit(g.target, Visit(g.iter, s)));
    assert trace + OneGenerator(g) == trace + Events(g.iter) + Events(g.target) + AllEvents(g.conditions);
  }

  /** Every call is resolved to the last binding of its root in a scope that is open, followed by its attributes. */
  lemma {:induction false} CallsReachBindings(n: Node)
    ensures Visit(n, State(map[], [], [])).calls == CallsOf(Events(n))
    ensures Visit(n, State(map[], [], [])).imports == ImportsOf(Events(n))
    ensures forall x :: Lookup(Visit(n, State(map[], [], [])).env, x) == Meaning(Events(n), x, 0)
  {
    Follows([], n, State(map[], [], []));
    assert [] + Events(n) == Events(n);
  }

  // ----- parameters and locals -----

  /** From position k on, no call rooted at x resolves. */
  ghost predicate SilentFrom(calls: seq<CallSite>, k: nat, x: string) {
    forall i :: k <= i < |calls| && calls[i].root == Some(x) ==> calls[i].resolved == ""
  }

  /**
    The name, a parameter or a local of a function that its body never imports resolves to nothing in
    the calls of the body: those after the calls of decorators and defaults.
   */
  lemma {:induction false} ShadowedInFunction(name: string, decorators: seq<Node>, defaults: seq<Node>, params: seq<string>, body: seq<Node>,
                                              s: State, x: string)
    requires x in params || x in LocalsOf(body)
    requires !ImportsAny(body, x)
    ensures SilentFrom(Visit(Function(name, decorators, defaults, params, body), s).calls,
                       |s.calls| + |AllCallRoots(decorators)| + |AllCallRoots(defaults)|, x)
  {
    AllCallsAreSeen(decorators, s);
    AllCallsAreSeen(defaults, VisitAll(decorators, s));
    var outside := VisitAll(defaults, VisitAll(decorators, s));
    assert |outside.calls| == |RootsOf(outside.calls)|;
    SilentInBody(params, body, outside.env[name := None], outside, x);
  }

  lemma {:induction false} ShadowedInLambda(defaults: seq<Node>, params: seq<string>, result: Node, s: State, x: string)
    requires x in params && !Imports(result, x)
    ensures SilentFrom(Visit(Lambda(defaults, params, result), s).calls, |s.calls| + |AllCallRoots(defaults)|, x)
  {
    AllCallsAreSeen(defaults, s);
    var outside := VisitAll(defaults, s);
    assert |outside.calls| == |RootsOf(outside.calls)|;
    SilentInResult(params, result, outside, x);
  }

  /** Bound in the scope of the node, but not as a local declaration: by an attribute, a decorator or a default. */
  predicate BoundBeside(n: Node, x: string) {
    match n
    case Attribute(value, _, store) => (store && Root(value) == Some(x)) || BoundBeside(value, x)
    case Assign(targets, rhs) => SomeBoundBeside(targets, x) || BoundBeside(rhs, x)
    case Function(_, decorators, defaults, _, _) => BindsAny(decorators, x) || BindsAny(defaults, x)
    case Lambda(defaults, _, _) => BindsAny(defaults, x)
    case Call(func, args) => BoundBeside(func, x) || SomeBoundBeside(args, x)
    case Other(children) => SomeBoundBeside(children, x)
    case _ => false
  }

  predicate SomeBoundBeside(nodes: seq<Node>, x: string) {
    nodes != [] && (BoundBeside(nodes[0], x) || SomeBoundBeside(nodes[1..], x))
  }

  /** The local declarations of a body are what it binds in its own scope, except for those other bindings. */
  lemma {:induction false} LocalsAreBound(n: Node, x: string)
    ensures Binds(n, x) <==> x in LocalsIn(n) || BoundBeside(n, x)
    decreases n
  {
    match n
    case Attribute(value, _, _) => LocalsAreBound(value, x);
    case Assign(targets, rhs) =>
      AllLocalsAreBound(targets, x);
      LocalsAreBound(rhs, x);
    case Call(func, args) =>
      LocalsAreBound(func, x);
      AllLocalsAreBound(args, x);
    case Other(children) => AllLocalsAreBound(children, x);
    case _ =>
  }

  lemma {:induction false} AllLocalsAreBound(nodes: seq<Node>, x: string)
    ensures BindsAny(nodes, x) <==> x in LocalsOf(nodes) || SomeBoundBeside(nodes, x)
    decreases nodes
  {
    if nodes != [] {
      LocalsAreBound(nodes[0], x);
      AllLocalsAreBound(nodes[1..], x);
    }
  }

  // ----- what imports leave behind -----

  /** The first component of a dotted name. */
  lemma {:induction false} HeadIs(top: string, rest: string)
    requires '.' !in top && (rest == "" || rest[0] == '.')
    ensures Head(top + rest) == top
  {
    if top == "" {
      assert top + rest == rest;
    } else {
      assert (top + rest)[1..] == top[1..] + rest && (top + rest)[0] == top[0];
      HeadIs(top[1..], rest);
    }
  }

  lemma {:induction false} LastAlias(front: seq<Alias>, a: Alias)
    ensures (front + [a])[..|front|] == front
  {
  }

  /** An import without "as". */
  predicate Unnamed(a: Alias) {
    a.asname.None? || a.asname == Some("")
  }

  /** import m as y leaves y standing for m; without an alias the first component of m stands for itself.  m is recorded. */
  lemma {:induction false} ImportLeaves(front: seq<Alias>, a: Alias, s: State)
    ensures var after := Visit(Import(front + [a]), s);
      && (forall y :: y != "" && a.asname == Some(y) ==> Lookup(after.env, y) == a.name)
      && (forall top, rest | Unnamed(a) && a.name == top + rest && '.' !in top && (rest == "" || rest[0] == '.') ::
            Lookup(after.env, top) == top)
      && after.imports == Visit(Import(front), s).imports + [a.name] && after.calls == s.calls
  {
    LastAlias(front, a);
    ImportsKeepAll(front + [a], s);
    forall top, rest | Unnamed(a) && a.name == top + rest && '.' !in top && (rest == "" || rest[0] == '.')
      ensures Lookup(Visit(Import(front + [a]), s).env, top) == top
    {
      HeadIs(top, rest);
    }
  }

  /** from m import b as y leaves y, or b, standing for m.b, if m is given and absolute, and for nothing otherwise. */
  lemma {:induction false} FromLeaves(source: Option<string>, level: nat, front: seq<Alias>, a: Alias, s: State, y: string)
    requires if a.asname.Some? && a.asname.value != "" then y == a.asname.value else y == a.name
    ensures var after := Visit(ImportFrom(source, level, front + [a]), s);
      && Lookup(after.env, y) == (if source.Some? && level == 0 then source.value + "." + a.name else "")
      && after.imports == Visit(ImportFrom(source, level, front), s).imports
                          + (if source.Some? && level == 0 then [source.value + "." + a.name] else [])
      && (source.Some? && level == 0 ==> Visit(ImportFrom(source, level, []), s).imports == s.imports + [source.value])
  {
    LastAlias(front, a);
  }
}
