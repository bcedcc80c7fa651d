/**
  Name resolution of the syntax-tree visitor: what every node does to the bindings, and what a
  scope lets through.
 */
module Scopes {
  import opened Options

  datatype Alias = Alias(name: string, asname: Option<string>)

  datatype Generator = Generator(iter: Node, target: Node, conditions: seq<Node>)

  /** store also stands for deletion.  Children of every other node come in visiting order. */
  datatype Node =
    | Name(id: string, store: bool)
    | Attribute(value: Node, attr: string, store: bool)
    | Assign(targets: seq<Node>, rhs: Node)
    | Function(name: string, decorators: seq<Node>, defaults: seq<Node>, params: seq<string>, body: seq<Node>)
    | Lambda(defaults: seq<Node>, params: seq<string>, result: Node)
    | Comprehension(generators: seq<Generator>, elements: seq<Node>)
    | Class(name: string, children: seq<Node>)
    | Import(aliases: seq<Alias>)
    | ImportFrom(source: Option<string>, level: nat, aliases: seq<Alias>)
    | Call(func: Node, args: seq<Node>)
    | Other(children: seq<Node>)

  /** None: the name is known not to stand for an import. */
  type Env = map<string, Option<string>>

  /** A call as it was seen: the name at the root of its function, and what the function resolved to. */
  datatype CallSite = CallSite(root: Option<string>, resolved: string)

  datatype State = State(env: Env, imports: seq<string>, calls: seq<CallSite>)

  function Lookup(env: Env, x: string): string { if x in env && env[x].Some? then env[x].value else "" }

  function Root(n: Node): Option<string> {
    match n
    case Name(id, _) => Some(id)
    case Attribute(value, _, _) => Root(value)
    case _ => None
  }

  function Resolve(n: Node, env: Env): string {
    match n
    case Name(id, _) => Lookup(env, id)
    case Attribute(value, attr, _) => (var parent := Resolve(value, env); if parent == "" then "" else parent + "." + attr)
    case _ => ""
  }

  function Unbind(env: Env, names: seq<string>): Env {
    if names == [] then env else Unbind(env, names[..|names| - 1])[names[|names| - 1] := None]
  }

  // ----- imports -----

  function Head(name: string): string {
    if name == "" || name[0] == '.' then "" else [name[0]] + Head(name[1..])
  }

  /** An empty alias counts as none. */
  predicate Renamed(a: Alias) { a.asname.Some? && a.asname.value != "" }

  function ImportedAs(a: Alias): string { if Renamed(a) then a.asname.value else Head(a.name) }

  function TakenAs(a: Alias): string { if Renamed(a) then a.asname.value else a.name }

  function AfterImport(a: Alias, s: State): State {
    State(s.env[ImportedAs(a) := Some(if Renamed(a) then a.name else Head(a.name))], s.imports + [a.name], s.calls)
  }

  function AfterImports(aliases: seq<Alias>, s: State): State {
    if aliases == [] then s else AfterImport(aliases[|aliases| - 1], AfterImports(aliases[..|aliases| - 1], s))
  }

  /** From a named module of level zero; anything relative only shadows. */
  predicate Absolute(source: Option<string>, level: nat) { source.Some? && level == 0 }

  function AfterTaking(source: Option<string>, level: nat, a: Alias, s: State): State {
    if Absolute(source, level) then
      var full := source.value + "." + a.name;
      State(s.env[TakenAs(a) := Some(full)], s.imports + [full], s.calls)
    else s.(env := s.env[TakenAs(a) := None])
  }

  function AfterTakings(source: Option<string>, level: nat, aliases: seq<Alias>, s: State): State {
    if aliases == [] then s
    else AfterTaking(source, level, aliases[|aliases| - 1], AfterTakings(source, level, aliases[..|aliases| - 1], s))
  }

  function AfterImportFrom(source: Option<string>, level: nat, aliases: seq<Alias>, s: State): State {
    AfterTakings(source, level, aliases, if Absolute(source, level) then s.(imports := s.imports + [source.value]) else s)
  }

  function ImportNames(aliases: seq<Alias>): (names: seq<string>)
    ensures |names| == |aliases| && forall i :: 0 <= i < |names| ==> names[i] == ImportedAs(aliases[i])
  {
    seq(|aliases|, i requires 0 <= i < |aliases| => ImportedAs(aliases[i]))
  }

  function TakenNames(aliases: seq<Alias>): (names: seq<string>)
    ensures |names| == |aliases| && forall i :: 0 <= i < |names| ==> names[i] == TakenAs(aliases[i])
  {
    seq(|aliases|, i requires 0 <= i < |aliases| => TakenAs(aliases[i]))
  }

  // ----- the local names of a function body -----

  /** Names declared by a node in its own scope; nested functions and classes count by their names alone. */
  function LocalsIn(n: Node): seq<string> {
    match n
    case Name(id, store) => if store then [id] else []
    case Attribute(value, _, _) => LocalsIn(value)
    case Assign(targets, rhs) => LocalsOf(targets) + LocalsIn(rhs)
    case Function(name, _, _, _, _) => [name]
    case Lambda(_, _, _) => []
    case Comprehension(_, _) => []
    case Class(name, _) => [name]
    case Import(aliases) => ImportNames(aliases)
    case ImportFrom(_, _, aliases) => TakenNames(aliases)
    case Call(func, args) => LocalsIn(func) + LocalsOf(args)
    case Other(children) => LocalsOf(children)
  }

  function LocalsOf(nodes: seq<Node>): seq<string> {
    if nodes == [] then [] else LocalsIn(nodes[0]) + LocalsOf(nodes[1..])
  }

  // ----- visiting -----

  function Visit(n: Node, s: State): State {
    match n
    case Name(id, store) => if store then s.(env := s.env[id := None]) else s
    case Attribute(value, _, store) => Visit(value, AfterStore(value, store, s))
    case Assign(targets, rhs) => VisitAll(targets, Visit(rhs, s))
    case Function(name, decorators, defaults, params, body) =>
      var outside := VisitAll(defaults, VisitAll(decorators, s));
      var outer := outside.env[name := None];
      VisitAll(body, outside.(env := Unbind(Unbind(outer, params), LocalsOf(body)))).(env := outer)
    case Lambda(defaults, params, result) =>
      var outside := VisitAll(defaults, s);
      Visit(result, outside.(env := Unbind(outside.env, params))).(env := outside.env)
    case Comprehension(generators, elements) =>
      VisitAll(elements, VisitGenerators(generators, s)).(env := s.env)
    case Class(name, children) =>
      var outer := s.env[name := None];
      VisitAll(children, s.(env := outer)).(env := outer)
    case Import(aliases) => AfterImports(aliases, s)
    case ImportFrom(source, level, aliases) => AfterImportFrom(source, level, aliases, s)
    case Call(func, args) =>
      VisitAll(args, Visit(func, s.(calls := s.calls + [CallSite(Root(func), Resolve(func, s.env))])))
    case Other(children) => VisitAll(children, s)
  }

  /** Storing into an attribute makes the name at its root unresolved. */
  function AfterStore(value: Node, store: bool, s: State): State {
    if store && Root(value).Some? then s.(env := s.env[Root(value).value := None]) else s
  }

  function VisitAll(nodes: seq<Node>, s: State): State {
    if nodes == [] then s else VisitAll(nodes[1..], Visit(nodes[0], s))
  }

  function VisitGenerators(generators: seq<Generator>, s: State): State {
    if generators == [] then s
    else
      var g := generators[0];
      VisitGenerators(generators[1..], VisitAll(g.conditions, Visit(g.target, Visit(g.iter, s))))
  }

  // ----- what a node can bind in the scope it stands in -----

  predicate Binds(n: Node, x: string) {
    match n
    case Name(id, store) => store && id == x
    case Attribute(value, _, store) => (store && Root(value) == Some(x)) || Binds(value, x)
    case Assign(targets, rhs) => BindsAny(targets, x) || Binds(rhs, x)
    case Function(name, decorators, defaults, _, _) => name == x || BindsAny(decorators, x) || BindsAny(defaults, x)
    case Lambda(defaults, _, _) => BindsAny(defaults, x)
    case Comprehension(_, _) => false
    case Class(name, _) => name == x
    case Import(aliases) => x in ImportNames(aliases)
    case ImportFrom(_, _, aliases) => x in TakenNames(aliases)
    case Call(func, args) => Binds(func, x) || BindsAny(args, x)
    case Other(children) => BindsAny(children, x)
  }

  predicate BindsAny(nodes: seq<Node>, x: string) {
    nodes != [] && (Binds(nodes[0], x) || BindsAny(nodes[1..], x))
  }

  /** x means the same in both environments. */
  predicate Same(env: Env, env': Env, x: string) { (x in env <==> x in env') && (x in env ==> env'[x] == env[x]) }

  lemma {:induction false} ImportsFrame(aliases: seq<Alias>, s: State, x: string)
    requires x !in ImportNames(aliases)
    ensures Same(s.env, AfterImports(aliases, s).env, x)
  {
    if aliases != [] {
      var front := aliases[..|aliases| - 1];
      assert ImportNames(aliases) == ImportNames(front) + [ImportedAs(aliases[|aliases| - 1])];
      ImportsFrame(front, s, x);
    }
  }

  lemma {:induction false} TakingsFrame(source: Option<string>, level: nat, aliases: seq<Alias>, s: State, x: string)
    requires x !in TakenNames(aliases)
    ensures Same(s.env, AfterTakings(source, level, aliases, s).env, x)
  {
    if aliases != [] {
      var front := aliases[..|aliases| - 1];
      assert TakenNames(aliases) == TakenNames(front) + [TakenAs(aliases[|aliases| - 1])];
      TakingsFrame(source, level, front, s, x);
    }
  }

  /**
    Visiting a node leaves every name alone that the node does not bind in its own scope.  Function,
    lambda, comprehension and class bodies bind nothing outside themselves.
   */
  lemma {:induction false} EnclosingNamesKept(n: Node, s: State, x: string)
    requires !Binds(n, x)
    ensures Same(s.env, Visit(n, s).env, x)
    decreases n
  {
    match n
    case Name(_, _) =>
    case Attribute(value, _, store) => EnclosingNamesKept(value, AfterStore(value, store, s), x);
    case Assign(targets, rhs) =>
      EnclosingNamesKept(rhs, s, x);
      EnclosingNamesKeptAll(targets, Visit(rhs, s), x);
    case Function(_, decorators, defaults, _, _) =>
      EnclosingNamesKeptAll(decorators, s, x);
      EnclosingNamesKeptAll(defaults, VisitAll(decorators, s), x);
    case Lambda(defaults, _, _) => EnclosingNamesKeptAll(defaults, s, x);
    case Comprehension(_, _) =>
    case Class(_, _) =>
    case Import(aliases) => ImportsFrame(aliases, s, x);
    case ImportFrom(source, level, aliases) =>
      TakingsFrame(source, level, aliases, if Absolute(source, level) then s.(imports := s.imports + [source.value]) else s, x);
    case Call(func, args) =>
      var called := s.(calls := s.calls + [CallSite(Root(func), Resolve(func, s.env))]);
      EnclosingNamesKept(func, called, x);
      EnclosingNamesKeptAll(args, Visit(func, called), x);
    case Other(children) => EnclosingNamesKeptAll(children, s, x);
  }

  lemma {:induction false} EnclosingNamesKeptAll(nodes: seq<Node>, s: State, x: string)
    requires !BindsAny(nodes, x)
    ensures Same(s.env, VisitAll(nodes, s).env, x)
    decreases nodes
  {
    if nodes != [] {
      EnclosingNamesKept(nodes[0], s, x);
      EnclosingNamesKeptAll(nodes[1..], Visit(nodes[0], s), x);
    }
  }

  // ----- names that are never imported -----

  /** Some import inside the node, nested scopes included, gives x a meaning. */
  predicate Imports(n: Node, x: string) {
    match n
    case Name(_, _) => false
    case Attribute(value, _, _) => Imports(value, x)
    case Assign(targets, rhs) => ImportsAny(targets, x) || Imports(rhs, x)
    case Function(_, decorators, defaults, _, body) => ImportsAny(decorators, x) || ImportsAny(defaults, x) || ImportsAny(body, x)
    case Lambda(defaults, _, result) => ImportsAny(defaults, x) || Imports(result, x)
    case Comprehension(generators, elements) => ImportsGenerators(generators, x) || ImportsAny(elements, x)
    case Class(_, children) => ImportsAny(children, x)
    case Import(aliases) => x in ImportNames(aliases)
    case ImportFrom(source, level, aliases) => Absolute(source, level) && x in TakenNames(aliases)
    case Call(func, args) => Imports(func, x) || ImportsAny(args, x)
    case Other(children) => ImportsAny(children, x)
  }

  predicate ImportsAny(nodes: seq<Node>, x: string) {
    nodes != [] && (Imports(nodes[0], x) || ImportsAny(nodes[1..], x))
  }

  predicate ImportsGenerators(generators: seq<Generator>, x: string) {
    generators != [] &&
    (Imports(generators[0].iter, x) || Imports(generators[0].target, x) || ImportsAny(generators[0].conditions, x)
     || ImportsGenerators(generators[1..], x))
  }

  predicate Unresolved(env: Env, x: string) { Lookup(env, x) == "" }

  /** Calls were added only, and those rooted at x resolve to nothing. */
  ghost predicate Silent(s: State, s': State, x: string) {
    && s.calls <= s'.calls
    && forall i :: |s.calls| <= i < |s'.calls| && s'.calls[i].root == Some(x) ==> s'.calls[i].resolved == ""
  }

  /** An attribute chain resolves to nothing when its root does. */
  lemma {:induction false} UnresolvedRoot(n: Node, env: Env)
    requires Root(n).Some? ==> Unresolved(env, Root(n).value)
    ensures Resolve(n, env) == ""
  {
    match n
    case Attribute(value, _, _) => UnresolvedRoot(value, env);
    case _ =>
  }

  /** Otherwise it resolves to what its root stands for, followed by the attributes. */
  lemma {:induction false} ResolvedRoot(n: Node, env: Env)
    requires Root(n).Some? && !Unresolved(env, Root(n).value)
    ensures Lookup(env, Root(n).value) <= Resolve(n, env)
  {
    match n
    case Attribute(value, _, _) => ResolvedRoot(value, env);
    case _ =>
  }

  lemma {:induction false} UnbindUnresolves(env: Env, names: seq<string>, x: string)
    ensures x in names ==> Unresolved(Unbind(env, names), x)
    ensures Unresolved(env, x) ==> Unresolved(Unbind(env, names), x)
  {
    if names != [] {
      var front := names[..|names| - 1];
      assert names == front + [names[|names| - 1]];
      UnbindUnresolves(env, front, x);
    }
  }

  lemma {:induction false} TakingsShadow(source: Option<string>, level: nat, aliases: seq<Alias>, s: State, x: string)
    requires !Absolute(source, level) && Unresolved(s.env, x)
    ensures Unresolved(AfterTakings(source, level, aliases, s).env, x)
  {
    if aliases != [] { TakingsShadow(source, level, aliases[..|aliases| - 1], s, x); }
  }

  lemma {:induction false} ImportsKeepCalls(aliases: seq<Alias>, s: State)
    ensures AfterImports(aliases, s).calls == s.calls
  {
    if aliases != [] { ImportsKeepCalls(aliases[..|aliases| - 1], s); }
  }

  lemma {:induction false} TakingsKeepCalls(source: Option<string>, level: nat, aliases: seq<Alias>, s: State)
    ensures AfterTakings(source, level, aliases, s).calls == s.calls
  {
    if aliases != [] { TakingsKeepCalls(source, level, aliases[..|aliases| - 1], s); }
  }

  /** x stays unresolved while the node is visited, and no call rooted at x resolves. */
  ghost predicate StaysSilent(s: State, s': State, x: string) { Unresolved(s'.env, x) && Silent(s, s', x) }

  /** A name without a meaning that nothing inside imports stays without one, nested scopes included. */
  lemma {:induction false} NeverImportedNeverResolved(n: Node, s: State, x: string)
    requires Unresolved(s.env, x) && !Imports(n, x)
    ensures StaysSilent(s, Visit(n, s), x)
    decreases n
  {
    match n
    case Name(_, _) =>
    case Attribute(value, _, store) => NeverImportedNeverResolved(value, AfterStore(value, store, s), x);
    case Assign(targets, rhs) =>
      NeverImportedNeverResolved(rhs, s, x);
      NoneImportedNoneResolved(targets, Visit(rhs, s), x);
    case Function(name, decorators, defaults, params, body) =>
      NoneImportedNoneResolved(decorators, s, x);
      NoneImportedNoneResolved(defaults, VisitAll(decorators, s), x);
      var outside := VisitAll(defaults, VisitAll(decorators, s));
      var outer := outside.env[name := None];
      UnbindUnresolves(outer, params, x);
      UnbindUnresolves(Unbind(outer, params), LocalsOf(body), x);
      NoneImportedNoneResolved(body, outside.(env := Unbind(Unbind(outer, params), LocalsOf(body))), x);
    case Lambda(defaults, params, result) =>
      NoneImportedNoneResolved(defaults, s, x);
      var outside := VisitAll(defaults, s);
      UnbindUnresolves(outside.env, params, x);
      NeverImportedNeverResolved(result, outside.(env := Unbind(outside.env, params)), x);
    case Comprehension(generators, elements) =>
      NoGeneratorResolves(generators, s, x);
      NoneImportedNoneResolved(elements, VisitGenerators(generators, s), x);
    case Class(name, children) => NoneImportedNoneResolved(children, s.(env := s.env[name := None]), x);
    case Import(aliases) =>
      ImportsFrame(aliases, s, x);
      ImportsKeepCalls(aliases, s);
    case ImportFrom(source, level, aliases) =>
      var noted := if Absolute(source, level) then s.(imports := s.imports + [source.value]) else s;
      TakingsKeepCalls(source, level, aliases, noted);
      if Absolute(source, level) { TakingsFrame(source, level, aliases, noted, x); } else { TakingsShadow(source, level, aliases, noted, x); }
    case Call(func, args) =>
      var called := s.(calls := s.calls + [CallSite(Root(func), Resolve(func, s.env))]);
      if Root(func) == Some(x) { UnresolvedRoot(func, s.env); }
      NeverImportedNeverResolved(func, called, x);
      NoneImportedNoneResolved(args, Visit(func, called), x);
    case Other(children) => NoneImportedNoneResolved(children, s, x);
  }

  lemma {:induction false} NoneImportedNoneResolved(nodes: seq<Node>, s: State, x: string)
    requires Unresolved(s.env, x) && !ImportsAny(nodes, x)
    ensures StaysSilent(s, VisitAll(nodes, s), x)
    decreases nodes
  {
    if nodes != [] {
      NeverImportedNeverResolved(nodes[0], s, x);
      NoneImportedNoneResolved(nodes[1..], Visit(nodes[0], s), x);
    }
  }

  lemma {:induction false} NoGeneratorResolves(generators: seq<Generator>, s: State, x: string)
    requires Unresolved(s.env, x) && !ImportsGenerators(generators, x)
    ensures StaysSilent(s, VisitGenerators(generators, s), x)
    decreases generators
  {
    if generators != [] {
      var g := generators[0];
      NeverImportedNeverResolved(g.iter, s, x);
      NeverImportedNeverResolved(g.target, Visit(g.iter, s), x);
      NoneImportedNoneResolved(g.conditions, Visit(g.target, Visit(g.iter, s)), x);
      NoGeneratorResolves(generators[1..], VisitAll(g.conditions, Visit(g.target, Visit(g.iter, s))), x);
    }
  }

  // ----- scopes -----

  lemma {:induction false} SilentInBody(params: seq<string>, body: seq<Node>, outer: Env, s: State, x: string)
    requires x in params || x in LocalsOf(body)
    requires !ImportsAny(body, x)
    ensures var inner := s.(env := Unbind(Unbind(outer, params), LocalsOf(body)));
      StaysSilent(inner, VisitAll(body, inner), x)
  {
    UnbindUnresolves(outer, params, x);
    UnbindUnresolves(Unbind(outer, params), LocalsOf(body), x);
    NoneImportedNoneResolved(body, s.(env := Unbind(Unbind(outer, params), LocalsOf(body))), x);
  }

  lemma {:induction false} SilentInResult(params: seq<string>, result: Node, s: State, x: string)
    requires x in params && !Imports(result, x)
    ensures var inner := s.(env := Unbind(s.env, params)); StaysSilent(inner, Visit(result, inner), x)
  {
    UnbindUnresolves(s.env, params, x);
    NeverImportedNeverResolved(result, s.(env := Unbind(s.env, params)), x);
  }

  lemma SameEverywhere(env: Env, env': Env)
    requires forall x :: Same(env, env', x)
    ensures env == env'
  {
    forall x ensures x in env <==> x in env' { assert Same(env, env', x); }
    forall x | x in env ensures env[x] == env'[x] { assert Same(env, env', x); }
  }

  /** Nothing but its name comes out of a function whose decorators and defaults bind nothing; it is unresolved then. */
  lemma {:induction false} FunctionLeavesItsName(name: string, decorators: seq<Node>, defaults: seq<Node>, params: seq<string>, body: seq<Node>, s: State)
    requires forall x :: !BindsAny(decorators, x) && !BindsAny(defaults, x)
    ensures Visit(Function(name, decorators, defaults, params, body), s).env == s.env[name := None]
  {
    var n := Function(name, decorators, defaults, params, body);
    var left, after := s.env[name := None], Visit(n, s).env;
    forall x ensures Same(left, after, x) {
      if x != name { EnclosingNamesKept(n, s, x); }
    }
    SameEverywhere(left, after);
  }

  lemma {:induction false} LambdaLeavesNothing(defaults: seq<Node>, params: seq<string>, result: Node, s: State)
    requires forall x :: !BindsAny(defaults, x)
    ensures Visit(Lambda(defaults, params, result), s).env == s.env
  {
    var n := Lambda(defaults, params, result);
    forall x ensures Same(s.env, Visit(n, s).env, x) { EnclosingNamesKept(n, s, x); }
    SameEverywhere(s.env, Visit(n, s).env);
  }

  // ----- what assignments and imports leave behind -----

  /** Some import in the node's own scope gives x a meaning. */
  predicate ImportsHere(n: Node, x: string) {
    match n
    case Name(_, _) => false
    case Attribute(value, _, _) => ImportsHere(value, x)
    case Assign(targets, rhs) => ImportsHereAny(targets, x) || ImportsHere(rhs, x)
    case Function(_, decorators, defaults, _, _) => ImportsHereAny(decorators, x) || ImportsHereAny(defaults, x)
    case Lambda(defaults, _, _) => ImportsHereAny(defaults, x)
    case Comprehension(_, _) => false
    case Class(_, _) => false
    case Import(aliases) => x in ImportNames(aliases)
    case ImportFrom(source, level, aliases) => Absolute(source, level) && x in TakenNames(aliases)
    case Call(func, args) => ImportsHere(func, x) || ImportsHereAny(args, x)
    case Other(children) => ImportsHereAny(children, x)
  }

  predicate ImportsHereAny(nodes: seq<Node>, x: string) {
    nodes != [] && (ImportsHere(nodes[0], x) || ImportsHereAny(nodes[1..], x))
  }

  lemma {:induction false} TakingsUnbind(source: Option<string>, level: nat, aliases: seq<Alias>, s: State, x: string)
    requires !Absolute(source, level) && x in TakenNames(aliases)
    ensures Unresolved(AfterTakings(source, level, aliases, s).env, x)
  {
    var front := aliases[..|aliases| - 1];
    assert TakenNames(aliases) == TakenNames(front) + [TakenAs(aliases[|aliases| - 1])];
    if TakenAs(aliases[|aliases| - 1]) != x { TakingsUnbind(source, level, front, s, x); }
  }

  /** A name that the node binds, but does not import in its own scope, is unresolved afterwards. */
  lemma {:induction false} BoundIsUnresolved(n: Node, s: State, x: string)
    requires (Binds(n, x) || Unresolved(s.env, x)) && !ImportsHere(n, x)
    ensures Unresolved(Visit(n, s).env, x)
    decreases n
  {
    match n
    case Name(_, _) =>
    case Attribute(value, _, store) => BoundIsUnresolved(value, AfterStore(value, store, s), x);
    case Assign(targets, rhs) =>
      if Binds(rhs, x) || Unresolved(s.env, x) { BoundIsUnresolved(rhs, s, x); }
      BoundAreUnresolved(targets, Visit(rhs, s), x);
    case Function(name, decorators, defaults, _, _) =>
      if name != x {
        if BindsAny(decorators, x) || Unresolved(s.env, x) { BoundAreUnresolved(decorators, s, x); }
        BoundAreUnresolved(defaults, VisitAll(decorators, s), x);
      }
    case Lambda(defaults, _, _) => BoundAreUnresolved(defaults, s, x);
    case Comprehension(_, _) =>
    case Class(_, _) =>
    case Import(aliases) => ImportsFrame(aliases, s, x);
    case ImportFrom(source, level, aliases) =>
      var noted := if Absolute(source, level) then s.(imports := s.imports + [source.value]) else s;
      if Absolute(source, level) { TakingsFrame(source, level, aliases, noted, x); }
      else if x in TakenNames(aliases) { TakingsUnbind(source, level, aliases, noted, x); }
      else { TakingsShadow(source, level, aliases, noted, x); }
    case Call(func, args) =>
      var called := s.(calls := s.calls + [CallSite(Root(func), Resolve(func, s.env))]);
      if Binds(func, x) || Unresolved(s.env, x) { BoundIsUnresolved(func, called, x); }
      BoundAreUnresolved(args, Visit(func, called), x);
    case Other(children) => BoundAreUnresolved(children, s, x);
  }

  lemma {:induction false} BoundAreUnresolved(nodes: seq<Node>, s: State, x: string)
    requires (BindsAny(nodes, x) || Unresolved(s.env, x)) && !ImportsHereAny(nodes, x)
    ensures Unresolved(VisitAll(nodes, s).env, x)
    decreases nodes
  {
    if nodes != [] {
      if Binds(nodes[0], x) || Unresolved(s.env, x) { BoundIsUnresolved(nodes[0], s, x); }
      BoundAreUnresolved(nodes[1..], Visit(nodes[0], s), x);
    }
  }
}
