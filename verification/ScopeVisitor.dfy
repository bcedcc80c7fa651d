/**
  The visitor itself.  Its bindings are a dictionary in the heap, changed in place; entering a scope
  replaces it by a copy, and leaving the scope puts the dictionary of the enclosing scope back.
 */
module ScopeVisitor {
  import opened Options
  import opened Scopes

  /** A dictionary of names. */
  class Bindings {
    var names: Env

    constructor (names: Env)
      ensures this.names == names
    {
      this.names := names;
    }

    method Put(x: string, meaning: Option<string>)
      modifies this
      ensures names == old(names)[x := meaning]
    {
      names := names[x := meaning];
    }

    method Copy() returns (copy: Bindings)
      ensures fresh(copy) && copy.names == names
    {
      copy := new Bindings(names);
    }
  }

  class CryptoVisitor {
    var bindings: Bindings
    var imports: seq<string>
    var calls: seq<CallSite>

    ghost function Now(): State
      reads this, bindings
    {
      State(bindings.names, imports, calls)
    }

    constructor ()
      ensures fresh(bindings) && Now() == State(map[], [], [])
    {
      bindings := new Bindings(map[]);
      imports, calls := [], [];
    }

    method UnbindAll(names: seq<string>)
      modifies bindings
      ensures bindings.names == Unbind(old(bindings.names), names)
    {
      for i := 0 to |names|
        invariant bindings.names == Unbind(old(bindings.names), names[..i])
      {
        assert names[..i + 1][..i] == names[..i];
        bindings.Put(names[i], None);
      }
      assert names[..|names|] == names;
    }

    method VisitImport(aliases: seq<Alias>)
      modifies this, bindings
      ensures bindings == old(bindings) && Now() == AfterImports(aliases, old(Now()))
    {
      for i := 0 to |aliases|
        invariant bindings == old(bindings)
        invariant Now() == AfterImports(aliases[..i], old(Now()))
      {
        var a := aliases[i];
        assert aliases[..i + 1][..i] == aliases[..i];
        bindings.Put(ImportedAs(a), Some(if Renamed(a) then a.name else Head(a.name)));
        imports := imports + [a.name];
      }
      assert aliases[..|aliases|] == aliases;
    }

    method VisitImportFrom(source: Option<string>, level: nat, aliases: seq<Alias>)
      modifies this, bindings
      ensures bindings == old(bindings) && Now() == AfterImportFrom(source, level, aliases, old(Now()))
    {
      if source.Some? && level == 0 { imports := imports + [source.value]; }
      ghost var noted := Now();
      for i := 0 to |aliases|
        invariant bindings == old(bindings)
        invariant Now() == AfterTakings(source, level, aliases[..i], noted)
      {
        var a := aliases[i];
        assert aliases[..i + 1][..i] == aliases[..i];
        if source.Some? && level == 0 {
          var full := source.value + "." + a.name;
          bindings.Put(TakenAs(a), Some(full));
          imports := imports + [full];
        } else {
          bindings.Put(TakenAs(a), None);
        }
      }
      assert aliases[..|aliases|] == aliases;
    }

    /** The dictionary of the scope is back in place, and holds what the node binds in this scope and nothing else. */
    method VisitNode(n: Node)
      modifies this, bindings
      ensures bindings == old(bindings) && Now() == Visit(n, old(Now()))
      ensures n.Comprehension? ==> bindings.names == old(bindings.names)
      decreases n, 0
    {
      match n
      case Name(id, store) => if store { bindings.Put(id, None); }
      case Attribute(value, _, store) =>
        if store {
          var root := value;
          while root.Attribute?
            invariant Root(root) == Root(value)
            decreases root
          {
            root := root.value;
          }
          if root.Name? { bindings.Put(root.id, None); }
        }
        VisitNode(value);
      case Assign(targets, rhs) =>
        VisitNode(rhs);
        VisitNodes(targets);
      case Function(name, decorators, defaults, params, body) =>
        VisitNodes(decorators);
        VisitNodes(defaults);
        bindings.Put(name, None);
        var outer := bindings;
        bindings := outer.Copy();
        UnbindAll(params);
        UnbindAll(LocalsOf(body));
        VisitNodes(body);
        bindings := outer;
      case Lambda(defaults, params, result) =>
        VisitNodes(defaults);
        var outer := bindings;
        bindings := outer.Copy();
        UnbindAll(params);
        VisitNode(result);
        bindings := outer;
      case Comprehension(generators, elements) =>
        var outer := bindings;
        bindings := outer.Copy();
        VisitAllGenerators(generators);
        VisitNodes(elements);
        bindings := outer;
      case Class(name, children) =>
        bindings.Put(name, None);
        var outer := bindings;
        bindings := outer.Copy();
        VisitNodes(children);
        bindings := outer;
      case Import(aliases) => VisitImport(aliases);
      case ImportFrom(source, level, aliases) => VisitImportFrom(source, level, aliases);
      case Call(func, args) =>
        calls := calls + [CallSite(Root(func), Resolve(func, bindings.names))];
        VisitNode(func);
        VisitNodes(args);
      case Other(children) => VisitNodes(children);
    }

    method VisitNodes(nodes: seq<Node>)
      modifies this, bindings
      ensures bindings == old(bindings) && Now() == VisitAll(nodes, old(Now()))
      decreases nodes, 1
    {
      var i := 0;
      while i < |nodes|
        invariant 0 <= i <= |nodes|
        invariant bindings == old(bindings)
        invariant VisitAll(nodes[i..], Now()) == VisitAll(nodes, old(Now()))
      {
        assert nodes[i..][1..] == nodes[i + 1..];
        VisitNode(nodes[i]);
        i := i + 1;
      }
    }

    method VisitAllGenerators(generators: seq<Generator>)
      modifies this, bindings
      ensures bindings == old(bindings) && Now() == VisitGenerators(generators, old(Now()))
      decreases generators, 1
    {
      var i := 0;
      while i < |generators|
        invariant 0 <= i <= |generators|
        invariant bindings == old(bindings)
        invariant VisitGenerators(generators[i..], Now()) == VisitGenerators(generators, old(Now()))
      {
        assert generators[i..][1..] == generators[i + 1..];
        VisitNode(generators[i].iter);
        VisitNode(generators[i].target);
        VisitNodes(generators[i].conditions);
        i := i + 1;
      }
    }
  }
}
