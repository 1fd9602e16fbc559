/** The link graph with reachability queries: awo/compiler/depgraph.go. Unlike the compiler's
    graph it keeps self-loops and targets that are not entities. */
module LinkGraph {
  import opened Options
  import opened Names
  import opened Digraph
  import opened Kahn
  import opened SchemaDefs

  ghost predicate Links(schemas: seq<EntitySchema>, n: string, t: string)
  {
    exists es, f :: es in schemas && es.qualifiedName == n && f in es.fields && LinksTo(f, t)
  }

  class DepGraph {
    var deps: Graph
    var all: set<string>

    ghost predicate Valid()
      reads this
    {
      all == deps.Keys
    }

    constructor ()
      ensures deps == map[] && all == {}
    {
      deps, all := map[], {};
    }

    /** The recursive search behind DependsOn. A failed search leaves behind nodes whose
        dependencies have all been marked and none of which is the target. */
    method DfsReach(current: string, target: string, visited: set<string>) returns (found: bool, marked: set<string>)
      ensures found ==> Reaches(deps, current, target)
      ensures visited + {current} <= marked
      ensures !found ==> forall n, t :: n in marked - visited && Edge(deps, n, t) ==> t in marked && t != target
      decreases deps.Keys - visited
    {
      if current in visited { return false, visited; }
      marked := visited + {current};
      var rest := if current in deps then deps[current] else {};
      ghost var outgoing := rest;
      while rest != {}
        invariant rest <= outgoing && visited + {current} <= marked
        invariant forall t :: t in outgoing - rest ==> t in marked && t != target
        invariant forall n, t :: n in marked - visited - {current} && Edge(deps, n, t) ==> t in marked && t != target
      {
        var dep :| dep in rest;
        rest := rest - {dep};
        EdgeReaches(deps, current, dep);
        if dep == target { return true, marked; }
        ghost var before := marked;
        found, marked := DfsReach(dep, target, marked);
        if found {
          ReachesTrans(deps, current, dep, target);
          return;
        }
        forall t | t in outgoing - rest ensures t in marked && t != target {
          assert t == dep || t in before;
          assert t in before + {dep};
        }
      }
      forall t | Edge(deps, current, t) ensures t in marked && t != target { assert t in outgoing - rest; }
      found := false;
    }

    /** True exactly when a path of at least one edge leads from `a` to `b`, cycles included. */
    method DependsOn(a: string, b: string) returns (r: bool)
      ensures r <==> Reaches(deps, a, b)
    {
      var marked;
      r, marked := DfsReach(a, b, {});
      if !r && Reaches(deps, a, b) {
        var p :| IsPath(deps, p, a, b);
        Trapped(deps, marked, b, p);
      }
    }

    /** `reverseDeps`: for each name the entities that depend on it (depgraph.go:66-74 and 113-121). */
    method Reverse() returns (reverse: map<string, set<string>>)
      ensures forall b :: At(reverse, b) == Dependants(deps, b)
    {
      reverse := map[];
      var rest := deps.Keys;
      while rest != {}
        invariant rest <= deps.Keys
        invariant forall b :: At(reverse, b) == Dependants(deps, b) - rest
      {
        var a :| a in rest;
        var ts := deps[a];
        while ts != {}
          invariant ts <= deps[a]
          invariant forall b :: At(reverse, b) == Dependants(deps, b) - rest + if b in deps[a] - ts then {a} else {}
        {
          var b :| b in ts;
          ts := ts - {b};
          reverse := reverse[b := At(reverse, b) + {a}];
        }
        rest := rest - {a};
      }
    }

    /** The closure `dfs` of Dependents: adds to `result` what depends on `n` and was not seen. */
    method Collect(n: string, reverse: map<string, set<string>>, visited: set<string>, result: seq<string>)
      returns (visited': set<string>, result': seq<string>)
      requires forall b :: At(reverse, b) == Dependants(deps, b)
      requires Distinct(result) && Elems(result) == visited <= deps.Keys
      ensures Distinct(result') && Elems(result') == visited' <= deps.Keys && visited <= visited'
      ensures forall x :: x in visited' - visited ==> Reaches(deps, x, n)
      ensures Dependants(deps, n) <= visited'
      ensures forall x :: x in visited' - visited ==> Dependants(deps, x) <= visited'
      decreases deps.Keys - visited
    {
      visited', result' := visited, result;
      var rest := At(reverse, n);
      while rest != {}
        invariant rest <= Dependants(deps, n)
        invariant Distinct(result') && Elems(result') == visited' <= deps.Keys && visited <= visited'
        invariant forall x :: x in visited' - visited ==> Reaches(deps, x, n)
        invariant Dependants(deps, n) - rest <= visited'
        invariant forall x :: x in visited' - visited ==> Dependants(deps, x) <= visited'
      {
        var dep :| dep in rest;
        rest := rest - {dep};
        if dep !in visited' {
          EdgeReaches(deps, dep, n);
          ElemsAppend(result', dep);
          ghost var before := visited';
          visited', result' := visited' + {dep}, result' + [dep];
          visited', result' := Collect(dep, reverse, visited', result');
          forall x | x in visited' - visited ensures Reaches(deps, x, n) {
            if x !in before + {dep} { ReachesTrans(deps, x, dep, n); }
          }
        }
      }
    }

    /** Exactly the entities that depend on `name`, directly or transitively, in name order and once each. */
    method Dependents(name: string) returns (result: seq<string>)
      ensures StrictlySorted(result)
      ensures forall x :: x in result <==> Reaches(deps, x, name)
    {
      var reverse := Reverse();
      var visited;
      assert Elems<string>([]) == {};
      visited, result := Collect(name, reverse, {}, []);
      forall x | Reaches(deps, x, name) ensures x in visited {
        var p :| IsPath(deps, p, x, name);
        Drawn(deps, visited, name, p);
      }
      SortStrict(result);
      result := Sort(Leq, result);
      assert forall x :: x in result <==> x in Elems(result);
    }

    /** The loop of TopologicalOrder (depgraph.go:64-102). */
    method PlaceAll() returns (result: seq<string>)
      requires Valid()
      ensures LeastOrder(deps, result)
    {
      var depCount: map<string, int> := map name | name in all :: |deps[name]|;
      var reverseDeps := Reverse();
      var queue := SortedKeys(set name | name in all && depCount[name] == 0);
      StrictIsDistinct(queue);
      InitQueue(deps, depCount, queue);
      queue := Sort(Leq, queue);
      result := [];
      while queue != []
        invariant LeastPrefix(deps, result)
        invariant LoopState(deps, Elems(result), {}, depCount, queue)
        decreases all - Elems(result)
      {
        PopHead(deps, result, depCount, queue);
        var node := queue[0];
        ElemsAppend(result, node);
        queue, result := queue[1..], result + [node];
        var dependants := SortedKeys(At(reverseDeps, node));
        depCount, queue := DrainInOrder(deps, Elems(result), dependants, depCount, queue);
      }
      HeadlessIsDone(deps, Elems(result));
    }

    /** Succeeds exactly when every link target is an entity and nothing depends on itself,
        and then returns the least dependencies-first order. */
    method TopologicalOrder() returns (r: Option<seq<string>>)
      requires Valid()
      ensures r.Some? <==> Closed(deps) && Acyclic(deps)
      ensures r.Some? ==> LeastOrder(deps, r.value) && DepsFirst(deps, r.value) && Elems(r.value) == all
    {
      var result := PlaceAll();
      LeastOrderIsGreedy(deps, result);
      GreedyOrderComplete(deps, result);
      if |result| != |all| { return None; }
      r := Some(result);
    }
  }

  /** Looking up a Go map of sets: a missing key reads as the empty set. */
  function At(m: map<string, set<string>>, k: string): set<string>
  {
    if k in m then m[k] else {}
  }

  ghost predicate HoldsLinks(deps: Graph, schemas: seq<EntitySchema>)
  {
    forall n, t :: Edge(deps, n, t) <==> Links(schemas, n, t)
  }

  /** Build keeps every link target, the entity itself and unknown names included. */
  method Build(schemas: seq<EntitySchema>) returns (g: DepGraph)
    ensures g.Valid() && g.all == NamesOf(schemas)
    ensures forall n, t :: Edge(g.deps, n, t) <==> Links(schemas, n, t)
  {
    g := new DepGraph();
    for i := 0 to |schemas|
      invariant g.Valid() && g.all == NamesOf(schemas[..i]) && HoldsLinks(g.deps, schemas[..i])
    {
      var es := schemas[i];
      assert schemas[..i + 1] == schemas[..i] + [es];
      NamesOfAppend(schemas[..i], es);
      LinksStep(g.deps, schemas[..i], es);
      g.all := g.all + {es.qualifiedName};
      var targets := AddLinks(At(g.deps, es.qualifiedName), es.fields);
      g.deps := g.deps[es.qualifiedName := targets];
    }
    assert schemas[..|schemas|] == schemas;
  }

  /** The loop over one entity's fields (depgraph.go:31-35). */
  method AddLinks(base: set<string>, fields: seq<FieldDef>) returns (targets: set<string>)
    ensures targets == base + FieldTargets(fields)
  {
    targets := base;
    assert FieldTargets(fields[..0]) == {};
    for k := 0 to |fields|
      invariant targets == base + FieldTargets(fields[..k])
    {
      FieldTargetsAppend(fields[..k], fields[k]);
      assert fields[..k + 1] == fields[..k] + [fields[k]];
      if IsLink(fields[k]) { targets := targets + {fields[k].linkTarget}; }
    }
    assert fields[..|fields|] == fields;
  }

  lemma LinksStep(deps: Graph, schemas: seq<EntitySchema>, es: EntitySchema)
    requires HoldsLinks(deps, schemas)
    ensures HoldsLinks(deps[es.qualifiedName := At(deps, es.qualifiedName) + FieldTargets(es.fields)], schemas + [es])
  {
    var deps' := deps[es.qualifiedName := At(deps, es.qualifiedName) + FieldTargets(es.fields)];
    forall n, t ensures Edge(deps', n, t) <==> Links(schemas + [es], n, t) {
      LinksAppend(schemas, es, n, t);
      assert Edge(deps', n, t) <==> Edge(deps, n, t) || (n == es.qualifiedName && t in FieldTargets(es.fields));
    }
  }

  lemma LinksAppend(schemas: seq<EntitySchema>, es: EntitySchema, n: string, t: string)
    ensures Links(schemas + [es], n, t) <==> Links(schemas, n, t) || (n == es.qualifiedName && t in FieldTargets(es.fields))
  {
    assert forall x :: x in schemas + [es] <==> x in schemas || x == es;
    if n == es.qualifiedName && t in FieldTargets(es.fields) {
      var f :| f in es.fields && LinksTo(f, t);
      assert es in schemas + [es];
    }
  }

  /** A walk that starts in a set closed under edges, whose edges all avoid `target`, never ends there. */
  lemma {:induction false} Trapped(g: Graph, marked: set<string>, target: string, p: seq<string>)
    requires forall n, t :: n in marked && Edge(g, n, t) ==> t in marked && t != target
    requires |p| >= 2 && p[0] in marked && IsWalk(g, p)
    ensures p[|p| - 1] != target
  {
    assert Edge(g, p[0], p[1]);
    if |p| > 2 {
      assert IsWalk(g, p[1..]) by {
        forall m | 0 <= m < |p[1..]| - 1 ensures Edge(g, p[1..][m], p[1..][m + 1]) { assert Edge(g, p[m + 1], p[m + 2]); }
      }
      Trapped(g, marked, target, p[1..]);
    }
  }

  /** A set that contains the dependants of `name` and of its own members contains
      everything that reaches `name`. */
  lemma {:induction false} Drawn(g: Graph, marked: set<string>, name: string, p: seq<string>)
    requires Dependants(g, name) <= marked && forall x :: x in marked ==> Dependants(g, x) <= marked
    requires |p| >= 2 && p[|p| - 1] == name && IsWalk(g, p)
    ensures p[0] in marked
  {
    assert Edge(g, p[0], p[1]);
    if |p| > 2 {
      assert IsWalk(g, p[1..]) by {
        forall m | 0 <= m < |p[1..]| - 1 ensures Edge(g, p[1..][m], p[1..][m + 1]) { assert Edge(g, p[m + 1], p[m + 2]); }
      }
      Drawn(g, marked, name, p[1..]);
      assert p[0] in Dependants(g, p[1]);
    }
  }
}
