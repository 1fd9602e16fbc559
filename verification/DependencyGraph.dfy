/** The compiler's foreign-key graph: awo/compiler/graph.go. */
module CompilerGraph {
  import opened Options
  import opened Names
  import opened Digraph
  import opened Kahn
  import opened SchemaDefs
  import opened CycleSearch

  datatype Diagnostic =
    | OrphanTarget(entity: string, via: string, target: string)
    | CircularDependency(cycle: seq<string>)
    | SortIncomplete

  /** Counting, for every node, the edges that point at it (graph.go:168-177 and 260-268). */
  method InDegrees(g: Graph) returns (count: map<string, int>)
    requires Closed(g)
    ensures count.Keys == g.Keys && forall n :: n in g ==> count[n] == |Flip(g)[n]|
  {
    count := map n | n in g :: 0;
    var rest := g.Keys;
    while rest != {}
      invariant rest <= g.Keys && count.Keys == g.Keys
      invariant forall n :: n in g ==> count[n] == |PointingAt(g, g.Keys - rest, n)|
    {
      var src :| src in rest;
      ghost var before := g.Keys - rest;
      rest := rest - {src};
      count := Bump(count, g[src]);
      forall n | n in g ensures count[n] == |PointingAt(g, g.Keys - rest, n)| {
        OneMoreSource(g, before, src, n);
        assert g.Keys - rest == before + {src};
      }
    }
    forall n | n in g ensures PointingAt(g, g.Keys - {}, n) == Flip(g)[n] { }
  }

  /** One increment for each target, in map order. */
  method Bump(count: map<string, int>, targets: set<string>) returns (r: map<string, int>)
    requires targets <= count.Keys
    ensures r.Keys == count.Keys
    ensures forall n :: n in count ==> r[n] == count[n] + (if n in targets then 1 else 0)
  {
    r := count;
    var ts := targets;
    while ts != {}
      invariant ts <= targets && r.Keys == count.Keys
      invariant forall n :: n in count ==> r[n] == count[n] + (if n in targets - ts then 1 else 0)
    {
      var t :| t in ts;
      r, ts := r[t := r[t] + 1], ts - {t};
    }
  }

  lemma OneMoreSource(g: Graph, before: set<string>, src: string, n: string)
    requires src in g && src !in before && n in g
    ensures |PointingAt(g, before + {src}, n)| == |PointingAt(g, before, n)| + (if n in g[src] then 1 else 0)
  {
    assert PointingAt(g, before + {src}, n) == PointingAt(g, before, n) + (if n in g[src] then {src} else {});
  }

  ghost function PointingAt(g: Graph, sources: set<string>, n: string): set<string>
  {
    set s | s in sources && s in g && n in g[s]
  }

  lemma FlipDependants(g: Graph, n: string)
    requires Closed(g) && n in g
    ensures Dependants(Flip(g), n) == g[n]
  { }

  /** The recursive closure of detectCycles with the variables it captures (graph.go:213-253). */
  class CycleTracer {
    const edges: Graph
    const cycleNodes: set<string>
    var path: seq<string>
    var pathSet: set<string>
    var traced: set<string>
    var cycles: seq<seq<string>>

    /** `cycleNodes` is closed under edges because what Kahn leaves unvisited is. */
    ghost predicate Valid()
      reads this
    {
      NodesOk(edges, cycleNodes) && PathOk(edges, cycleNodes, path, pathSet) && CyclesOk(edges, cycles)
    }

    constructor (edges: Graph, cycleNodes: set<string>)
      requires NodesOk(edges, cycleNodes)
      ensures Valid() && path == [] && traced == {} && cycles == []
      ensures this.edges == edges && this.cycleNodes == cycleNodes
    {
      this.edges, this.cycleNodes := edges, cycleNodes;
      path, pathSet, traced, cycles := [], {}, {}, [];
    }

    /** Records the part of the path from `n` on as a cycle. */
    method CloseCycle(n: string)
      requires Valid() && n in pathSet && LeftEdge(edges, path[|path| - 1], n)
      modifies this`cycles
      ensures Valid() && CycleAhead(edges, n)
      ensures Next(edges, path[|path| - 1]) == Some(n) && cycles == old(cycles) + [LoopOf(edges, path)]
    {
      var i := Place(path, n);
      var cycle := path[i..] + [n];
      OneMoreCycle(edges, path, cycles, i, n, cycle);
      cycles := cycles + [cycle];
    }

    /** A search that finds nothing restores the path and proves that no cycle lies ahead of `n`;
        one that finds a cycle has followed its own choices from `n` to where they repeat, lists the
        cycle they close and marks the nodes it came through. */
    method Dfs(n: string) returns (found: bool)
      requires Valid() && n in cycleNodes
      requires path != [] ==> LeftEdge(edges, path[|path| - 1], n)
      modifies this`path, this`pathSet, this`traced, this`cycles
      ensures Valid()
      ensures found ==> Hit(edges, old(path), n, path, old(cycles), cycles, old(traced), traced)
      ensures !found ==> path == old(path) && traced == old(traced) && cycles == old(cycles)
      ensures !found ==> !CycleAhead(edges, n)
      decreases cycleNodes - pathSet, 0
    {
      if n in pathSet {
        CloseCycle(n);
        ClosedHit(edges, path, n, old(cycles), cycles, traced);
        return true;
      }
      PushPath(edges, cycleNodes, path, pathSet, n);
      path, pathSet := path + [n], pathSet + {n};
      var targets := SortedKeys(edges[n]);
      ghost var t;
      found, t := TryTargets(n, targets);
      if found {
        UnwindHit(edges, old(path), n, t, path, old(cycles), cycles, old(traced), traced);
        traced := traced + {n};
      } else {
        PopPath(old(path), old(pathSet), n);
        path, pathSet := path[..|path| - 1], pathSet - {n};
      }
    }

    /** The loop over a node's targets in name order (graph.go:240-246). */
    method TryTargets(n: string, targets: seq<string>) returns (found: bool, ghost t: string)
      requires Valid() && n in cycleNodes && path != [] && path[|path| - 1] == n
      requires StrictlySorted(targets) && Elems(targets) == edges[n]
      modifies this`path, this`pathSet, this`traced, this`cycles
      ensures Valid()
      ensures found ==> LeftEdge(edges, n, t) && Hit(edges, old(path), t, path, old(cycles), cycles, old(traced), traced)
      ensures !found ==> path == old(path) && pathSet == old(pathSet) && traced == old(traced) && cycles == old(cycles)
      ensures !found ==> !CycleAhead(edges, n)
      decreases cycleNodes - pathSet, 1
    {
      t := n;
      for i := 0 to |targets|
        invariant Valid() && path == old(path) && pathSet == old(pathSet) && traced == old(traced) && cycles == old(cycles)
        invariant forall k :: 0 <= k < i ==> !CycleAhead(edges, targets[k])
      {
        FirstTargets(edges, n, targets, i);
        if targets[i] in cycleNodes {
          found := Dfs(targets[i]);
          if found {
            t := targets[i];
            return;
          }
        }
      }
      found := false;
      NoneAhead(edges, n, targets);
    }

    /** The body of the loop over starting nodes (graph.go:215-252). */
    method Trace(start: string)
      requires Valid() && start in cycleNodes && TracedOk(edges, cycles, traced)
      modifies this`path, this`pathSet, this`traced, this`cycles
      ensures Valid() && TracedOk(edges, cycles, traced) && old(traced) + {start} <= traced
      ensures Found(cycles, traced) == SearchOne(edges, Found(old(cycles), old(traced)), start)
    {
      if start in traced { return; }
      path, pathSet := [], {};
      var found := Dfs(start);
      if found { StartHit(edges, start, path, old(cycles), cycles, old(traced), traced); }
      StillTraced(edges, old(cycles), cycles, old(traced), traced, start);
      traced := traced + {start};
    }
  }

  /** The loop that finds the repeated node (graph.go:228-229). */
  method Place(path: seq<string>, n: string) returns (i: nat)
    requires n in path
    ensures i < |path| && path[i] == n && n !in path[..i]
  {
    i := 0;
    while path[i] != n
      invariant i < |path| && n in path[i..] && n !in path[..i]
      decreases |path| - i
    {
      assert path[..i + 1] == path[..i] + [path[i]];
      i := i + 1;
    }
  }

  class DependencyGraph {
    var nodes: set<string>
    var edges: Graph
    var selfRefs: set<string>
    var topologicalOrder: Option<seq<string>>

    ghost predicate Valid()
      reads this
    {
      nodes == edges.Keys && Closed(edges) && NoLoops(edges)
    }

    constructor ()
      ensures Valid() && nodes == {} && edges == map[] && selfRefs == {} && topologicalOrder == None
    {
      nodes, edges, selfRefs, topologicalOrder := {}, map[], {}, None;
    }

    /** One link or edge target: an orphan is reported, a self-reference is only noted. */
    method AddTarget(src: string, via: string, target: string, names: set<string>) returns (ds: seq<Diagnostic>)
      requires src in edges
      modifies this`edges, this`selfRefs
      ensures edges == if target in names - {src} then old(edges)[src := old(edges)[src] + {target}] else old(edges)
      ensures selfRefs == if target == src && src in names then old(selfRefs) + {src} else old(selfRefs)
      ensures ds == if target in names then [] else [OrphanTarget(src, via, target)]
    {
      ds := [];
      if target !in names {
        return [OrphanTarget(src, via, target)];
      }
      if target == src {
        selfRefs := selfRefs + {src};
        return;
      }
      edges := edges[src := edges[src] + {target}];
    }

    /** Link and LinkList fields (graph.go:63-82). */
    method AddFields(src: string, fields: seq<FieldDef>, names: set<string>) returns (ds: seq<Diagnostic>)
      requires src in edges
      modifies this`edges, this`selfRefs
      ensures Added(old(edges), old(selfRefs), src, FieldTargets(fields), FieldReferences(fields), names, edges, selfRefs, ds)
    {
      ds := [];
      NothingAdded(edges, selfRefs, src, names);
      assert FieldTargets(fields[..0]) == {} && FieldReferences(fields[..0]) == {};
      for i := 0 to |fields|
        invariant Added(old(edges), old(selfRefs), src, FieldTargets(fields[..i]), FieldReferences(fields[..i]), names,
                        edges, selfRefs, ds)
      {
        var x := fields[i];
        FieldTargetsAppend(fields[..i], x);
        assert fields[..i + 1] == fields[..i] + [x];
        if IsLink(x) {
          OneAdded(old(edges), old(selfRefs), src, FieldTargets(fields[..i]), FieldReferences(fields[..i]), names, edges, selfRefs, ds,
                   x.name, x.linkTarget);
          var more := AddTarget(src, x.name, x.linkTarget, names);
          ds := ds + more;
        }
      }
      assert fields[..|fields|] == fields;
    }

    /** EdgeDef references (graph.go:85-101). */
    method AddEdges(src: string, edgeDefs: seq<EdgeDef>, names: set<string>) returns (ds: seq<Diagnostic>)
      requires src in edges
      modifies this`edges, this`selfRefs
      ensures Added(old(edges), old(selfRefs), src, EdgeTargets(edgeDefs), EdgeReferences(edgeDefs), names, edges, selfRefs, ds)
    {
      ds := [];
      NothingAdded(edges, selfRefs, src, names);
      assert EdgeTargets(edgeDefs[..0]) == {} && EdgeReferences(edgeDefs[..0]) == {};
      for i := 0 to |edgeDefs|
        invariant Added(old(edges), old(selfRefs), src, EdgeTargets(edgeDefs[..i]), EdgeReferences(edgeDefs[..i]), names,
                        edges, selfRefs, ds)
      {
        var x := edgeDefs[i];
        EdgeTargetsAppend(edgeDefs[..i], x);
        assert edgeDefs[..i + 1] == edgeDefs[..i] + [x];
        if x.target != "" {
          OneAdded(old(edges), old(selfRefs), src, EdgeTargets(edgeDefs[..i]), EdgeReferences(edgeDefs[..i]), names, edges, selfRefs, ds,
                   x.name, x.target);
          var more := AddTarget(src, x.name, x.target, names);
          ds := ds + more;
        }
      }
      assert edgeDefs[..|edgeDefs|] == edgeDefs;
    }

    /** The body of the loop over schemas (graph.go:55-102). */
    method AddEntity(es: EntitySchema, names: set<string>) returns (ds: seq<Diagnostic>)
      modifies this`nodes, this`edges, this`selfRefs
      ensures nodes == old(nodes) + {es.qualifiedName}
      ensures edges == WithTargets(old(edges), es.qualifiedName, Targets(es), names)
      ensures selfRefs == old(selfRefs) + (Targets(es) * names * {es.qualifiedName})
      ensures Diagnosed(es.qualifiedName, References(es), names, ds)
    {
      var src := es.qualifiedName;
      nodes := nodes + {src};
      NoTargets(edges, src, names);
      MoreTargets(edges, src, {}, FieldTargets(es.fields), names);
      MoreTargets(edges, src, FieldTargets(es.fields), EdgeTargets(es.edges), names);
      assert {} + FieldTargets(es.fields) == FieldTargets(es.fields);
      if src !in edges { edges := edges[src := {}]; }
      ds := AddFields(src, es.fields, names);
      var more := AddEdges(src, es.edges, names);
      DiagnosedMore(src, FieldReferences(es.fields), ds, EdgeReferences(es.edges), more, names);
      ds := ds + more;
    }

    /** The Kahn pass of detectCycles (graph.go:168-199); targets are decremented in map order. */
    method Visited() returns (visited: set<string>, ghost order: seq<string>)
      requires Valid()
      ensures visited == Elems(order) && LeastOrder(Flip(edges), order)
    {
      ghost var g := Flip(edges);
      FlipFlip(edges);
      var count := InDegrees(edges);
      var queue := SortedKeys(set n | n in count && count[n] == 0);
      StrictIsDistinct(queue);
      InitQueue(g, count, queue);
      queue := Sort(Leq, queue);
      order, visited := [], {};
      while queue != []
        invariant visited == Elems(order) && LeastPrefix(g, order)
        invariant LoopState(g, Elems(order), {}, count, queue)
        decreases nodes - visited
      {
        PopHead(g, order, count, queue);
        var n := queue[0];
        FlipDependants(edges, n);
        ElemsAppend(order, n);
        queue, visited, order := queue[1..], visited + {n}, order + [n];
        count, queue := DrainAnyOrder(g, Elems(order), edges[n], count, queue);
      }
      HeadlessIsDone(g, Elems(order));
    }

    /** Empty exactly on acyclic graphs; every reported cycle is a genuine simple one that follows
        the search's own choices, and from every node between cycles the search arrives at a
        reported one. Map iteration offers the starting nodes in some order, and the list is that of
        the searches in this order; whatever it is, no cycle is listed twice if every node between
        cycles lies on one of the search's own. */
    method DetectCycles() returns (cycles: seq<seq<string>>, ghost starts: seq<string>)
      requires Valid()
      ensures cycles == [] <==> Acyclic(edges)
      ensures Reported(edges, cycles)
      ensures Starts(edges, starts) && cycles == SearchAll(edges, starts).cycles
      ensures AllOnLeftCycles(edges) ==> NoneTwice(cycles)
    {
      var visited, order := Visited();
      var cycleNodes := nodes - visited;
      UnvisitedFacts(edges, order, cycleNodes);
      forall n | n in edges ensures n in cycleNodes <==> CycleBehind(edges, n) { UnvisitedIff(edges, order, n); }
      cycles, starts := TraceAll(cycleNodes);
      assert Starts(edges, starts) by { assert forall n :: n in starts <==> n in Elems(starts); }
      ListedIffCyclic(edges, cycleNodes, cycles);
      if AllOnLeftCycles(edges) { NoneListedTwice(edges, starts); }
    }

    /** The loop over the unvisited nodes, in map order (graph.go:213-254). */
    method TraceAll(cycleNodes: set<string>) returns (cycles: seq<seq<string>>, ghost starts: seq<string>)
      requires Valid() && cycleNodes <= edges.Keys && forall n :: n in cycleNodes ==> edges[n] <= cycleNodes
      ensures Distinct(starts) && Elems(starts) == cycleNodes && cycles == SearchAll(edges, starts).cycles
      ensures (forall c :: c in cycles ==> LeftCycle(edges, c)) && TracedOk(edges, cycles, cycleNodes)
    {
      var tracer := new CycleTracer(edges, cycleNodes);
      var rest := cycleNodes;
      starts := [];
      while rest != {}
        invariant rest <= cycleNodes && tracer.Valid() && tracer.edges == edges && tracer.cycleNodes == cycleNodes
        invariant Distinct(starts) && Elems(starts) == cycleNodes - rest <= tracer.traced
        invariant TracedOk(edges, tracer.cycles, tracer.traced)
        invariant Found(tracer.cycles, tracer.traced) == SearchAll(edges, starts)
      {
        var start :| start in rest;
        OneMoreStart(edges, starts, start);
        assert start !in starts;
        tracer.Trace(start);
        rest, starts := rest - {start}, starts + [start];
      }
      cycles := tracer.cycles;
    }

    /** The Kahn pass of topologicalSort (graph.go:260-291); targets are decremented in name order. */
    method DependentsFirst() returns (order: seq<string>)
      requires Valid()
      ensures LeastOrder(Flip(edges), order)
    {
      ghost var g := Flip(edges);
      FlipFlip(edges);
      var count := InDegrees(edges);
      var queue := SortedKeys(set n | n in count && count[n] == 0);
      StrictIsDistinct(queue);
      InitQueue(g, count, queue);
      queue := Sort(Leq, queue);
      order := [];
      while queue != []
        invariant LeastPrefix(g, order)
        invariant LoopState(g, Elems(order), {}, count, queue)
        decreases nodes - Elems(order)
      {
        PopHead(g, order, count, queue);
        var n := queue[0];
        FlipDependants(edges, n);
        ElemsAppend(order, n);
        queue, order := queue[1..], order + [n];
        var next := SortedKeys(edges[n]);
        count, queue := DrainInOrder(g, Elems(order), next, count, queue);
      }
      HeadlessIsDone(g, Elems(order));
    }

    /** Succeeds exactly on acyclic graphs, with every dependency before its dependents;
        read backwards the result is the least dependents-first order. */
    method TopologicalSort() returns (r: Option<seq<string>>)
      requires Valid()
      ensures r.Some? <==> Acyclic(edges)
      ensures r.Some? ==> DepsFirst(edges, r.value) && Elems(r.value) == nodes && |r.value| == |nodes|
      ensures r.Some? ==> LeastOrder(Flip(edges), Reversed(r.value))
    {
      var order := DependentsFirst();
      KahnDecides(edges, order);
      if |order| != |nodes| { return None; }
      ReverseOrder(edges, order);
      ghost var forward := order;
      order := Reverse(order);
      assert Reversed(order) == forward;
      r := Some(order);
    }
  }

  /** The loop over targets in map order (graph.go:192-198). */
  method DrainAnyOrder(ghost g: Graph, ghost placed: set<string>, targets: set<string>, count: map<string, int>, queue: seq<string>)
    returns (count': map<string, int>, queue': seq<string>)
    requires LoopState(g, placed, targets, count, queue)
    ensures LoopState(g, placed, {}, count', queue')
  {
    count', queue' := count, queue;
    var ts := targets;
    while ts != {}
      invariant LoopState(g, placed, ts, count', queue')
    {
      var t :| t in ts;
      DrainOne(g, placed, ts, count', queue', t);
      count', ts := count'[t := count'[t] - 1], ts - {t};
      if count'[t] == 0 { queue' := Sort(Leq, queue' + [t]); }
    }
  }

  /** The swapping loop at graph.go:298-300. */
  method Reverse(s: seq<string>) returns (order: seq<string>)
    ensures order == Reversed(s)
  {
    order := s;
    var i, j := 0, |order| - 1;
    while i < j
      invariant 0 <= i <= |s| && j == |s| - 1 - i && |order| == |s|
      invariant forall k :: i <= k <= j ==> order[k] == s[k]
      invariant forall k :: 0 <= k < i ==> order[k] == s[|s| - 1 - k]
      invariant forall k :: j < k < |s| ==> order[k] == s[|s| - 1 - k]
    {
      var a, b := order[i], order[j];
      order := order[i := b][j := a];
      i, j := i + 1, j - 1;
    }
  }

  // ---------------------------------------------------------------------------
  // From schemas to the graph.

  /** `edges` after an entity's targets have been added: known names only, itself excluded. */
  ghost function WithTargets(edges: Graph, src: string, targets: set<string>, names: set<string>): Graph
  {
    edges[src := (if src in edges then edges[src] else {}) + (targets * names - {src})]
  }

  lemma NoTargets(edges: Graph, src: string, names: set<string>)
    ensures WithTargets(edges, src, {}, names) == if src in edges then edges else edges[src := {}]
  {
    assert {} * names - {src} == {};
    assert (if src in edges then edges[src] else {}) + {} == (if src in edges then edges[src] else {});
  }

  lemma MoreTargets(edges: Graph, src: string, a: set<string>, b: set<string>, names: set<string>)
    ensures WithTargets(edges, src, a + b, names) == WithTargets(WithTargets(edges, src, a, names), src, b, names)
  {
    var base := if src in edges then edges[src] else {};
    assert base + ((a + b) * names - {src}) == base + (a * names - {src}) + (b * names - {src});
  }

  /** The graph, the self-references and the diagnostics after a list of references. */
  ghost predicate Added(edges: Graph, selfRefs: set<string>, src: string, targets: set<string>, refs: set<Reference>, names: set<string>,
                        edges': Graph, selfRefs': set<string>, ds: seq<Diagnostic>)
  {
    && src in edges' && edges' == WithTargets(edges, src, targets, names)
    && selfRefs' == selfRefs + (targets * names * {src})
    && Diagnosed(src, refs, names, ds)
  }

  /** Exactly the references to unknown names are diagnosed, each under its field's or edge's name. */
  ghost predicate Diagnosed(src: string, refs: set<Reference>, names: set<string>, ds: seq<Diagnostic>)
  {
    && (forall d :: d in ds ==> d.OrphanTarget? && d.entity == src)
    && (forall via, t :: OrphanTarget(src, via, t) in ds <==> Reference(via, t) in refs && t !in names)
  }

  lemma DiagnosedMore(src: string, a: set<Reference>, ds: seq<Diagnostic>, b: set<Reference>, more: seq<Diagnostic>, names: set<string>)
    requires Diagnosed(src, a, names, ds) && Diagnosed(src, b, names, more)
    ensures Diagnosed(src, a + b, names, ds + more)
  {
    assert forall d :: d in ds + more <==> d in ds || d in more;
  }

  lemma NothingAdded(edges: Graph, selfRefs: set<string>, src: string, names: set<string>)
    requires src in edges
    ensures Added(edges, selfRefs, src, {}, {}, names, edges, selfRefs, [])
  {
    NoTargets(edges, src, names);
  }

  lemma OneAdded(edges: Graph, selfRefs: set<string>, src: string, targets: set<string>, refs: set<Reference>, names: set<string>,
                 edges': Graph, selfRefs': set<string>, ds: seq<Diagnostic>, via: string, t: string)
    requires Added(edges, selfRefs, src, targets, refs, names, edges', selfRefs', ds)
    ensures Added(edges, selfRefs, src, targets + {t}, refs + {Reference(via, t)}, names,
                  if t in names - {src} then edges'[src := edges'[src] + {t}] else edges',
                  if t == src && src in names then selfRefs' + {src} else selfRefs',
                  ds + if t in names then [] else [OrphanTarget(src, via, t)])
  {
    OneMoreTarget(edges, src, targets, t, names);
    DiagnosedMore(src, refs, ds, {Reference(via, t)}, if t in names then [] else [OrphanTarget(src, via, t)], names);
  }

  lemma OneMoreTarget(edges: Graph, src: string, targets: set<string>, t: string, names: set<string>)
    ensures var g := WithTargets(edges, src, targets, names);
            WithTargets(edges, src, targets + {t}, names) == if t in names - {src} then g[src := g[src] + {t}] else g
  {
    var g := WithTargets(edges, src, targets, names);
    MoreTargets(edges, src, targets, {t}, names);
    assert {t} * names - {src} == if t in names - {src} then {t} else {};
    assert g[src] + {} == g[src];
  }

  ghost predicate Refers(schemas: seq<EntitySchema>, n: string, t: string)
  {
    exists es :: es in schemas && es.qualifiedName == n && t in Targets(es)
  }

  /** The graph the declarations mean: `n` depends on every other known name it refers to. */
  ghost function EntityGraph(schemas: seq<EntitySchema>, names: set<string>): Graph
  {
    map n | n in NamesOf(schemas) :: set t | t in names && t != n && Refers(schemas, n, t)
  }

  lemma RefersIff(schemas: seq<EntitySchema>, n: string, t: string)
    ensures Refers(schemas, n, t) <==> exists via :: DeclaredBy(schemas, n, via, t)
  {
    if es :| es in schemas && es.qualifiedName == n && t in Targets(es) {
      ReferencesDeclared(es);
      var via :| Declares(es, via, t);
      assert DeclaredBy(schemas, n, via, t);
    }
    if via :| DeclaredBy(schemas, n, via, t) {
      var es :| es in schemas && es.qualifiedName == n && Declares(es, via, t);
      ReferencesDeclared(es);
    }
  }

  /** Every declared target is a known name. */
  ghost predicate NoOrphans(schemas: seq<EntitySchema>, names: set<string>)
  {
    forall n, via, t :: DeclaredBy(schemas, n, via, t) ==> t in names
  }

  lemma EntityGraphAppend(schemas: seq<EntitySchema>, es: EntitySchema, names: set<string>)
    ensures EntityGraph(schemas + [es], names) == WithTargets(EntityGraph(schemas, names), es.qualifiedName, Targets(es), names)
  {
    var all := schemas + [es];
    NamesOfAppend(schemas, es);
    assert forall x :: x in all <==> x in schemas || x == es;
    forall n, t ensures Refers(all, n, t) <==> Refers(schemas, n, t) || (n == es.qualifiedName && t in Targets(es)) {
      if n == es.qualifiedName && t in Targets(es) { assert es in all; }
    }
    var g, h := EntityGraph(all, names), WithTargets(EntityGraph(schemas, names), es.qualifiedName, Targets(es), names);
    assert g.Keys == h.Keys;
    assert es.qualifiedName !in NamesOf(schemas) ==> forall t :: !Refers(schemas, es.qualifiedName, t);
    forall n | n in g ensures g[n] == h[n] { }
  }

  /** Exactly the declared references to unknown names are diagnosed. */
  ghost predicate OrphansIn(schemas: seq<EntitySchema>, names: set<string>, ds: seq<Diagnostic>)
  {
    && (forall d :: d in ds ==> d.OrphanTarget?)
    && (forall n, via, t :: OrphanTarget(n, via, t) in ds <==> DeclaredBy(schemas, n, via, t) && t !in names)
  }

  lemma DeclaredAppend(schemas: seq<EntitySchema>, es: EntitySchema, n: string, via: string, t: string)
    ensures DeclaredBy(schemas + [es], n, via, t) <==> DeclaredBy(schemas, n, via, t) || (n == es.qualifiedName && Declares(es, via, t))
  {
    assert forall x :: x in schemas + [es] <==> x in schemas || x == es;
  }

  lemma OrphansAppend(schemas: seq<EntitySchema>, es: EntitySchema, names: set<string>, ds: seq<Diagnostic>, more: seq<Diagnostic>)
    requires OrphansIn(schemas, names, ds) && Diagnosed(es.qualifiedName, References(es), names, more)
    ensures OrphansIn(schemas + [es], names, ds + more)
  {
    assert forall d :: d in ds + more <==> d in ds || d in more;
    ReferencesDeclared(es);
    forall n, via, t ensures OrphanTarget(n, via, t) in ds + more <==> DeclaredBy(schemas + [es], n, via, t) && t !in names {
      DeclaredAppend(schemas, es, n, via, t);
    }
  }

  lemma OrphansIff(schemas: seq<EntitySchema>, names: set<string>, ds: seq<Diagnostic>)
    requires OrphansIn(schemas, names, ds)
    ensures ds == [] <==> NoOrphans(schemas, names)
  {
    if ds != [] {
      var d := ds[0];
      assert OrphanTarget(d.entity, d.via, d.target) == d && d in ds;
      assert DeclaredBy(schemas, d.entity, d.via, d.target);
    }
    if n, via, t :| DeclaredBy(schemas, n, via, t) && t !in names {
      assert OrphanTarget(n, via, t) in ds;
    }
  }

  /** The cycles among the diagnostics. */
  ghost function CyclesIn(ds: seq<Diagnostic>): (r: seq<seq<string>>)
    ensures |r| == |ds|
  {
    seq(|ds|, i requires 0 <= i < |ds| => if ds[i].CircularDependency? then ds[i].cycle else [])
  }

  /** Building the graph succeeds exactly when every target is registered and there is no
      cycle through two or more entities; then the stored order is a permutation of the
      entities with dependencies first, and depends on the declarations alone. */
  method BuildDependencyGraph(schemas: seq<EntitySchema>, names: set<string>) returns (g: DependencyGraph, ds: seq<Diagnostic>)
    requires names == NamesOf(schemas)
    ensures g.nodes == names && g.edges == EntityGraph(schemas, names)
    ensures forall n, t :: Edge(g.edges, n, t) <==> t in names && t != n && exists via :: DeclaredBy(schemas, n, via, t)
    ensures forall n :: n in g.selfRefs <==> n in names && exists via :: DeclaredBy(schemas, n, via, n)
    ensures ds == [] <==> NoOrphans(schemas, names) && Acyclic(EntityGraph(schemas, names))
    ensures g.topologicalOrder.Some? <==> ds == []
    ensures ds == [] ==> var order := g.topologicalOrder.value;
                         && DepsFirst(g.edges, order) && Elems(order) == names
                         && LeastOrder(Flip(g.edges), Reversed(order))
    ensures NoOrphans(schemas, names) ==> Reported(g.edges, CyclesIn(ds))
    ensures forall n, via, t :: OrphanTarget(n, via, t) in ds <==> DeclaredBy(schemas, n, via, t) && t !in names
    ensures forall d :: d in ds ==> !d.SortIncomplete? && (d.CircularDependency? ==> LeftCycle(g.edges, d.cycle))
  {
    g, ds := BuildEdges(schemas, names);
    EdgesDeclared(schemas, names);
    OrphansIff(schemas, names, ds);
    if ds != [] { return; }
    ds := SortOrReport(g);
  }

  /** Reports the cycles, or stores the order if there are none (graph.go:108-125). */
  method SortOrReport(g: DependencyGraph) returns (ds: seq<Diagnostic>)
    requires g.Valid() && g.topologicalOrder == None
    modifies g`topologicalOrder
    ensures ds == [] <==> Acyclic(g.edges)
    ensures g.topologicalOrder.Some? <==> ds == []
    ensures ds == [] ==> var order := g.topologicalOrder.value;
                         && DepsFirst(g.edges, order) && Elems(order) == g.nodes
                         && LeastOrder(Flip(g.edges), Reversed(order))
    ensures Reported(g.edges, CyclesIn(ds)) && forall d :: d in ds ==> d.CircularDependency? && LeftCycle(g.edges, d.cycle)
  {
    var cycles, starts := g.DetectCycles();
    ds := ReportCycles(cycles);
    if ds == [] {
      var order := g.TopologicalSort();
      g.topologicalOrder := order;
    }
  }

  /** One diagnostic for each cycle (graph.go:109-113). */
  method ReportCycles(cycles: seq<seq<string>>) returns (ds: seq<Diagnostic>)
    ensures CyclesIn(ds) == cycles && forall d :: d in ds ==> d.CircularDependency? && d.cycle in cycles
  {
    ds := [];
    for i := 0 to |cycles|
      invariant CyclesIn(ds) == cycles[..i] && forall d :: d in ds ==> d.CircularDependency? && d.cycle in cycles
    {
      ds := ds + [CircularDependency(cycles[i])];
    }
    assert cycles[..|cycles|] == cycles;
  }

  /** The loop over schemas (graph.go:49-102). */
  method BuildEdges(schemas: seq<EntitySchema>, names: set<string>) returns (g: DependencyGraph, ds: seq<Diagnostic>)
    requires names == NamesOf(schemas)
    ensures fresh(g) && g.topologicalOrder == None && g.nodes == names && g.edges == EntityGraph(schemas, names)
    ensures g.selfRefs == SelfReferring(schemas, names)
    ensures OrphansIn(schemas, names, ds)
  {
    g := new DependencyGraph();
    ds := [];
    for i := 0 to |schemas|
      invariant g.topologicalOrder == None && g.nodes == NamesOf(schemas[..i])
      invariant g.edges == EntityGraph(schemas[..i], names)
      invariant g.selfRefs == SelfReferring(schemas[..i], names)
      invariant OrphansIn(schemas[..i], names, ds)
    {
      var es := schemas[i];
      assert schemas[..i + 1] == schemas[..i] + [es];
      NamesOfAppend(schemas[..i], es);
      EntityGraphAppend(schemas[..i], es, names);
      SelfReferringAppend(schemas[..i], es, names);
      var more := g.AddEntity(es, names);
      OrphansAppend(schemas[..i], es, names, ds, more);
      ds := ds + more;
    }
    assert schemas[..|schemas|] == schemas;
  }

  ghost function SelfReferring(schemas: seq<EntitySchema>, names: set<string>): set<string>
  {
    set n | n in names && Refers(schemas, n, n)
  }

  /** `n` depends on `t` exactly when it declares a reference to it and both are different known names. */
  lemma EdgesDeclared(schemas: seq<EntitySchema>, names: set<string>)
    ensures forall n, t :: Edge(EntityGraph(schemas, names), n, t) <==>
                           t in names && t != n && exists via :: DeclaredBy(schemas, n, via, t)
    ensures forall n :: n in SelfReferring(schemas, names) <==> n in names && exists via :: DeclaredBy(schemas, n, via, n)
  {
    forall n, t ensures Refers(schemas, n, t) <==> exists via :: DeclaredBy(schemas, n, via, t) {
      RefersIff(schemas, n, t);
    }
  }

  lemma SelfReferringAppend(schemas: seq<EntitySchema>, es: EntitySchema, names: set<string>)
    ensures SelfReferring(schemas + [es], names) == SelfReferring(schemas, names) + (Targets(es) * names * {es.qualifiedName})
  {
    assert forall x :: x in schemas + [es] <==> x in schemas || x == es;
    forall n ensures Refers(schemas + [es], n, n) <==> Refers(schemas, n, n) || (n == es.qualifiedName && n in Targets(es)) {
      if n == es.qualifiedName && n in Targets(es) { assert es in schemas + [es]; }
    }
  }

  lemma SameReferences(s: seq<EntitySchema>, t: seq<EntitySchema>, n: string, x: string)
    requires Elems(s) == Elems(t)
    ensures Refers(s, n, x) ==> Refers(t, n, x)
  {
    if Refers(s, n, x) {
      var es :| es in s && es.qualifiedName == n && x in Targets(es);
      assert es in Elems(t);
    }
  }

  lemma SameNames(s: seq<EntitySchema>, t: seq<EntitySchema>)
    requires Elems(s) == Elems(t)
    ensures NamesOf(s) == NamesOf(t)
  {
    assert forall es :: es in s <==> es in Elems(s);
    assert forall es :: es in t <==> es in Elems(t);
  }

  lemma SameGraph(s: seq<EntitySchema>, t: seq<EntitySchema>, names: set<string>)
    requires Elems(s) == Elems(t)
    ensures EntityGraph(s, names) == EntityGraph(t, names)
  {
    SameNames(s, t);
    forall n, x ensures Refers(s, n, x) <==> Refers(t, n, x) {
      SameReferences(s, t, n, x);
      SameReferences(t, s, n, x);
    }
    forall n | n in NamesOf(s) ensures EntityGraph(s, names)[n] == EntityGraph(t, names)[n] {
      assert forall x :: x in EntityGraph(s, names)[n] <==> x in EntityGraph(t, names)[n];
    }
  }

  lemma ReversedInjective(o: seq<string>, p: seq<string>)
    requires Reversed(o) == Reversed(p)
    ensures o == p
  {
    assert |o| == |Reversed(o)| == |Reversed(p)| == |p|;
    forall i | 0 <= i < |o| ensures o[i] == p[i] {
      assert Reversed(o)[|o| - 1 - i] == o[i] && Reversed(p)[|p| - 1 - i] == p[i];
    }
  }

  /** Registering the same entities in another order gives the same migration order. */
  lemma OrderIgnoresRegistration(s: seq<EntitySchema>, t: seq<EntitySchema>, o: seq<string>, p: seq<string>)
    requires Elems(s) == Elems(t)
    requires LeastOrder(Flip(EntityGraph(s, NamesOf(s))), Reversed(o))
    requires LeastOrder(Flip(EntityGraph(t, NamesOf(t))), Reversed(p))
    ensures o == p
  {
    SameNames(s, t);
    SameGraph(s, t, NamesOf(s));
    LeastOrderUnique(Flip(EntityGraph(s, NamesOf(s))), Reversed(o), Reversed(p));
    ReversedInjective(o, p);
  }
}
