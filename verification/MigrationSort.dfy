/** Ordering migration sources by a three-colour depth-first search: topoSort in
    awo/migration/migration.go. */
module MigrationSort {
  import opened Options
  import opened Names
  import opened Digraph
  import opened MigrationSteps

  /** `fs` is the module's directory of scripts. */
  datatype Source = Source(moduleName: string, priority: int, dependsOn: seq<string>, fs: Option<seq<Entry>>)

  type Modules = map<string, Source>

  datatype Outcome = Ordered(sources: seq<Source>) | MissingDependency(moduleName: string, dependency: string) | CycleDetected

  /** `byModule`: of several sources with one name the last wins. */
  ghost function ByModule(sources: seq<Source>): Modules
  {
    if sources == [] then map[]
    else ByModule(sources[..|sources| - 1])[sources[|sources| - 1].moduleName := sources[|sources| - 1]]
  }

  lemma {:induction false} ByModuleFacts(sources: seq<Source>)
    ensures forall n :: n in ByModule(sources) ==> ByModule(sources)[n].moduleName == n && ByModule(sources)[n] in sources
    ensures forall s :: s in sources ==> s.moduleName in ByModule(sources)
  {
    if sources != [] {
      var init, last := sources[..|sources| - 1], sources[|sources| - 1];
      assert sources == init + [last];
      ByModuleFacts(init);
    }
  }

  /** The loop that fills the map (migration.go:333-336). */
  method Index(sources: seq<Source>) returns (byModule: Modules)
    ensures byModule == ByModule(sources)
  {
    byModule := map[];
    for i := 0 to |sources|
      invariant byModule == ByModule(sources[..i])
    {
      assert sources[..i + 1][..i] == sources[..i];
      byModule := byModule[sources[i].moduleName := sources[i]];
    }
    assert sources[..|sources|] == sources;
  }

  /** The source is the last of the list with its name. */
  ghost predicate Registered(sources: seq<Source>, s: Source)
  {
    exists i :: 0 <= i < |sources| && sources[i] == s && forall j :: i < j < |sources| ==> sources[j].moduleName != s.moduleName
  }

  lemma RegisteredAppend(init: seq<Source>, last: Source, s: Source)
    ensures Registered(init + [last], s) <==> s == last || (Registered(init, s) && s.moduleName != last.moduleName)
  {
    var all := init + [last];
    assert all[|init|] == last && forall i :: 0 <= i < |init| ==> all[i] == init[i];
    if Registered(init, s) && s.moduleName != last.moduleName {
      var i :| 0 <= i < |init| && init[i] == s && forall j :: i < j < |init| ==> init[j].moduleName != s.moduleName;
      assert all[i] == s;
    }
  }

  lemma {:induction false} RegisteredIff(sources: seq<Source>, s: Source)
    ensures Registered(sources, s) <==> s.moduleName in ByModule(sources) && ByModule(sources)[s.moduleName] == s
  {
    if sources != [] {
      var init, last := sources[..|sources| - 1], sources[|sources| - 1];
      assert sources == init + [last];
      RegisteredIff(init, s);
      RegisteredAppend(init, last, s);
    }
  }

  ghost function Deps(ms: Modules): Graph
  {
    map n | n in ms :: Elems(ms[n].dependsOn)
  }

  ghost predicate AllPresent(sources: seq<Source>)
  {
    forall s, d :: s in sources && d in s.dependsOn ==> d in ByModule(sources)
  }

  /** Lower priority first, then by module name. */
  predicate KeyLeq(a: Source, b: Source)
  {
    a.priority < b.priority || (a.priority == b.priority && Leq(a.moduleName, b.moduleName))
  }

  ghost predicate KeyLess(a: Source, b: Source)
  {
    a.priority < b.priority || (a.priority == b.priority && Less(a.moduleName, b.moduleName))
  }

  lemma KeyLeqIsPreorder()
    ensures TotalPreorder(KeyLeq)
  {
    LeqIsTotalOrder();
  }

  // ---------------------------------------------------------------------------
  // The order in which a depth-first search places modules, said without the search.

  /** `d` is the first by name of the dependencies of `n` that are not yet placed. */
  ghost predicate FirstUnplaced(ms: Modules, placed: set<string>, n: string, d: string)
  {
    n in ms && d in ms[n].dependsOn && d !in placed && forall e :: e in ms[n].dependsOn && e !in placed ==> e == d || Less(d, e)
  }

  /** No source of an unplaced module has a smaller priority, or the same and a smaller name. */
  ghost predicate Foremost(sources: seq<Source>, placed: set<string>, s: Source)
  {
    forall t :: t in sources && t.moduleName !in placed ==>
      s.priority < t.priority || (s.priority == t.priority && (s.moduleName == t.moduleName || Less(s.moduleName, t.moduleName)))
  }

  ghost predicate Root(sources: seq<Source>, placed: set<string>, n: string)
  {
    n !in placed && exists s :: s in sources && s.moduleName == n && Foremost(sources, placed, s)
  }

  /** A path that starts at a root and always goes on to the first unplaced dependency. */
  ghost predicate Descent(sources: seq<Source>, ms: Modules, placed: set<string>, p: seq<string>)
  {
    if p == [] then true
    else if |p| == 1 then Root(sources, placed, p[0])
    else Descent(sources, ms, placed, p[..|p| - 1]) && FirstUnplaced(ms, placed, p[|p| - 2], p[|p| - 1])
  }

  /** The descent to `x` cannot go on. */
  ghost predicate Next(sources: seq<Source>, ms: Modules, placed: set<string>, x: string)
  {
    && x in ms && x !in placed && Elems(ms[x].dependsOn) <= placed
    && exists p :: Descent(sources, ms, placed, p) && p != [] && p[|p| - 1] == x
  }

  /** Each module is where the descent ends once those before it are placed. */
  ghost predicate SearchOrder(sources: seq<Source>, ms: Modules, order: seq<string>)
  {
    if order == [] then true
    else
      var init := order[..|order| - 1];
      SearchOrder(sources, ms, init) && Next(sources, ms, Elems(init), order[|order| - 1])
  }

  /** The stack is a descent, and stays one while other modules are placed. */
  lemma {:induction false} DescentStays(sources: seq<Source>, ms: Modules, placed: set<string>, x: string, p: seq<string>)
    requires Descent(sources, ms, placed, p) && x !in p
    ensures Descent(sources, ms, placed + {x}, p)
  {
    if |p| == 1 {
      RootStays(sources, placed, x, p[0]);
    } else if |p| > 1 {
      DescentStays(sources, ms, placed, x, p[..|p| - 1]);
    }
  }

  lemma RootStays(sources: seq<Source>, placed: set<string>, x: string, n: string)
    requires Root(sources, placed, n) && x != n
    ensures Root(sources, placed + {x}, n)
  {
    var s :| s in sources && s.moduleName == n && Foremost(sources, placed, s);
    assert Foremost(sources, placed + {x}, s);
  }

  lemma DescentGoesOn(sources: seq<Source>, ms: Modules, placed: set<string>, p: seq<string>, n: string)
    requires Descent(sources, ms, placed, p)
    requires if p == [] then Root(sources, placed, n) else FirstUnplaced(ms, placed, p[|p| - 1], n)
    ensures Descent(sources, ms, placed, p + [n])
  {
    assert (p + [n])[..|p|] == p;
  }

  lemma DescentPrefix(sources: seq<Source>, ms: Modules, placed: set<string>, p: seq<string>, n: string)
    requires Descent(sources, ms, placed, p + [n])
    ensures Descent(sources, ms, placed, p)
  {
    assert (p + [n])[..|p|] == p;
  }

  lemma SearchOrderAppend(sources: seq<Source>, ms: Modules, order: seq<string>, p: seq<string>, x: string)
    requires SearchOrder(sources, ms, order) && Descent(sources, ms, Elems(order), p + [x])
    requires x in ms && x !in order && Elems(ms[x].dependsOn) <= Elems(order)
    ensures SearchOrder(sources, ms, order + [x])
  {
    assert (p + [x])[|p|] == x;
    assert (order + [x])[..|order|] == order;
  }

  lemma RootUnique(sources: seq<Source>, placed: set<string>, n: string, m: string)
    requires Root(sources, placed, n) && Root(sources, placed, m)
    ensures n == m
  {
    LessTotal(n, m);
  }

  lemma FirstUnplacedUnique(ms: Modules, placed: set<string>, n: string, d: string, e: string)
    requires FirstUnplaced(ms, placed, n, d) && FirstUnplaced(ms, placed, n, e)
    ensures d == e
  {
    LessTotal(d, e);
  }

  /** Two descents agree as far as both go. */
  lemma {:induction false} DescentsAgree(sources: seq<Source>, ms: Modules, placed: set<string>, p: seq<string>, q: seq<string>)
    requires Descent(sources, ms, placed, p) && Descent(sources, ms, placed, q) && |p| <= |q|
    ensures p == q[..|p|]
    decreases |q|
  {
    if |p| < |q| {
      var init := q[..|q| - 1];
      DescentsAgree(sources, ms, placed, p, init);
      assert init[..|p|] == q[..|p|];
    } else if |p| == 1 {
      RootUnique(sources, placed, p[0], q[0]);
    } else if |p| > 1 {
      var n := |p| - 1;
      DescentsAgree(sources, ms, placed, p[..n], q[..n]);
      assert p[n - 1] == p[..n][n - 1] == q[..n][n - 1] == q[n - 1];
      FirstUnplacedUnique(ms, placed, p[n - 1], p[n], q[n]);
      assert p == p[..n] + [p[n]] && q == q[..n] + [q[n]];
    }
  }

  /** Nothing follows where all dependencies are placed. */
  lemma {:induction false} DescentEnds(sources: seq<Source>, ms: Modules, placed: set<string>, p: seq<string>, k: nat)
    requires Descent(sources, ms, placed, p) && k < |p| && p[k] in ms && Elems(ms[p[k]].dependsOn) <= placed
    ensures k == |p| - 1
  {
    if k < |p| - 2 { DescentEnds(sources, ms, placed, p[..|p| - 1], k); }
  }

  lemma NextUnique(sources: seq<Source>, ms: Modules, placed: set<string>, x: string, y: string)
    requires Next(sources, ms, placed, x) && Next(sources, ms, placed, y)
    ensures x == y
  {
    var p :| Descent(sources, ms, placed, p) && p != [] && p[|p| - 1] == x;
    var q :| Descent(sources, ms, placed, q) && q != [] && q[|q| - 1] == y;
    if |p| <= |q| {
      DescentsAgree(sources, ms, placed, p, q);
      DescentEnds(sources, ms, placed, q, |p| - 1);
    } else {
      DescentsAgree(sources, ms, placed, q, p);
      DescentEnds(sources, ms, placed, p, |q| - 1);
    }
  }

  /** The sources alone determine the order. */
  lemma {:induction false} SearchOrderUnique(sources: seq<Source>, ms: Modules, a: seq<string>, b: seq<string>)
    requires SearchOrder(sources, ms, a) && SearchOrder(sources, ms, b) && |a| == |b|
    ensures a == b
  {
    if a != [] {
      var n := |a| - 1;
      SearchOrderUnique(sources, ms, a[..n], b[..n]);
      NextUnique(sources, ms, Elems(a[..n]), a[n], b[n]);
      assert a == a[..n] + [a[n]] && b == b[..n] + [b[n]];
    }
  }

  /** What has been placed so far: each module once, after its dependencies. */
  ghost predicate Placed(ms: Modules, order: seq<string>, visited: set<string>, result: seq<Source>)
  {
    DepsFirst(Deps(ms), order) && Elems(order) == visited && result == Picked(ms, order)
  }

  lemma PlacedAcyclic(ms: Modules, order: seq<string>, result: seq<Source>)
    requires Placed(ms, order, ms.Keys, result)
    ensures Acyclic(Deps(ms))
  {
    CompleteOrderAcyclic(Deps(ms), order);
  }

  lemma PlaceOne(ms: Modules, order: seq<string>, visited: set<string>, result: seq<Source>, n: string)
    requires Placed(ms, order, visited, result) && n in ms && n !in visited
    requires Elems(ms[n].dependsOn) <= visited
    ensures Placed(ms, order + [n], visited + {n}, result + [ms[n]])
  {
    var order' := order + [n];
    ElemsAppend(order, n);
    PickOne(ms, order, n);
    forall i | 0 <= i < |order'| ensures order'[i] in Deps(ms) && Deps(ms)[order'[i]] <= Elems(order'[..i]) {
      assert order'[..i] == if i < |order| then order[..i] else order;
    }
  }

  /** `stack` is the chain of modules being visited, each depending on the next. */
  ghost predicate Stacked(ms: Modules, stack: seq<string>, inStack: set<string>)
  {
    IsWalk(Deps(ms), stack) && Elems(stack) == inStack <= ms.Keys
  }

  /** `n` is placed already, or the next to be reached from the stack. */
  ghost predicate Reached(sources: seq<Source>, ms: Modules, placed: set<string>, stack: seq<string>, n: string)
  {
    n in placed || if stack == [] then Root(sources, placed, n) else FirstUnplaced(ms, placed, stack[|stack| - 1], n)
  }

  /** The recursive closure `visit` with the variables it captures (migration.go:346-368). */
  class Sorter {
    ghost const sources: seq<Source>
    const byModule: Modules
    var visited: set<string>
    var inStack: set<string>
    var result: seq<Source>
    ghost var order: seq<string>

    ghost predicate Valid(stack: seq<string>)
      reads this
    {
      && Closed(Deps(byModule))
      && Placed(byModule, order, visited, result)
      && Stacked(byModule, stack, inStack) && inStack !! visited
      && Descent(sources, byModule, visited, stack) && SearchOrder(sources, byModule, order)
    }

    constructor (ghost sources: seq<Source>, byModule: Modules)
      requires Closed(Deps(byModule))
      ensures Valid([]) && this.sources == sources && this.byModule == byModule && visited == {} && result == []
    {
      this.sources, this.byModule, visited, inStack, result, order := sources, byModule, {}, {}, [], [];
    }

    /** Returns false where the source panics; then there is a cycle. A successful visit places
        `n` after what it depends on, each module as the search order demands. */
    method Visit(n: string, ghost stack: seq<string>) returns (ok: bool)
      requires Valid(stack) && n in byModule
      requires stack != [] ==> Edge(Deps(byModule), stack[|stack| - 1], n)
      requires Reached(sources, byModule, visited, stack, n)
      modifies this`visited, this`inStack, this`result, this`order
      ensures !ok ==> !Acyclic(Deps(byModule))
      ensures ok ==> Valid(stack) && inStack == old(inStack) && n in visited && old(visited) <= visited
      decreases byModule.Keys - inStack, 0
    {
      if n in visited { return true; }
      if n in inStack {
        ClosedStack(Deps(byModule), stack, n);
        return false;
      }
      Push(n, stack);
      var deps := Sort(Leq, byModule[n].dependsOn);
      SortElems(byModule[n].dependsOn);
      ok := VisitAll(n, deps, stack + [n]);
      if !ok { return; }
      Finish(n, stack, old(inStack));
    }

    /** Puts `n` on the stack. */
    method Push(n: string, ghost stack: seq<string>)
      requires Valid(stack) && n in byModule && n !in visited && n !in inStack
      requires stack != [] ==> Edge(Deps(byModule), stack[|stack| - 1], n)
      requires Reached(sources, byModule, visited, stack, n)
      modifies this`inStack
      ensures Valid(stack + [n]) && inStack == old(inStack) + {n}
    {
      PushStack(byModule, stack, inStack, n);
      DescentGoesOn(sources, byModule, visited, stack, n);
      inStack := inStack + {n};
    }

    /** Takes `n` off the stack and appends it to the result. */
    method Finish(n: string, ghost stack: seq<string>, ghost before: set<string>)
      requires Valid(stack + [n]) && n in byModule && n !in before && Elems(byModule[n].dependsOn) <= visited
      requires Stacked(byModule, stack, before) && inStack == before + {n}
      modifies this`visited, this`inStack, this`result, this`order
      ensures Valid(stack) && inStack == before && visited == old(visited) + {n} && result == old(result) + [byModule[n]]
    {
      PlaceOne(byModule, order, visited, result, n);
      SearchOrderAppend(sources, byModule, order, stack, n);
      assert Descent(sources, byModule, visited, stack) by { DescentPrefix(sources, byModule, visited, stack, n); }
      DescentStays(sources, byModule, visited, n, stack);
      inStack := inStack - {n};
      visited, order, result := visited + {n}, order + [n], result + [byModule[n]];
    }

    /** The loop over a module's sorted dependencies. */
    method VisitAll(n: string, deps: seq<string>, ghost stack: seq<string>) returns (ok: bool)
      requires Valid(stack) && n in byModule && SortedBy(Leq, deps) && Elems(deps) == Elems(byModule[n].dependsOn)
      requires stack != [] && stack[|stack| - 1] == n
      modifies this`visited, this`inStack, this`result, this`order
      ensures !ok ==> !Acyclic(Deps(byModule))
      ensures ok ==> Valid(stack) && inStack == old(inStack) && Elems(deps) <= visited && old(visited) <= visited
      decreases byModule.Keys - inStack, 1
    {
      for i := 0 to |deps|
        invariant Valid(stack) && inStack == old(inStack) && old(visited) <= visited
        invariant forall k :: 0 <= k < i ==> deps[k] in visited
      {
        assert deps[i] in Elems(deps);
        assert Edge(Deps(byModule), n, deps[i]);
        if deps[i] !in visited { FirstOfRest(byModule, visited, n, deps, i); }
        ghost var before := visited;
        ok := Visit(deps[i], stack);
        if !ok { return; }
        assert forall k :: 0 <= k < i ==> deps[k] in before;
      }
      ok := true;
    }
  }

  /** When the sorted dependencies before `i` are placed, the next is the first unplaced one. */
  lemma FirstOfRest(ms: Modules, placed: set<string>, n: string, deps: seq<string>, i: nat)
    requires n in ms && SortedBy(Leq, deps) && Elems(deps) == Elems(ms[n].dependsOn) && i < |deps|
    requires (forall k :: 0 <= k < i ==> deps[k] in placed) && deps[i] !in placed
    ensures FirstUnplaced(ms, placed, n, deps[i])
  {
    assert deps[i] in Elems(deps);
    forall e | e in ms[n].dependsOn && e !in placed ensures e == deps[i] || Less(deps[i], e) {
      assert e in Elems(deps);
      var k :| 0 <= k < |deps| && deps[k] == e;
      assert i < k ==> Leq(deps[i], deps[k]);
      LessTotal(deps[i], e);
    }
  }

  lemma PushStack(ms: Modules, stack: seq<string>, inStack: set<string>, n: string)
    requires Stacked(ms, stack, inStack) && n in ms
    requires stack != [] ==> Edge(Deps(ms), stack[|stack| - 1], n)
    ensures Stacked(ms, stack + [n], inStack + {n})
  {
    ElemsAppend(stack, n);
  }

  lemma ClosedStack(g: Graph, stack: seq<string>, n: string)
    requires IsWalk(g, stack) && n in stack && Edge(g, stack[|stack| - 1], n)
    ensures !Acyclic(g)
  {
    var i :| 0 <= i < |stack| && stack[i] == n;
    CutWalk(g, stack + [n], i, |stack|);
    assert Reaches(g, n, n);
  }

  lemma SortElems(s: seq<string>)
    ensures Elems(Sort(Leq, s)) == Elems(s) && SortedBy(Leq, Sort(Leq, s))
  {
    LeqIsTotalOrder();
    SortIsSorted(Leq, s);
    assert forall x :: x in Sort(Leq, s) <==> x in multiset(Sort(Leq, s));
    assert forall x :: x in s <==> x in multiset(s);
  }

  /** The check that every dependency is registered (migration.go:338-344). */
  method FindMissing(sources: seq<Source>, byModule: Modules) returns (missing: bool, r: Outcome)
    requires byModule == ByModule(sources)
    ensures missing <==> !AllPresent(sources)
    ensures missing ==> r.MissingDependency? && r.dependency !in byModule &&
                        exists s :: s in sources && s.moduleName == r.moduleName && r.dependency in s.dependsOn
  {
    missing, r := false, Ordered([]);
    for i := 0 to |sources|
      invariant forall k, d :: 0 <= k < i && d in sources[k].dependsOn ==> d in byModule
    {
      var s := sources[i];
      for j := 0 to |s.dependsOn|
        invariant forall k :: 0 <= k < j ==> s.dependsOn[k] in byModule
      {
        if s.dependsOn[j] !in byModule {
          assert s in sources && s.dependsOn[j] in s.dependsOn;
          return true, MissingDependency(s.moduleName, s.dependsOn[j]);
        }
      }
    }
  }

  /** Every dependency's key is smaller than its dependent's. */
  ghost predicate KeysAscend(ms: Modules)
  {
    forall n, d :: n in ms && d in ms[n].dependsOn && d in ms ==> KeyLess(ms[d], ms[n])
  }

  /** Ascending by priority, and by name among equal priorities. */
  ghost predicate InKeyOrder(l: seq<Source>)
  {
    forall i, j :: 0 <= i < j < |l| ==>
      l[i].priority < l[j].priority || (l[i].priority == l[j].priority && Less(l[i].moduleName, l[j].moduleName))
  }

  lemma SortedAscends(sources: seq<Source>)
    requires DistinctModules(sources)
    ensures InKeyOrder(Sort(KeyLeq, sources))
  {
    var sorted := Sort(KeyLeq, sources);
    SortKeySorted(sources);
    forall i, j | 0 <= i < j < |sorted| ensures KeyLess(sorted[i], sorted[j]) {
      assert KeyLeq(sorted[i], sorted[j]);
      LessTotal(sorted[i].moduleName, sorted[j].moduleName);
    }
  }

  /** Panics exactly when a dependency is missing or the modules depend on each other in a
      circle; otherwise returns every module once, after everything it depends on, in the one order
      that SearchOrder allows. When each module's dependencies have a smaller priority, or the same and
      a smaller name, the list is sorted by priority and name. */
  method TopoSort(sources: seq<Source>) returns (r: Outcome, ghost order: seq<string>)
    ensures r.Ordered? <==> AllPresent(sources) && Acyclic(Deps(ByModule(sources)))
    ensures r.MissingDependency? <==> !AllPresent(sources)
    ensures r.Ordered? ==> Placed(ByModule(sources), order, ByModule(sources).Keys, r.sources)
    ensures r.Ordered? ==> SearchOrder(sources, ByModule(sources), order)
    ensures r.Ordered? && DistinctModules(sources) && KeysAscend(ByModule(sources)) ==>
              multiset(r.sources) == multiset(sources) && InKeyOrder(r.sources)
  {
    var byModule := Index(sources);
    ByModuleFacts(sources);
    order := [];
    var missing;
    missing, r := FindMissing(sources, byModule);
    if missing { return; }
    assert Closed(Deps(byModule));
    var sorted := Sort(KeyLeq, sources);
    SortedFacts(sources);
    SortQueues(sources);
    var ok, result;
    ok, result, order := VisitEach(sources, byModule, sorted);
    if !ok { return CycleDetected, []; }
    PlacedAcyclic(byModule, order, result);
    if DistinctModules(sources) && KeysAscend(byModule) {
      SortedIsSearched(sources, order, result);
      SortedAscends(sources);
    }
    r := Ordered(result);
  }

  /** Each source is the one registered under its name and comes, once, after its dependencies. */
  ghost predicate InLine(ms: Modules, sorted: seq<Source>)
  {
    forall i :: 0 <= i < |sorted| ==>
      && sorted[i].moduleName in ms && ms[sorted[i].moduleName] == sorted[i]
      && sorted[i].moduleName !in ModulesOf(sorted[..i])
      && Elems(sorted[i].dependsOn) <= ModulesOf(sorted[..i])
  }

  /** The loop over the sorted sources (migration.go:378-381). */
  method VisitEach(ghost sources: seq<Source>, byModule: Modules, sorted: seq<Source>)
    returns (ok: bool, result: seq<Source>, ghost order: seq<string>)
    requires Closed(Deps(byModule)) && ModulesOf(sorted) == byModule.Keys
    requires Queue(sources, sorted)
    ensures !ok ==> !Acyclic(Deps(byModule))
    ensures ok ==> Placed(byModule, order, byModule.Keys, result) && SearchOrder(sources, byModule, order)
  {
    var sorter := new Sorter(sources, byModule);
    for i := 0 to |sorted|
      invariant sorter.Valid([]) && sorter.sources == sources && sorter.byModule == byModule
      invariant ModulesOf(sorted[..i]) <= sorter.visited
    {
      SourceReached(sources, byModule, sorter.visited, sorted, i);
      ok := sorter.Visit(sorted[i].moduleName, []);
      if !ok { return false, [], []; }
    }
    assert sorted[..|sorted|] == sorted;
    VisitedAreNodes(byModule, sorter.order);
    ok, result, order := true, sorter.result, sorter.order;
  }

  /** The sources sorted by key. */
  ghost predicate Queue(sources: seq<Source>, sorted: seq<Source>)
  {
    SortedBy(KeyLeq, sorted) && forall s :: s in sorted <==> s in sources
  }

  lemma SortQueues(sources: seq<Source>)
    ensures Queue(sources, Sort(KeyLeq, sources))
  {
    KeyLeqIsPreorder();
    SortIsSorted(KeyLeq, sources);
    SortedFacts(sources);
  }

  lemma SourceReached(sources: seq<Source>, ms: Modules, placed: set<string>, sorted: seq<Source>, i: nat)
    requires Queue(sources, sorted) && i < |sorted| && ModulesOf(sorted[..i]) <= placed
    ensures Reached(sources, ms, placed, [], sorted[i].moduleName)
    ensures sorted[i].moduleName in ModulesOf(sorted)
    ensures ModulesOf(sorted[..i + 1]) == ModulesOf(sorted[..i]) + {sorted[i].moduleName}
  {
    assert sorted[..i + 1] == sorted[..i] + [sorted[i]];
    ModulesOfAppend(sorted[..i], sorted[i]);
    if sorted[i].moduleName !in placed { FirstSource(sources, sorted, placed, i); }
  }

  /** When the sources before `i` are placed, the next is a root. */
  lemma FirstSource(sources: seq<Source>, sorted: seq<Source>, placed: set<string>, i: nat)
    requires Queue(sources, sorted) && i < |sorted| && ModulesOf(sorted[..i]) <= placed && sorted[i].moduleName !in placed
    ensures Root(sources, placed, sorted[i].moduleName)
  {
    var s := sorted[i];
    assert s in sources;
    forall j | 0 <= j < i ensures sorted[j].moduleName in placed { assert sorted[..i][j] == sorted[j]; }
    forall t | t in sources && t.moduleName !in placed ensures KeyLeq(s, t) {
      assert t in sorted;
      LessTotal(s.moduleName, t.moduleName);
    }
    forall t ensures KeyLeq(s, t) ==> KeyLess(s, t) || (s.priority == t.priority && s.moduleName == t.moduleName) {
      LessTotal(s.moduleName, t.moduleName);
    }
    assert Foremost(sources, placed, s);
  }

  lemma VisitedAreNodes(ms: Modules, order: seq<string>)
    requires DepsFirst(Deps(ms), order)
    ensures Elems(order) <= ms.Keys
  {
    forall n | n in order ensures n in ms {
      var i :| 0 <= i < |order| && order[i] == n;
    }
  }

  ghost function ModulesOf(ss: seq<Source>): set<string>
  {
    set s | s in ss :: s.moduleName
  }

  lemma ModulesOfAppend(ss: seq<Source>, s: Source)
    ensures ModulesOf(ss + [s]) == ModulesOf(ss) + {s.moduleName}
  {
    assert forall x :: x in ss + [s] <==> x in ss || x == s;
  }

  ghost predicate DistinctModules(ss: seq<Source>)
  {
    forall i, j :: 0 <= i < j < |ss| ==> ss[i].moduleName != ss[j].moduleName
  }

  lemma SortedFacts(sources: seq<Source>)
    ensures ModulesOf(Sort(KeyLeq, sources)) == ByModule(sources).Keys
    ensures forall s :: s in Sort(KeyLeq, sources) <==> s in sources
  {
    var sorted := Sort(KeyLeq, sources);
    ByModuleFacts(sources);
    assert forall s :: s in sorted <==> s in multiset(sorted);
    assert forall s :: s in sources <==> s in multiset(sources);
    forall n | n in ByModule(sources) ensures n in ModulesOf(sorted) { assert ByModule(sources)[n] in sorted; }
  }

  lemma SameModule(sources: seq<Source>, a: Source, b: Source)
    requires DistinctModules(sources) && a in sources && b in sources && a.moduleName == b.moduleName
    ensures a == b
  { }

  /** A permutation of sources with distinct names, in key order. */
  ghost predicate KeySorted(sources: seq<Source>, sorted: seq<Source>)
  {
    && DistinctModules(sorted) && (forall s :: s in sorted <==> s in sources)
    && forall i, j :: 0 <= i < j < |sorted| ==> KeyLeq(sorted[i], sorted[j])
  }

  lemma SortKeySorted(sources: seq<Source>)
    requires DistinctModules(sources)
    ensures KeySorted(sources, Sort(KeyLeq, sources))
  {
    var sorted := Sort(KeyLeq, sources);
    KeyLeqIsPreorder();
    SortIsSorted(KeyLeq, sources);
    SortedFacts(sources);
    PermutedDistinct(sources, sorted);
    forall i, j | 0 <= i < j < |sorted| ensures sorted[i].moduleName != sorted[j].moduleName {
      assert sorted[i] in sources && sorted[j] in sources && sorted[i] != sorted[j];
    }
  }

  /** A module with a smaller key stands earlier. */
  lemma SmallerKeyEarlier(sources: seq<Source>, sorted: seq<Source>, i: nat, d: Source)
    requires KeySorted(sources, sorted) && i < |sorted| && d in sources && KeyLess(d, sorted[i])
    ensures d.moduleName in ModulesOf(sorted[..i])
  {
    var k :| 0 <= k < |sorted| && sorted[k] == d;
    LessTotal(d.moduleName, sorted[i].moduleName);
    assert k < i;
    assert sorted[..i][k] == d;
  }

  lemma EarlierNamesDiffer(sorted: seq<Source>, i: nat)
    requires DistinctModules(sorted) && i < |sorted|
    ensures sorted[i].moduleName !in ModulesOf(sorted[..i])
  { }

  /** Under distinct names and ascending keys, sorting by key already respects dependencies. */
  lemma SortedIsInLine(sources: seq<Source>)
    requires AllPresent(sources) && DistinctModules(sources) && KeysAscend(ByModule(sources))
    ensures InLine(ByModule(sources), Sort(KeyLeq, sources))
  {
    var ms, sorted := ByModule(sources), Sort(KeyLeq, sources);
    SortKeySorted(sources);
    ByModuleFacts(sources);
    KeySortedInLine(sources, ms, sorted);
  }

  ghost function Labels(l: seq<Source>): seq<string>
  {
    seq(|l|, i requires 0 <= i < |l| => l[i].moduleName)
  }

  lemma LabelsFacts(l: seq<Source>)
    ensures Elems(Labels(l)) == ModulesOf(l) && (DistinctModules(l) ==> Distinct(Labels(l)))
  {
    forall n | n in ModulesOf(l) ensures n in Labels(l) {
      var i :| 0 <= i < |l| && l[i].moduleName == n;
      assert Labels(l)[i] == n;
    }
    forall n | n in Labels(l) ensures n in ModulesOf(l) {
      var i :| 0 <= i < |l| && Labels(l)[i] == n;
      assert l[i] in l;
    }
  }

  /** A list in line is itself the search order. */
  lemma {:induction false} InLineSearched(sources: seq<Source>, ms: Modules, sorted: seq<Source>, k: nat)
    requires Queue(sources, sorted) && InLine(ms, sorted) && k <= |sorted|
    ensures SearchOrder(sources, ms, Labels(sorted[..k]))
    decreases k
  {
    if k > 0 {
      InLineSearched(sources, ms, sorted, k - 1);
      OneMoreSearched(sources, ms, sorted, k - 1);
    }
  }

  lemma OneMoreSearched(sources: seq<Source>, ms: Modules, sorted: seq<Source>, k: nat)
    requires Queue(sources, sorted) && k < |sorted| && SearchOrder(sources, ms, Labels(sorted[..k]))
    requires sorted[k].moduleName in ms && ms[sorted[k].moduleName] == sorted[k] && sorted[k].moduleName !in ModulesOf(sorted[..k])
    requires Elems(sorted[k].dependsOn) <= ModulesOf(sorted[..k])
    ensures SearchOrder(sources, ms, Labels(sorted[..k + 1]))
  {
    FirstSource(sources, sorted, ModulesOf(sorted[..k]), k);
    LabelsFacts(sorted[..k]);
    LabelsStep(sorted, k);
    SearchOrderAppend(sources, ms, Labels(sorted[..k]), [], sorted[k].moduleName);
  }

  lemma LabelsStep(l: seq<Source>, k: nat)
    requires k < |l|
    ensures Labels(l[..k + 1]) == Labels(l[..k]) + [l[k].moduleName]
  { }

  lemma SortedIsSearched(sources: seq<Source>, order: seq<string>, result: seq<Source>)
    requires AllPresent(sources) && DistinctModules(sources) && KeysAscend(ByModule(sources))
    requires Placed(ByModule(sources), order, ByModule(sources).Keys, result) && SearchOrder(sources, ByModule(sources), order)
    ensures result == Sort(KeyLeq, sources)
  {
    var ms, sorted := ByModule(sources), Sort(KeyLeq, sources);
    SortedIsInLine(sources);
    SortQueues(sources);
    InLineSearched(sources, ms, sorted, |sorted|);
    assert sorted[..|sorted|] == sorted;
    SortKeySorted(sources);
    SortedFacts(sources);
    LabelsFacts(sorted);
    DistinctCount(order);
    DistinctCount(Labels(sorted));
    SearchOrderUnique(sources, ms, order, Labels(sorted));
    PickedFacts(ms, order);
  }

  lemma KeySortedInLine(sources: seq<Source>, ms: Modules, sorted: seq<Source>)
    requires KeySorted(sources, sorted) && KeysAscend(ms) && DistinctModules(sources)
    requires forall n :: n in ms ==> ms[n].moduleName == n && ms[n] in sources
    requires forall s :: s in sources ==> s.moduleName in ms && Elems(s.dependsOn) <= ms.Keys
    ensures InLine(ms, sorted)
  {
    forall i | 0 <= i < |sorted|
      ensures sorted[i].moduleName in ms && ms[sorted[i].moduleName] == sorted[i]
      ensures sorted[i].moduleName !in ModulesOf(sorted[..i])
      ensures Elems(sorted[i].dependsOn) <= ModulesOf(sorted[..i])
    {
      var s := sorted[i];
      assert s in sources;
      SameModule(sources, ms[s.moduleName], s);
      EarlierNamesDiffer(sorted, i);
      forall d | d in s.dependsOn ensures d in ModulesOf(sorted[..i]) {
        assert d in Elems(s.dependsOn);
        SmallerKeyEarlier(sources, sorted, i, ms[d]);
      }
    }
  }

  lemma SameDistinctElements(a: seq<Source>, b: seq<Source>)
    requires Distinct(a) && Distinct(b) && forall x :: x in a <==> x in b
    ensures multiset(a) == multiset(b)
  {
    forall x ensures multiset(a)[x] == multiset(b)[x] {
      MultiplicityOne(a, x);
      MultiplicityOne(b, x);
      assert multiset(a)[x] > 0 <==> x in a;
      assert multiset(b)[x] > 0 <==> x in b;
    }
  }

  /** With distinct module names the returned list is a permutation of the sources. */
  lemma EachSourceOnce(sources: seq<Source>, order: seq<string>, result: seq<Source>)
    requires DistinctModules(sources) && Placed(ByModule(sources), order, ByModule(sources).Keys, result)
    ensures multiset(result) == multiset(sources)
  {
    var ms := ByModule(sources);
    ByModuleFacts(sources);
    PickedFacts(ms, order);
    forall i, j | 0 <= i < j < |result| ensures result[i] != result[j] {
      assert result[i].moduleName == order[i] && result[j].moduleName == order[j];
    }
    forall x ensures x in result <==> x in sources {
      if x in sources {
        SameModule(sources, ms[x.moduleName], x);
        assert x.moduleName in Elems(order);
        var i :| 0 <= i < |order| && order[i] == x.moduleName;
        assert result[i] == x;
      }
      if x in result {
        var i :| 0 <= i < |result| && result[i] == x;
        assert x == ms[order[i]];
      }
    }
    SameDistinctElements(result, sources);
  }

  lemma SameIndex(a: seq<Source>, b: seq<Source>)
    requires DistinctModules(a) && DistinctModules(b) && forall s :: s in a <==> s in b
    ensures ByModule(a) == ByModule(b)
  {
    ByModuleFacts(a);
    ByModuleFacts(b);
    forall n | n in ByModule(a) ensures n in ByModule(b) && ByModule(b)[n] == ByModule(a)[n] {
      SameModule(b, ByModule(a)[n], ByModule(b)[n]);
    }
    forall n | n in ByModule(b) ensures n in ByModule(a) { assert ByModule(b)[n] in a; }
  }

  lemma {:induction false} SameDescent(a: seq<Source>, b: seq<Source>, ms: Modules, placed: set<string>, p: seq<string>)
    requires Descent(a, ms, placed, p) && forall s :: s in a <==> s in b
    ensures Descent(b, ms, placed, p)
  {
    if |p| == 1 {
      var s :| s in a && s.moduleName == p[0] && Foremost(a, placed, s);
      assert Foremost(b, placed, s);
    } else if |p| > 1 {
      SameDescent(a, b, ms, placed, p[..|p| - 1]);
    }
  }

  lemma {:induction false} SameSearchOrder(a: seq<Source>, b: seq<Source>, ms: Modules, order: seq<string>)
    requires SearchOrder(a, ms, order) && forall s :: s in a <==> s in b
    ensures SearchOrder(b, ms, order)
  {
    if order != [] {
      var placed, x := Elems(order[..|order| - 1]), order[|order| - 1];
      SameSearchOrder(a, b, ms, order[..|order| - 1]);
      var p :| Descent(a, ms, placed, p) && p != [] && p[|p| - 1] == x;
      SameDescent(a, b, ms, placed, p);
    }
  }

  /** The order in which modules register plays no part: what TopoSort returns for one list it returns
      for every list of the same sources. */
  lemma OrderIgnoresRegistration(a: seq<Source>, b: seq<Source>, inA: seq<string>, inB: seq<string>)
    requires DistinctModules(a) && DistinctModules(b) && forall s :: s in a <==> s in b
    requires SearchOrder(a, ByModule(a), inA) && SearchOrder(b, ByModule(b), inB)
    requires Distinct(inA) && Distinct(inB) && Elems(inA) == ByModule(a).Keys && Elems(inB) == ByModule(b).Keys
    ensures inA == inB && Picked(ByModule(a), inA) == Picked(ByModule(b), inB)
  {
    var ms := ByModule(a);
    SameIndex(a, b);
    DistinctCount(inA);
    DistinctCount(inB);
    SameSearchOrder(a, b, ms, inA);
    SearchOrderUnique(b, ms, inA, inB);
  }
}
