/** Module manifests and their load order: awo/module/registry.go and awo/module/manifest.go. */
module ModuleVersions {
  datatype Version = Version(major: int, minor: int, patch: int)
  {
    predicate Less(other: Version)
    {
      if major != other.major then major < other.major
      else if minor != other.minor then minor < other.minor
      else patch < other.patch
    }

    /** `other` satisfies the requirement `this`. */
    predicate Compatible(other: Version)
    {
      other.major == major && !other.Less(this)
    }
  }

  /** Versions are compared as triples, so any two different ones are ordered one way. */
  lemma LessIsOrder(a: Version, b: Version, c: Version)
    ensures a.Less(b) <==> || a.major < b.major
                           || (a.major == b.major && a.minor < b.minor)
                           || (a.major == b.major && a.minor == b.minor && a.patch < b.patch)
    ensures !a.Less(a) && (a.Less(b) ==> !b.Less(a)) && (a.Less(b) && b.Less(c) ==> a.Less(c))
    ensures a == b || a.Less(b) || b.Less(a)
  { }

  datatype Dependency = Dependency(moduleName: string, minimum: Version)

  datatype Manifest = Manifest(name: string, version: Version, dependsOn: seq<Dependency>)
}

/** Kahn's algorithm with a first-in first-out queue, batches of newly ready nodes sorted by
    name, and dependency lists that may repeat an entry. */
module FifoKahn {
  import opened Names
  import opened Digraph

  /** Each node with the list of its dependencies, duplicates included. */
  type Multigraph = map<string, seq<string>>

  ghost function GraphOf(r: Multigraph): Graph
  {
    map n | n in r :: Elems(r[n])
  }

  /** How many entries of `s` are not yet placed. */
  ghost function Waiting(s: seq<string>, placed: set<string>): nat
  {
    if s == [] then 0 else (if s[0] in placed then 0 else 1) + Waiting(s[1..], placed)
  }

  lemma {:induction false} WaitingZero(s: seq<string>, placed: set<string>)
    ensures Waiting(s, placed) == 0 <==> Elems(s) <= placed
  {
    if s != [] {
      WaitingZero(s[1..], placed);
      assert Elems(s) == {s[0]} + Elems(s[1..]);
    }
  }

  /** Placing `x` releases as many entries as there are copies of `x`. */
  lemma {:induction false} WaitingPlace(s: seq<string>, placed: set<string>, x: string)
    requires x !in placed
    ensures Waiting(s, placed) == Waiting(s, placed + {x}) + multiset(s)[x]
  {
    if s != [] {
      WaitingPlace(s[1..], placed, x);
      assert s == [s[0]] + s[1..];
    }
  }

  /** After how many placements `n` first had all its dependencies placed. */
  ghost function ReadyAt(g: Graph, order: seq<string>, n: string): nat
    requires n in g
  {
    if order == [] || !(g[n] <= Elems(order[..|order| - 1])) then |order|
    else ReadyAt(g, order[..|order| - 1], n)
  }

  ghost predicate Earlier(g: Graph, order: seq<string>, a: string, b: string)
    requires a in g && b in g
  {
    var i, j := ReadyAt(g, order, a), ReadyAt(g, order, b);
    i < j || (i == j && Less(a, b))
  }

  /** Nodes come in the order in which they became ready, ties broken by name. */
  ghost predicate InReadyOrder(g: Graph, order: seq<string>, listed: seq<string>)
  {
    && (forall i :: 0 <= i < |listed| ==> listed[i] in g && g[listed[i]] <= Elems(order))
    && (forall i, j :: 0 <= i < j < |listed| ==> Earlier(g, order, listed[i], listed[j]))
  }

  ghost predicate FifoOrder(g: Graph, order: seq<string>)
  {
    DepsFirst(g, order) && Stuck(g, order) && InReadyOrder(g, order, order)
  }

  lemma ReadyAtBound(g: Graph, order: seq<string>, n: string)
    requires n in g
    ensures ReadyAt(g, order, n) <= |order|
  { }

  lemma ReadyAtExtend(g: Graph, order: seq<string>, x: string, n: string)
    requires n in g
    ensures g[n] <= Elems(order) ==> ReadyAt(g, order + [x], n) == ReadyAt(g, order, n)
    ensures !(g[n] <= Elems(order)) ==> ReadyAt(g, order + [x], n) == |order| + 1
  {
    assert (order + [x])[..|order|] == order;
  }

  lemma {:induction false} ReadyAtPrefix(g: Graph, order: seq<string>, k: nat, n: string)
    requires n in g && k <= |order| && g[n] <= Elems(order[..k])
    ensures ReadyAt(g, order, n) == ReadyAt(g, order[..k], n)
  {
    if k < |order| {
      var shorter := order[..|order| - 1];
      assert shorter[..k] == order[..k];
      assert Elems(order[..k]) <= Elems(shorter);
      ReadyAtPrefix(g, shorter, k, n);
    } else {
      assert order[..k] == order;
    }
  }

  /** A graph has at most one complete first-in first-out order: the result does not
      depend on the order in which maps are traversed. */
  lemma FifoOrderUnique(g: Graph, s: seq<string>, t: seq<string>)
    requires FifoOrder(g, s) && FifoOrder(g, t)
    requires Elems(s) == g.Keys && Elems(t) == g.Keys
    ensures s == t
  {
    DistinctCount(s);
    DistinctCount(t);
    forall k | 0 <= k < |s| && s[..k] == t[..k] ensures s[k] == t[k] { NextAgrees(g, s, t, k); }
    StepByStep(s, t, |s|);
    assert s[..|s|] == s && t[..|t|] == t;
  }

  lemma {:induction false} StepByStep(s: seq<string>, t: seq<string>, n: nat)
    requires n <= |s| == |t|
    requires forall k :: 0 <= k < |s| && s[..k] == t[..k] ==> s[k] == t[k]
    ensures s[..n] == t[..n]
  {
    if n > 0 {
      StepByStep(s, t, n - 1);
      assert s[..n] == s[..n - 1] + [s[n - 1]] && t[..n] == t[..n - 1] + [t[n - 1]];
    }
  }

  lemma NextAgrees(g: Graph, s: seq<string>, t: seq<string>, k: nat)
    requires FifoOrder(g, s) && FifoOrder(g, t) && Elems(s) == g.Keys && Elems(t) == g.Keys
    requires k < |s| && k < |t| && s[..k] == t[..k]
    ensures s[k] == t[k]
  {
    if s[k] != t[k] {
      LaterOccurrence(g, t, s, k);
      LaterOccurrence(g, s, t, k);
      ReadyAtPrefix(g, s, k, s[k]); ReadyAtPrefix(g, t, k, s[k]);
      ReadyAtPrefix(g, s, k, t[k]); ReadyAtPrefix(g, t, k, t[k]);
      LessTotal(s[k], t[k]);
      assert false;
    }
  }

  lemma LaterOccurrence(g: Graph, s: seq<string>, t: seq<string>, k: nat)
    requires FifoOrder(g, s) && FifoOrder(g, t) && Elems(s) == g.Keys && Elems(t) == g.Keys
    requires k < |s| && k < |t| && s[..k] == t[..k] && s[k] != t[k]
    ensures g[s[k]] <= Elems(s[..k]) && Earlier(g, t, t[k], s[k])
  {
    assert s[k] in Elems(s);
    assert s[k] in Elems(t);
    var j :| 0 <= j < |t| && t[j] == s[k];
    assert j >= k by { assert forall i :: 0 <= i < k ==> t[..k][i] == s[..k][i]; }
  }

  // ---------------------------------------------------------------------------
  // The loops.

  /** `deg[n]` counts the unplaced entries of `n`'s list, plus the decrements still owed to it. */
  ghost predicate Degrees(r: Multigraph, placed: set<string>, owed: multiset<string>, deg: map<string, int>)
  {
    deg.Keys == r.Keys && forall n :: n in r ==> deg[n] == Waiting(r[n], placed) + owed[n]
  }

  /** `adj[d]` lists every node once for each copy of `d` in its list. */
  ghost predicate Adjacent(r: Multigraph, adj: map<string, seq<string>>)
  {
    && (forall d, n :: n in r ==> multiset(Successors(adj, d))[n] == multiset(r[n])[d])
    && (forall d :: Elems(Successors(adj, d)) <= r.Keys)
  }

  function Successors(adj: map<string, seq<string>>, d: string): seq<string>
  {
    if d in adj then adj[d] else []
  }

  /** Every node whose dependencies are all placed has been listed. */
  ghost predicate AllListed(r: Multigraph, placed: set<string>, listed: seq<string>)
  {
    forall n :: n in r && Elems(r[n]) <= placed ==> n in listed
  }

  ghost predicate InQueueOrder(g: Graph, order: seq<string>, listed: seq<string>)
  {
    DepsFirst(g, order) && Distinct(listed) && InReadyOrder(g, order, listed)
  }

  ghost predicate LoopState(r: Multigraph, order: seq<string>, queue: seq<string>, deg: map<string, int>)
  {
    var g := GraphOf(r);
    && InQueueOrder(g, order, order + queue)
    && AllListed(r, Elems(order), order + queue)
    && Degrees(r, Elems(order), multiset{}, deg)
  }

  lemma DecrementOne(r: Multigraph, placed: set<string>, s: string, rest: seq<string>, deg: map<string, int>)
    requires s in r && Degrees(r, placed, multiset([s] + rest), deg)
    ensures s in deg && Degrees(r, placed, multiset(rest), deg[s := deg[s] - 1])
    ensures deg[s] - 1 == 0 <==> s !in rest && Elems(r[s]) <= placed
  {
    WaitingZero(r[s], placed);
    assert multiset([s] + rest) == multiset{s} + multiset(rest);
    assert s in rest <==> multiset(rest)[s] > 0;
  }

  /** Decrements every successor and returns, sorted, those whose degree reaches zero. */
  method Release(successors: seq<string>, deg: map<string, int>, ghost r: Multigraph, ghost placed: set<string>)
    returns (deg': map<string, int>, ready: seq<string>)
    requires Degrees(r, placed, multiset(successors), deg) && (forall n :: n in successors ==> n in r)
    ensures Degrees(r, placed, multiset{}, deg')
    ensures StrictlySorted(ready)
    ensures forall n :: n in ready <==> n in successors && Elems(r[n]) <= placed
  {
    deg', ready := deg, [];
    var rest := successors;
    while rest != []
      invariant forall n :: n in rest ==> n in successors
      invariant Degrees(r, placed, multiset(rest), deg')
      invariant Distinct(ready)
      invariant forall n :: n in ready <==> n in successors && n !in rest && Elems(r[n]) <= placed
    {
      var s := rest[0];
      assert rest == [s] + rest[1..];
      DecrementOne(r, placed, s, rest[1..], deg');
      deg', rest := deg'[s := deg'[s] - 1], rest[1..];
      if deg'[s] == 0 { ready := ready + [s]; }
    }
    ghost var found := ready;
    SortStrict(ready);
    ready := Sort(Leq, ready);
    assert forall n :: n in ready <==> n in Elems(ready);
    assert forall n :: n in found <==> n in Elems(found);
  }

  lemma PopDegrees(r: Multigraph, adj: map<string, seq<string>>, placed: set<string>, x: string, deg: map<string, int>)
    requires Adjacent(r, adj) && Degrees(r, placed, multiset{}, deg) && x !in placed
    ensures Degrees(r, placed + {x}, multiset(Successors(adj, x)), deg)
  {
    forall n | n in r ensures deg[n] == Waiting(r[n], placed + {x}) + multiset(Successors(adj, x))[n] {
      WaitingPlace(r[n], placed, x);
    }
  }

  lemma PopOrder(g: Graph, order: seq<string>, queue: seq<string>)
    requires DepsFirst(g, order) && Distinct(order + queue) && InReadyOrder(g, order, order + queue) && queue != []
    ensures queue[0] in g && queue[0] !in order && DepsFirst(g, order + [queue[0]])
  {
    var x, l := queue[0], order + queue;
    assert l[|order|] == x;
    assert forall i :: 0 <= i < |order| ==> l[i] == order[i];
    var o := order + [x];
    forall i | 0 <= i < |o| ensures o[i] in g && g[o[i]] <= Elems(o[..i]) {
      assert o[..i] == if i < |order| then order[..i] else order;
    }
  }

  /** A batch of nodes made ready by placing `x` goes to the end. */
  lemma AppendBatch(g: Graph, order: seq<string>, x: string, listed: seq<string>, ready: seq<string>)
    requires InReadyOrder(g, order, listed) && Distinct(listed) && StrictlySorted(ready)
    requires forall n :: n in ready ==> n in g && g[n] <= Elems(order + [x]) && !(g[n] <= Elems(order))
    ensures InReadyOrder(g, order + [x], listed + ready) && Distinct(listed + ready)
  {
    var order', l := order + [x], listed + ready;
    ElemsAppend(order, x);
    forall i | 0 <= i < |l| ensures l[i] in g && g[l[i]] <= Elems(order') {
      assert i >= |listed| ==> l[i] in ready;
    }
    forall i, j | 0 <= i < j < |l| ensures Earlier(g, order', l[i], l[j]) && l[i] != l[j] {
      ReadyAtExtend(g, order, x, l[i]); ReadyAtExtend(g, order, x, l[j]);
      ReadyAtBound(g, order, l[i]);
      LessTotal(l[i], l[j]);
      assert i >= |listed| ==> l[i] in ready;
      assert j >= |listed| ==> l[j] in ready;
    }
  }

  /** `ready` is what placing `x` released. */
  ghost predicate Released(r: Multigraph, placed: set<string>, x: string, ready: seq<string>)
  {
    forall n :: n in ready <==> n in r && x in r[n] && Elems(r[n]) <= placed + {x}
  }

  lemma SuccessorsRelease(r: Multigraph, adj: map<string, seq<string>>, placed: set<string>, x: string, ready: seq<string>)
    requires Adjacent(r, adj)
    requires forall n :: n in ready <==> n in Successors(adj, x) && n in r && Elems(r[n]) <= placed + {x}
    ensures Released(r, placed, x, ready)
  {
    forall n | n in r ensures n in Successors(adj, x) <==> x in r[n] {
      assert multiset(Successors(adj, x))[n] == multiset(r[n])[x];
    }
  }

  lemma ListBatch(r: Multigraph, placed: set<string>, x: string, listed: seq<string>, ready: seq<string>)
    requires AllListed(r, placed, listed) && Released(r, placed, x, ready)
    ensures AllListed(r, placed + {x}, listed + ready)
  {
    forall n | n in r && Elems(r[n]) <= placed + {x} ensures n in listed + ready {
      assert x !in r[n] ==> Elems(r[n]) <= placed;
    }
  }

  /** One round of the outer loop. */
  lemma Advance(r: Multigraph, order: seq<string>, queue: seq<string>, deg: map<string, int>,
                ready: seq<string>, deg': map<string, int>)
    requires LoopState(r, order, queue, deg) && queue != []
    requires Degrees(r, Elems(order) + {queue[0]}, multiset{}, deg')
    requires StrictlySorted(ready) && Released(r, Elems(order), queue[0], ready)
    ensures LoopState(r, order + [queue[0]], queue[1..] + ready, deg')
  {
    ElemsAppend(order, queue[0]);
    AdvanceOrder(GraphOf(r), order, queue, ready);
    ListBatch(r, Elems(order), queue[0], order + queue, ready);
    Regroup(order, queue, ready);
  }

  lemma AdvanceOrder(g: Graph, order: seq<string>, queue: seq<string>, ready: seq<string>)
    requires InQueueOrder(g, order, order + queue) && queue != [] && StrictlySorted(ready)
    requires forall n :: n in ready ==> n in g && queue[0] in g[n] && g[n] <= Elems(order) + {queue[0]}
    ensures InQueueOrder(g, order + [queue[0]], order + queue + ready)
  {
    PopOrder(g, order, queue);
    ElemsAppend(order, queue[0]);
    AppendBatch(g, order, queue[0], order + queue, ready);
  }

  lemma Regroup(order: seq<string>, queue: seq<string>, ready: seq<string>)
    requires queue != []
    ensures order + [queue[0]] + (queue[1..] + ready) == order + queue + ready
  { }

  /** Takes the head of the queue, decrements its successors and queues the released batch. */
  method Step(adj: map<string, seq<string>>, queue: seq<string>, deg: map<string, int>, ghost r: Multigraph, ghost order: seq<string>)
    returns (queue': seq<string>, deg': map<string, int>)
    requires Adjacent(r, adj) && LoopState(r, order, queue, deg) && queue != []
    ensures queue[0] in r && queue[0] !in order
    ensures LoopState(r, order + [queue[0]], queue', deg')
  {
    var name := queue[0];
    PopOrder(GraphOf(r), order, queue);
    PopDegrees(r, adj, Elems(order), name, deg);
    assert forall n :: n in Successors(adj, name) ==> n in Elems(Successors(adj, name));
    var ready;
    deg', ready := Release(Successors(adj, name), deg, r, Elems(order) + {name});
    SuccessorsRelease(r, adj, Elems(order), name, ready);
    Advance(r, order, queue, deg, ready, deg');
    queue' := queue[1..] + ready;
  }

  lemma Finished(r: Multigraph, order: seq<string>, deg: map<string, int>)
    requires LoopState(r, order, [], deg)
    ensures FifoOrder(GraphOf(r), order)
  {
    assert order + [] == order;
  }

  lemma Start(r: Multigraph, deg: map<string, int>, zeros: seq<string>)
    requires deg.Keys == r.Keys && forall n :: n in r ==> deg[n] == |r[n]|
    requires StrictlySorted(zeros) && Elems(zeros) == set n | n in deg && deg[n] == 0
    ensures LoopState(r, [], zeros, deg)
  {
    var g := GraphOf(r);
    assert [] + zeros == zeros;
    assert Elems<string>([]) == {};
    forall n | n in r ensures Waiting(r[n], {}) == |r[n]| && (n in zeros <==> Elems(r[n]) <= {}) {
      WaitingAll(r[n]);
      NoElems(r[n]);
      assert n in zeros <==> n in Elems(zeros);
    }
    assert forall n :: n in zeros ==> n in Elems(zeros);
    RootsInOrder(g, zeros);
  }

  lemma RootsInOrder(g: Graph, zeros: seq<string>)
    requires StrictlySorted(zeros) && forall n :: n in zeros ==> n in g && g[n] <= {}
    ensures Distinct(zeros) && InReadyOrder(g, [], zeros)
  {
    StrictIsDistinct(zeros);
    forall i | 0 <= i < |zeros| ensures zeros[i] in g && g[zeros[i]] <= {} { assert zeros[i] in zeros; }
  }

  lemma {:induction false} WaitingAll(s: seq<string>)
    ensures Waiting(s, {}) == |s|
  {
    if s != [] { WaitingAll(s[1..]); }
  }
}

/** The registry itself. */
module ModuleRegistry {
  import opened Options
  import opened Names
  import opened Digraph
  import opened ModuleVersions
  import opened FifoKahn

  type Manifests = map<string, Manifest>

  datatype RegisterError = EmptyName | AlreadyRegistered | IntroducesCycle

  datatype ResolveError =
    | Missing(moduleName: string, dependency: string)
    | Incompatible(moduleName: string, dependency: string)
    | DependencyCycle

  datatype Resolution = Resolved(order: seq<Manifest>) | Failed(error: ResolveError)

  /** The names of a manifest's dependencies that are registered, in declaration order. */
  function KnownDeps(ms: set<string>, deps: seq<Dependency>): seq<string>
  {
    if deps == [] then []
    else (if deps[0].moduleName in ms then [deps[0].moduleName] else []) + KnownDeps(ms, deps[1..])
  }

  ghost function Lists(ms: Manifests): Multigraph
  {
    map n | n in ms :: KnownDeps(ms.Keys, ms[n].dependsOn)
  }

  /** The dependency graph among registered modules. */
  ghost function Deps(ms: Manifests): Graph
  {
    map n | n in ms :: set d | d in ms[n].dependsOn && d.moduleName in ms :: d.moduleName
  }

  lemma {:induction false} KnownDepsElems(ms: set<string>, deps: seq<Dependency>)
    ensures Elems(KnownDeps(ms, deps)) == set d | d in deps && d.moduleName in ms :: d.moduleName
  {
    if deps != [] {
      KnownDepsElems(ms, deps[1..]);
      var rest := KnownDeps(ms, deps[1..]);
      assert forall d :: d in deps <==> d == deps[0] || d in deps[1..];
      assert Elems([deps[0].moduleName] + rest) == {deps[0].moduleName} + Elems(rest);
      assert Elems([] + rest) == Elems(rest) by { assert [] + rest == rest; }
    }
  }

  lemma ListsMeanDeps(ms: Manifests)
    ensures GraphOf(Lists(ms)) == Deps(ms) && Closed(Deps(ms))
  {
    forall n | n in ms ensures Elems(Lists(ms)[n]) == Deps(ms)[n] { KnownDepsElems(ms.Keys, ms[n].dependsOn); }
  }

  lemma UpdateTwice<V>(m: map<string, V>, k: string, a: V, b: V)
    ensures m[k := a][k := b] == m[k := b]
  { }

  lemma KnownDepsStep(ms: set<string>, deps: seq<Dependency>, i: nat)
    requires i < |deps|
    ensures KnownDeps(ms, deps[..i + 1]) ==
            if deps[i].moduleName in ms then KnownDeps(ms, deps[..i]) + [deps[i].moduleName] else KnownDeps(ms, deps[..i])
  {
    assert deps[..i + 1] == deps[..i] + [deps[i]];
    KnownDepsAppend(ms, deps[..i], deps[i]);
  }

  lemma KnownDepsAppend(ms: set<string>, deps: seq<Dependency>, d: Dependency)
    ensures KnownDeps(ms, deps + [d]) == if d.moduleName in ms then KnownDeps(ms, deps) + [d.moduleName] else KnownDeps(ms, deps)
  {
    if deps != [] {
      assert (deps + [d])[1..] == deps[1..] + [d];
    }
  }

  lemma AdjacentNew(r: Multigraph, adj: map<string, seq<string>>, name: string)
    requires Adjacent(r, adj) && name !in r
    ensures Adjacent(r[name := []], adj)
  {
    forall d ensures multiset(Successors(adj, d))[name] == 0 {
      assert name !in Elems(Successors(adj, d));
    }
  }

  /** One dependency entry: the dependency's list gains the module, the module's list the dependency. */
  lemma AdjacentAppend(r: Multigraph, adj: map<string, seq<string>>, name: string, dep: string)
    requires Adjacent(r, adj) && name in r
    ensures Adjacent(r[name := r[name] + [dep]], adj[dep := Successors(adj, dep) + [name]])
  {
    var r', adj' := r[name := r[name] + [dep]], adj[dep := Successors(adj, dep) + [name]];
    forall d, n | n in r' ensures multiset(Successors(adj', d))[n] == multiset(r'[n])[d] {
      AdjacentEntry(r, adj, name, dep, d, n);
    }
    ElemsAppend(Successors(adj, dep), name);
    forall d ensures Elems(Successors(adj', d)) <= r.Keys {
      assert Elems(Successors(adj, d)) <= r.Keys;
    }
    assert r'.Keys == r.Keys;
  }

  lemma AdjacentGrow(r: Multigraph, adj: map<string, seq<string>>, name: string, known: seq<string>, dep: string)
    requires Adjacent(r[name := known], adj)
    ensures Adjacent(r[name := known + [dep]], adj[dep := Successors(adj, dep) + [name]])
  {
    AdjacentAppend(r[name := known], adj, name, dep);
    UpdateTwice(r, name, known, known + [dep]);
  }

  lemma AdjacentEntry(r: Multigraph, adj: map<string, seq<string>>, name: string, dep: string, d: string, n: string)
    requires name in r && n in r && multiset(Successors(adj, d))[n] == multiset(r[n])[d]
    ensures multiset(Successors(adj[dep := Successors(adj, dep) + [name]], d))[n] == multiset(r[name := r[name] + [dep]][n])[d]
  {
    assert multiset(r[name] + [dep]) == multiset(r[name]) + multiset{dep};
    assert multiset(Successors(adj, dep) + [name]) == multiset(Successors(adj, dep)) + multiset{name};
  }

  /** Every declared dependency is registered at a compatible version. */
  ghost predicate Satisfied(ms: Manifests)
  {
    forall n, d :: n in ms && d in ms[n].dependsOn ==> SatisfiedDep(ms, d)
  }

  /** The dependency is registered with the required major version and is not older than required. */
  ghost predicate SatisfiedDep(ms: Manifests, d: Dependency)
  {
    && d.moduleName in ms && ms[d.moduleName].version.major == d.minimum.major
    && (|| ms[d.moduleName].version.minor > d.minimum.minor
        || (ms[d.moduleName].version.minor == d.minimum.minor && ms[d.moduleName].version.patch >= d.minimum.patch))
  }

  /** What Register does to the registered set. */
  ghost function AfterRegister(ms: Manifests, m: Manifest): Manifests
  {
    if m.name == "" || m.name in ms || !Acyclic(Deps(ms[m.name := m])) then ms else ms[m.name := m]
  }

  ghost predicate Consistent(ms: Manifests)
  {
    Acyclic(Deps(ms)) && forall n :: n in ms ==> ms[n].name == n
  }

  class Registry {
    var manifests: Manifests

    ghost predicate Valid()
      reads this
    {
      Consistent(manifests)
    }

    constructor ()
      ensures Valid() && manifests == map[]
    {
      manifests := map[];
      NothingIsAcyclic();
    }

    /** In-degrees and successor lists over registered modules (registry.go:97-113 and 146-159);
        the order inside a list follows map iteration and is left open. */
    method Adjacency() returns (inDegree: map<string, int>, adj: map<string, seq<string>>)
      ensures Adjacent(Lists(manifests), adj)
      ensures inDegree.Keys == manifests.Keys && forall n :: n in manifests ==> inDegree[n] == |Lists(manifests)[n]|
    {
      inDegree, adj := map[], map[];
      ghost var r: Multigraph := map[];
      ghost var all := Lists(manifests);
      var rest := manifests.Keys;
      while rest != {}
        invariant rest <= manifests.Keys && r.Keys == inDegree.Keys == manifests.Keys - rest
        invariant Adjacent(r, adj)
        invariant forall n :: n in r ==> r[n] == all[n] && inDegree[n] == |all[n]|
      {
        var name :| name in rest;
        AdjacentNew(r, adj, name);
        inDegree, adj, r := AddDeps(name, manifests[name].dependsOn, inDegree[name := 0], adj, r[name := []]);
        rest := rest - {name};
      }
      assert r == all;
    }

    /** The inner loop over one manifest's DependsOn entries. */
    method AddDeps(name: string, deps: seq<Dependency>, inDegree: map<string, int>, adj: map<string, seq<string>>, ghost r: Multigraph)
      returns (inDegree': map<string, int>, adj': map<string, seq<string>>, ghost r': Multigraph)
      requires Adjacent(r, adj) && name in r && name in inDegree && r[name] == [] && inDegree[name] == 0
      ensures Adjacent(r', adj') && r' == r[name := KnownDeps(manifests.Keys, deps)]
      ensures inDegree' == inDegree[name := |KnownDeps(manifests.Keys, deps)|]
    {
      inDegree', adj' := inDegree, adj;
      ghost var known: seq<string> := [];
      assert r[name := known] == r;
      for i := 0 to |deps|
        invariant known == KnownDeps(manifests.Keys, deps[..i])
        invariant Adjacent(r[name := known], adj') && inDegree' == inDegree[name := |known|]
      {
        var dep := deps[i].moduleName;
        KnownDepsStep(manifests.Keys, deps, i);
        if dep in manifests {
          AdjacentGrow(r, adj', name, known, dep);
          UpdateTwice(inDegree, name, |known|, |known| + 1);
          adj' := adj'[dep := Successors(adj', dep) + [name]];
          inDegree' := inDegree'[name := inDegree'[name] + 1];
          known := known + [dep];
        }
      }
      assert deps[..|deps|] == deps;
      r' := r[name := known];
    }

    /** Reports a cycle exactly when the registered modules have one. */
    method DetectCycle() returns (cyclic: bool)
      ensures cyclic <==> !Acyclic(Deps(manifests))
    {
      var inDegree, adj := Adjacency();
      var processed, order := Kahn(inDegree, adj, Lists(manifests));
      ListsMeanDeps(manifests);
      assert Deps(manifests).Keys == manifests.Keys;
      GreedyOrderComplete(Deps(manifests), order);
      DistinctBound(order, manifests.Keys);
      cyclic := processed < |manifests|;
    }

    /** A rejected manifest leaves the registry as it was. */
    method Register(m: Manifest) returns (err: Option<RegisterError>)
      requires Valid()
      modifies this
      ensures Valid() && manifests == AfterRegister(old(manifests), m)
      ensures err.None? <==> m.name != "" && m.name !in old(manifests) && Acyclic(Deps(old(manifests)[m.name := m]))
      ensures err.Some? ==> manifests == old(manifests)
    {
      if m.name == "" { return Some(EmptyName); }
      if m.name in manifests { return Some(AlreadyRegistered); }
      manifests := manifests[m.name := m];
      var cyclic := DetectCycle();
      if cyclic {
        manifests := map n | n in manifests && n != m.name :: manifests[n];
        assert manifests == old(manifests);
        return Some(IntroducesCycle);
      }
      err := None;
    }

    /** The validation loops of topoSort (registry.go:126-142). */
    method Validate() returns (err: Option<ResolveError>)
      requires Valid()
      ensures err.None? <==> Satisfied(manifests)
      ensures err.Some? ==> Genuine(manifests, err.value)
    {
      var rest := manifests.Keys;
      while rest != {}
        invariant rest <= manifests.Keys
        invariant forall n, d :: n in manifests.Keys - rest && d in manifests[n].dependsOn ==> SatisfiedDep(manifests, d)
      {
        var n :| n in rest;
        var m := manifests[n];
        rest := rest - {n};
        for i := 0 to |m.dependsOn|
          invariant forall k :: 0 <= k < i ==> SatisfiedDep(manifests, m.dependsOn[k])
        {
          var dep := m.dependsOn[i];
          assert n in manifests && dep in m.dependsOn;
          if dep.moduleName !in manifests { return Some(Missing(m.name, dep.moduleName)); }
          if !dep.minimum.Compatible(manifests[dep.moduleName].version) {
            return Some(Incompatible(m.name, dep.moduleName));
          }
        }
      }
      err := None;
    }

    /** The loop of topoSort (registry.go:163-188). */
    method Place(degrees: map<string, int>, adj: map<string, seq<string>>, ghost r: Multigraph)
      returns (result: seq<Manifest>, ghost order: seq<string>)
      requires Adjacent(r, adj) && r.Keys == manifests.Keys
      requires degrees.Keys == r.Keys && forall n :: n in r ==> degrees[n] == |r[n]|
      ensures result == Picked(manifests, order)
      ensures FifoOrder(GraphOf(r), order)
    {
      var inDegree := degrees;
      var queue := SortedKeys(set n | n in inDegree && inDegree[n] == 0);
      Start(r, inDegree, queue);
      result, order := [], [];
      while queue != []
        invariant LoopState(r, order, queue, inDegree)
        invariant result == Picked(manifests, order)
        decreases r.Keys - Elems(order)
      {
        var name := queue[0];
        ElemsAppend(order, name);
        queue, inDegree := Step(adj, queue, inDegree, r, order);
        PickOne(manifests, order, name);
        result, order := result + [manifests[name]], order + [name];
      }
      Finished(r, order, inDegree);
    }

    /** Fails only for a missing or incompatible dependency: the cycle branch is never taken.
        Otherwise every manifest comes once, after all it depends on, in an order that the
        registered manifests alone determine. */
    method Resolve() returns (r: Resolution)
      requires Valid()
      ensures r.Resolved? <==> Satisfied(manifests)
      ensures r.Failed? ==> Genuine(manifests, r.error)
      ensures r.Resolved? ==>
                && |r.order| == |manifests|
                && (forall i :: 0 <= i < |r.order| ==> r.order[i].name in manifests && r.order[i] == manifests[r.order[i].name])
                && FifoOrder(Deps(manifests), NamesIn(r.order)) && Elems(NamesIn(r.order)) == manifests.Keys
    {
      var err := Validate();
      if err.Some? { return Failed(err.value); }
      var inDegree, adj := Adjacency();
      var result, order := Place(inDegree, adj, Lists(manifests));
      PickedFacts(manifests, order);
      assert NamesIn(result) == order;
      ListsMeanDeps(manifests);
      assert Deps(manifests).Keys == manifests.Keys;
      GreedyOrderComplete(Deps(manifests), NamesIn(result));
      if |result| != |manifests| { return Failed(DependencyCycle); }
      r := Resolved(result);
    }
  }

  ghost function NamesIn(ms: seq<Manifest>): seq<string>
  {
    seq(|ms|, i requires 0 <= i < |ms| => ms[i].name)
  }

  /** The reported module declares the reported dependency, and it is indeed unsatisfied. */
  ghost predicate Genuine(ms: Manifests, e: ResolveError)
  {
    match e
    case Missing(n, dep) => n in ms && dep !in ms && exists d :: d in ms[n].dependsOn && d.moduleName == dep
    case Incompatible(n, dep) => n in ms && dep in ms && exists d :: d in ms[n].dependsOn && d.moduleName == dep && !SatisfiedDep(ms, d)
    case DependencyCycle => false
  }

  /** The counting-only run of Kahn's algorithm (registry.go:210-240). */
  method Kahn(inDegree: map<string, int>, adj: map<string, seq<string>>, ghost r: Multigraph)
    returns (processed: nat, ghost order: seq<string>)
    requires Adjacent(r, adj)
    requires inDegree.Keys == r.Keys && forall n :: n in r ==> inDegree[n] == |r[n]|
    ensures processed == |order| && FifoOrder(GraphOf(r), order)
  {
    var deg := inDegree;
    var queue := SortedKeys(set n | n in deg && deg[n] == 0);
    Start(r, deg, queue);
    processed, order := 0, [];
    while queue != []
      invariant processed == |order| && LoopState(r, order, queue, deg)
      decreases r.Keys - Elems(order)
    {
      ElemsAppend(order, queue[0]);
      ghost var name := queue[0];
      queue, deg := Step(adj, queue, deg, r, order);
      processed, order := processed + 1, order + [name];
    }
    Finished(r, order, deg);
  }

  lemma NothingIsAcyclic()
    ensures Acyclic(Deps(map[]))
  {
    CompleteOrderAcyclic(Deps(map[]), []);
  }

  // ---------------------------------------------------------------------------
  // Whole runs.

  ghost function AfterAll(ms: Manifests, calls: seq<Manifest>): Manifests
  {
    if calls == [] then ms else AfterRegister(AfterAll(ms, calls[..|calls| - 1]), calls[|calls| - 1])
  }

  /** Whatever is registered in whatever order, the registry never holds a cycle. */
  lemma {:induction false} RunsStayConsistent(calls: seq<Manifest>)
    ensures Consistent(AfterAll(map[], calls))
  {
    if calls == [] { NothingIsAcyclic(); } else { RunsStayConsistent(calls[..|calls| - 1]); }
  }

  /** All the manifests of a list, keyed by name. */
  ghost function Collected(calls: seq<Manifest>): Manifests
  {
    if calls == [] then map[]
    else var m := calls[|calls| - 1]; Collected(calls[..|calls| - 1])[m.name := m]
  }

  ghost predicate DistinctNames(calls: seq<Manifest>)
  {
    && (forall i :: 0 <= i < |calls| ==> calls[i].name != "")
    && (forall i, j :: 0 <= i < j < |calls| ==> calls[i].name != calls[j].name)
  }

  lemma {:induction false} CollectedNames(calls: seq<Manifest>)
    ensures forall n :: n in Collected(calls) <==> exists i :: 0 <= i < |calls| && calls[i].name == n
  {
    if calls != [] { CollectedNames(calls[..|calls| - 1]); }
  }

  /** A new module only adds edges among the old ones' graph. */
  lemma DepsGrow(ms: Manifests, m: Manifest)
    requires m.name !in ms
    ensures forall n :: n in Deps(ms) ==> n in Deps(ms[m.name := m]) && Deps(ms)[n] <= Deps(ms[m.name := m])[n]
  { }

  /** Modules with distinct names are all accepted exactly when together they have no cycle,
      so the order of registration cannot matter. */
  lemma {:induction false} AllAcceptedIffAcyclic(calls: seq<Manifest>)
    requires DistinctNames(calls)
    ensures AfterAll(map[], calls) == Collected(calls) <==> Acyclic(Deps(Collected(calls)))
  {
    RunsStayConsistent(calls);
    if calls != [] && Acyclic(Deps(Collected(calls))) {
      var init, m := calls[..|calls| - 1], calls[|calls| - 1];
      CollectedNames(init);
      DepsGrow(Collected(init), m);
      SubgraphAcyclic(Deps(Collected(calls)), Deps(Collected(init)));
      AllAcceptedIffAcyclic(init);
    }
  }
}
