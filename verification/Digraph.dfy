/** Paths, cycles and dependency-respecting orders over finite directed graphs of names.
    The four orderings in the framework (awo/compiler/graph.go, awo/compiler/depgraph.go,
    awo/module/registry.go and awo/migration/migration.go) are all proved against these
    definitions. */
module Digraph {
  import opened Names

  /** A node maps to the names it directly depends on. A dependency need not be a node. */
  type Graph = map<string, set<string>>

  predicate Edge(g: Graph, a: string, b: string)
  {
    a in g && b in g[a]
  }

  ghost predicate IsWalk(g: Graph, p: seq<string>)
  {
    forall i :: 0 <= i < |p| - 1 ==> Edge(g, p[i], p[i + 1])
  }

  /** `p` is a walk of at least one edge from `a` to `b`. */
  ghost predicate IsPath(g: Graph, p: seq<string>, a: string, b: string)
  {
    |p| >= 2 && p[0] == a && p[|p| - 1] == b && IsWalk(g, p)
  }

  /** `a` depends on `b`, directly or transitively. */
  ghost predicate Reaches(g: Graph, a: string, b: string)
  {
    exists p :: IsPath(g, p, a, b)
  }

  ghost predicate Acyclic(g: Graph)
  {
    forall n :: !Reaches(g, n, n)
  }

  /** Every dependency is itself a node. */
  ghost predicate Closed(g: Graph)
  {
    forall n :: n in g ==> g[n] <= g.Keys
  }

  /** Each listed node comes once and after everything it depends on. */
  ghost predicate DepsFirst(g: Graph, order: seq<string>)
  {
    && Distinct(order)
    && forall i :: 0 <= i < |order| ==> order[i] in g && g[order[i]] <= Elems(order[..i])
  }

  /** Nothing more can be placed after `order`. */
  ghost predicate Stuck(g: Graph, order: seq<string>)
  {
    forall n :: n in g && n !in order ==> !(g[n] <= Elems(order))
  }

  lemma EdgeReaches(g: Graph, a: string, b: string)
    requires Edge(g, a, b)
    ensures Reaches(g, a, b)
  {
    assert IsPath(g, [a, b], a, b);
  }

  lemma ReachesTrans(g: Graph, a: string, b: string, c: string)
    requires Reaches(g, a, b) && Reaches(g, b, c)
    ensures Reaches(g, a, c)
  {
    var p :| IsPath(g, p, a, b);
    var q :| IsPath(g, q, b, c);
    var r := p + q[1..];
    forall i | 0 <= i < |r| - 1 ensures Edge(g, r[i], r[i + 1]) {
      if i >= |p| - 1 { assert r[i] == q[i - |p| + 1]; assert r[i + 1] == q[i - |p| + 2]; }
    }
    assert IsPath(g, r, a, c);
  }

  /** The first step of a path. */
  lemma ReachesStep(g: Graph, a: string, c: string) returns (b: string)
    requires Reaches(g, a, c)
    ensures Edge(g, a, b) && (b == c || Reaches(g, b, c))
  {
    var p :| IsPath(g, p, a, c);
    b := p[1];
    if |p| > 2 {
      var q := p[1..];
      assert forall i :: 0 <= i < |q| - 1 ==> Edge(g, q[i], q[i + 1]) by {
        forall i | 0 <= i < |q| - 1 ensures Edge(g, q[i], q[i + 1]) { assert Edge(g, p[i + 1], p[i + 2]); }
      }
      assert IsPath(g, q, b, c);
    }
  }

  /** Pigeonhole: a list of distinct members of a set is no longer than the set. */
  lemma DistinctBound(s: seq<string>, nodes: set<string>)
    requires Distinct(s) && Elems(s) <= nodes
    ensures |s| <= |nodes|
  {
    DistinctCount(s);
    SubsetCount(Elems(s), nodes);
  }

  lemma SubsetCount<T>(a: set<T>, b: set<T>)
    requires a <= b
    ensures |a| <= |b|
  {
    assert b == a + (b - a);
  }

  ghost predicate HasSuccessorIn(g: Graph, nodes: set<string>, x: string)
  {
    exists y :: y in nodes && Edge(g, x, y)
  }

  lemma LongWalk(g: Graph, nodes: set<string>, length: nat) returns (p: seq<string>)
    requires nodes != {} && forall x :: x in nodes ==> HasSuccessorIn(g, nodes, x)
    ensures |p| == length + 1 && IsWalk(g, p) && Elems(p) <= nodes
  {
    if length == 0 {
      var start :| start in nodes;
      p := [start];
    } else {
      p := LongWalk(g, nodes, length - 1);
      var last := p[|p| - 1];
      assert last in Elems(p);
      var y :| y in nodes && Edge(g, last, y);
      ElemsAppend(p, y);
      p := p + [y];
    }
  }

  /** If every node of a non-empty finite set has a successor in the set, the set contains a cycle. */
  lemma StuckHasCycle(g: Graph, nodes: set<string>) returns (n: string)
    requires nodes != {} && forall x :: x in nodes ==> HasSuccessorIn(g, nodes, x)
    ensures n in nodes && Reaches(g, n, n)
  {
    var p := LongWalk(g, nodes, |nodes|);
    if Distinct(p) { DistinctBound(p, nodes); }
    var i, j :| 0 <= i < j < |p| && p[i] == p[j];
    n := p[i];
    assert n in Elems(p);
    CutWalk(g, p, i, j);
  }

  lemma CutWalk(g: Graph, p: seq<string>, i: nat, j: nat)
    requires IsWalk(g, p) && i < j < |p|
    ensures Reaches(g, p[i], p[j])
  {
    var q := p[i..j + 1];
    forall k | 0 <= k < |q| - 1 ensures Edge(g, q[k], q[k + 1]) {
      assert Edge(g, p[i + k], p[i + k + 1]);
    }
    assert IsPath(g, q, p[i], p[j]);
  }

  /** Along a path the position in a dependencies-first order strictly decreases. */
  lemma {:induction false} WalkDescends(g: Graph, order: seq<string>, p: seq<string>, i: nat) returns (j: nat)
    requires DepsFirst(g, order) && |p| >= 2 && IsWalk(g, p)
    requires i < |order| && p[0] == order[i]
    ensures j < i && p[|p| - 1] == order[j]
  {
    assert Edge(g, p[0], p[1]);
    assert p[1] in Elems(order[..i]);
    var k :| 0 <= k < i && order[k] == p[1];
    if |p| == 2 {
      j := k;
    } else {
      assert IsWalk(g, p[1..]) by {
        forall m | 0 <= m < |p[1..]| - 1 ensures Edge(g, p[1..][m], p[1..][m + 1]) { assert Edge(g, p[m + 1], p[m + 2]); }
      }
      j := WalkDescends(g, order, p[1..], k);
    }
  }

  /** A dependencies-first order that nothing can extend lists every node
      exactly when all dependencies are nodes and there is no cycle. */
  lemma GreedyOrderComplete(g: Graph, order: seq<string>)
    requires DepsFirst(g, order) && Stuck(g, order)
    ensures |order| == |g.Keys| <==> Elems(order) == g.Keys
    ensures Elems(order) == g.Keys <==> Closed(g) && Acyclic(g)
  {
    DistinctCount(order);
    assert Elems(order) <= g.Keys;
    assert g.Keys == Elems(order) + (g.Keys - Elems(order));
    if Elems(order) == g.Keys {
      CompleteOrderAcyclic(g, order);
    } else if Closed(g) {
      var n := LeftOverHasCycle(g, order);
    }
  }

  lemma LeftOverHasCycle(g: Graph, order: seq<string>) returns (n: string)
    requires DepsFirst(g, order) && Stuck(g, order) && Closed(g) && Elems(order) < g.Keys
    ensures n in g.Keys - Elems(order) && Reaches(g, n, n)
  {
    var rest := g.Keys - Elems(order);
    forall x | x in rest ensures HasSuccessorIn(g, rest, x) {
      var y :| y in g[x] && y !in Elems(order);
      assert y in rest && Edge(g, x, y);
    }
    var w :| w in g.Keys && w !in Elems(order);
    assert w in rest;
    n := StuckHasCycle(g, rest);
  }

  lemma CompleteOrderAcyclic(g: Graph, order: seq<string>)
    requires DepsFirst(g, order) && Elems(order) == g.Keys
    ensures Closed(g) && Acyclic(g)
  {
    forall n | n in g ensures g[n] <= g.Keys {
      assert n in Elems(order);
      var i :| 0 <= i < |order| && order[i] == n;
      assert Elems(order[..i]) <= Elems(order);
    }
    forall n ensures !Reaches(g, n, n) {
      if Reaches(g, n, n) {
        var p :| IsPath(g, p, n, n);
        assert Edge(g, p[0], p[1]);
        assert n in Elems(order);
        var i :| 0 <= i < |order| && order[i] == n;
        var j := WalkDescends(g, order, p, i);
      }
    }
  }

  /** A path never leaves a set that edges do not leave. */
  lemma StaysInside(g: Graph, inside: set<string>, a: string, b: string)
    requires a in inside && Reaches(g, a, b)
    requires forall x, y :: x in inside && Edge(g, x, y) ==> y in inside
    ensures b in inside
  {
    var p :| IsPath(g, p, a, b);
    for i := 0 to |p| - 1
      invariant p[i] in inside
    {
      assert Edge(g, p[i], p[i + 1]);
    }
  }

  /** Removing edges or nodes cannot create a cycle. */
  lemma SubgraphAcyclic(g: Graph, h: Graph)
    requires Acyclic(g)
    requires forall n :: n in h ==> n in g && h[n] <= g[n]
    ensures Acyclic(h)
  {
    forall n ensures !Reaches(h, n, n) {
      if Reaches(h, n, n) {
        var p :| IsPath(h, p, n, n);
        forall i | 0 <= i < |p| - 1 ensures Edge(g, p[i], p[i + 1]) { assert Edge(h, p[i], p[i + 1]); }
        assert Reaches(g, n, n) by { assert IsPath(g, p, n, n); }
      }
    }
  }

  /** The same nodes with every edge turned round. */
  ghost function Flip(g: Graph): Graph
  {
    map n | n in g :: set s | s in g && n in g[s]
  }

  lemma FlipReaches(g: Graph, a: string, b: string)
    requires Closed(g) && Reaches(g, a, b)
    ensures Reaches(Flip(g), b, a)
  {
    var p :| IsPath(g, p, a, b);
    var q := Reversed(p);
    forall i | 0 <= i < |q| - 1 ensures Edge(Flip(g), q[i], q[i + 1]) {
      assert Edge(g, p[|p| - 2 - i], p[|p| - 1 - i]);
    }
    assert IsPath(Flip(g), q, b, a);
  }

  lemma FlipFlip(g: Graph)
    requires Closed(g)
    ensures Closed(Flip(g)) && Flip(Flip(g)) == g
  {
    forall n | n in g ensures Flip(Flip(g))[n] == g[n] { }
  }

  lemma FlipAcyclic(g: Graph)
    requires Closed(g)
    ensures Acyclic(Flip(g)) <==> Acyclic(g)
  {
    FlipFlip(g);
    forall n ensures Reaches(g, n, n) <==> Reaches(Flip(g), n, n) {
      if Reaches(g, n, n) { FlipReaches(g, n, n); }
      if Reaches(Flip(g), n, n) { FlipReaches(Flip(g), n, n); }
    }
  }

  ghost function Reversed<T>(s: seq<T>): (r: seq<T>)
    ensures |r| == |s| && forall i :: 0 <= i < |s| ==> r[i] == s[|s| - 1 - i]
  {
    seq(|s|, i requires 0 <= i < |s| => s[|s| - 1 - i])
  }

  /** A complete dependents-first order, read backwards, is dependencies-first. */
  lemma ReverseOrder(g: Graph, order: seq<string>)
    requires Closed(g) && DepsFirst(Flip(g), order) && Elems(order) == g.Keys
    ensures DepsFirst(g, Reversed(order)) && Elems(Reversed(order)) == g.Keys
  {
    var r := Reversed(order);
    ReversedElems(order);
    forall i | 0 <= i < |r| ensures r[i] in g && g[r[i]] <= Elems(r[..i]) {
      var k := |order| - 1 - i;
      assert order[k] in Elems(order);
      forall t | t in g[r[i]] ensures t in Elems(r[..i]) {
        assert t in Elems(order);
        var m :| 0 <= m < |order| && order[m] == t;
        assert r[i] in Flip(g)[t];
        assert r[i] in Elems(order[..m]);
        var c :| 0 <= c < m && order[c] == r[i];
        assert c == k;
        assert r[|order| - 1 - m] == t;
        assert t in r[..i];
      }
    }
  }

  lemma ReversedElems<T>(s: seq<T>)
    ensures Elems(Reversed(s)) == Elems(s)
  {
    var r := Reversed(s);
    forall x | x in s ensures x in r {
      var i :| 0 <= i < |s| && s[i] == x;
      assert r[|s| - 1 - i] == x;
    }
  }
}
