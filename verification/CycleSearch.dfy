/** How the compiler looks for cycles: what Kahn's pass leaves unvisited, the depth-first search
    through it, and which cycles that search lists (awo/compiler/graph.go:164-255). */
module CycleSearch {
  import opened Options
  import opened Names
  import opened Digraph
  import opened Kahn

  // ---------------------------------------------------------------------------
  // Cycles, and where the search goes.

  /** A reported cycle: it closes on its first node, follows edges, and visits at
      least two nodes, none of them twice. */
  ghost predicate SimpleCycle(g: Graph, c: seq<string>)
  {
    |c| >= 3 && c[0] == c[|c| - 1] && IsWalk(g, c) && Distinct(c[..|c| - 1])
  }

  ghost predicate NoLoops(g: Graph)
  {
    forall n :: n in g ==> n !in g[n]
  }

  /** From `n` a walk can run into a cycle. */
  ghost predicate CycleAhead(g: Graph, n: string)
  {
    exists m :: (m == n || Reaches(g, n, m)) && Reaches(g, m, m)
  }

  /** The node lies on a cycle or can be reached from one. */
  ghost predicate CycleBehind(g: Graph, n: string)
  {
    exists m :: (m == n || Reaches(g, m, n)) && Reaches(g, m, m)
  }

  lemma CycleAheadStep(g: Graph, n: string) returns (t: string)
    requires CycleAhead(g, n)
    ensures Edge(g, n, t) && CycleAhead(g, t)
  {
    var m :| (m == n || Reaches(g, n, m)) && Reaches(g, m, m);
    t := ReachesStep(g, n, m);
  }

  lemma AheadBack(g: Graph, n: string, t: string)
    requires CycleAhead(g, t) && Edge(g, n, t)
    ensures CycleAhead(g, n)
  {
    var m :| (m == t || Reaches(g, t, m)) && Reaches(g, m, m);
    EdgeReaches(g, n, t);
    if m != t { ReachesTrans(g, n, t, m); }
  }

  lemma AheadIsNode(g: Graph, n: string)
    requires CycleAhead(g, n)
    ensures n in g
  {
    var t := CycleAheadStep(g, n);
  }

  lemma CycleNodeReaches(g: Graph, c: seq<string>, k: nat)
    requires |c| >= 2 && c[0] == c[|c| - 1] && IsWalk(g, c) && k < |c|
    ensures Reaches(g, c[k], c[k])
  {
    var last := |c| - 1;
    if k == 0 || k == last {
      CutWalk(g, c, 0, last);
    } else {
      CutWalk(g, c, 0, k);
      CutWalk(g, c, k, last);
      ReachesTrans(g, c[k], c[0], c[k]);
    }
  }

  lemma ReachesAround(g: Graph, c: seq<string>, i: nat, j: nat)
    requires |c| >= 2 && c[0] == c[|c| - 1] && IsWalk(g, c) && i < |c| && j < |c|
    ensures Reaches(g, c[i], c[j])
  {
    if i < j {
      CutWalk(g, c, i, j);
    } else {
      CycleNodeReaches(g, c, i);
      var last := |c| - 1;
      if i < last { CutWalk(g, c, i, last); }
      if 0 < j { CutWalk(g, c, 0, j); }
      if i < last && 0 < j { ReachesTrans(g, c[i], c[0], c[j]); }
    }
  }

  /** `y` is a target of `x`, and no cycle lies ahead of the targets before it. */
  ghost predicate LeftEdge(g: Graph, x: string, y: string)
  {
    Edge(g, x, y) && forall t :: t in g[x] && Less(t, y) ==> !CycleAhead(g, t)
  }

  /** Each node with the first of its targets ahead of which a cycle lies: where the search goes. */
  ghost function Leftmost(g: Graph): Graph
  {
    map n | n in g :: set t | t in g[n] && CycleAhead(g, t) && LeftEdge(g, n, t)
  }

  ghost predicate LeftWalk(g: Graph, p: seq<string>)
  {
    forall i :: 0 <= i < |p| - 1 ==> LeftEdge(g, p[i], p[i + 1])
  }

  /** A genuine cycle that follows the search's own choices. */
  ghost predicate LeftCycle(g: Graph, c: seq<string>)
  {
    SimpleCycle(g, c) && IsWalk(Leftmost(g), c)
  }

  /** The search has one choice at most. */
  lemma LeftUnique(g: Graph, x: string, y: string, z: string)
    requires Edge(Leftmost(g), x, y) && Edge(Leftmost(g), x, z)
    ensures y == z
  {
    LessTotal(y, z);
  }

  lemma LeftIsEdge(g: Graph, a: string, b: string)
    requires Reaches(Leftmost(g), a, b)
    ensures Reaches(g, a, b)
  {
    var p :| IsPath(Leftmost(g), p, a, b);
    forall i | 0 <= i < |p| - 1 ensures Edge(g, p[i], p[i + 1]) { assert Edge(Leftmost(g), p[i], p[i + 1]); }
    assert IsPath(g, p, a, b);
  }

  lemma LeftIsNext(g: Graph, x: string, y: string)
    requires LeftEdge(g, x, y) && CycleAhead(g, y)
    ensures Next(g, x) == Some(y)
  {
    assert Edge(Leftmost(g), x, y);
    LeftUnique(g, x, y, Next(g, x).value);
  }

  /** The part of a path from a repeated node on is a cycle of left edges. */
  lemma PathCycle(g: Graph, path: seq<string>, i: nat, n: string)
    requires NoLoops(g) && LeftWalk(g, path) && Distinct(path)
    requires i < |path| && path[i] == n && LeftEdge(g, path[|path| - 1], n)
    ensures LeftCycle(g, path[i..] + [n])
  {
    var cycle := path[i..] + [n];
    assert |cycle| >= 3;
    forall k | 0 <= k < |cycle| - 1 ensures LeftEdge(g, cycle[k], cycle[k + 1]) {
      if k < |cycle| - 2 { assert LeftEdge(g, path[i + k], path[i + k + 1]); }
    }
    assert cycle[..|cycle| - 1] == path[i..];
    forall k | 0 <= k < |cycle| - 1 ensures Edge(Leftmost(g), cycle[k], cycle[k + 1]) {
      CycleNodeReaches(g, cycle, k + 1);
    }
  }

  lemma NextNode(g: Graph, c: seq<string>, x: string) returns (y: string)
    requires LeftCycle(g, c) && x in c
    ensures Edge(Leftmost(g), x, y) && y in c && Steps(c, x, y)
  {
    var k :| 0 <= k < |c| && c[k] == x;
    var j := if k == |c| - 1 then 0 else k;
    y := c[j + 1];
    assert Edge(Leftmost(g), c[j], c[j + 1]);
  }

  /** Where the search goes from a node, if a cycle lies ahead of it. */
  ghost function Next(g: Graph, x: string): (y: Option<string>)
    ensures y.Some? ==> Edge(Leftmost(g), x, y.value)
    ensures y.None? ==> forall z :: !Edge(Leftmost(g), x, z)
  {
    if x in g && Leftmost(g)[x] != {} then
      var y :| y in Leftmost(g)[x];
      Some(y)
    else None
  }

  /** The path of the search from the end of `path` on, up to where it would repeat a node. */
  ghost function Follow(g: Graph, path: seq<string>): (p: seq<string>)
    requires path != []
    ensures path <= p
    decreases g.Keys - Elems(path)
  {
    var y := Next(g, path[|path| - 1]);
    if y.None? || y.value in path then path
    else
      AheadIsNode(g, y.value);
      ElemsAppend(path, y.value);
      Follow(g, path + [y.value])
  }

  /** The part of a path from the first `n` on. */
  function From(p: seq<string>, n: string): seq<string>
  {
    if p == [] || p[0] == n then p else From(p[1..], n)
  }

  lemma {:induction false} FromAt(p: seq<string>, n: string, i: nat)
    requires i < |p| && p[i] == n && n !in p[..i]
    ensures From(p, n) == p[i..]
  {
    if i > 0 {
      assert p[0] == p[..i][0];
      assert p[1..][..i - 1] == p[..i][1..];
      FromAt(p[1..], n, i - 1);
    }
  }

  /** The cycle a finished path closes. */
  ghost function LoopOf(g: Graph, p: seq<string>): seq<string>
    requires p != []
  {
    var y := Next(g, p[|p| - 1]);
    if y.None? then [] else From(p, y.value) + [y.value]
  }

  // ---------------------------------------------------------------------------
  // What a search does.

  /** What the searches from some starting nodes list and mark. */
  datatype Found = Found(cycles: seq<seq<string>>, traced: set<string>)

  ghost function SearchOne(g: Graph, f: Found, start: string): Found
  {
    if start in f.traced then f
    else if !CycleAhead(g, start) then Found(f.cycles, f.traced + {start})
    else Found(f.cycles + [LoopOf(g, Follow(g, [start]))], f.traced + Elems(Follow(g, [start])))
  }

  ghost function SearchAll(g: Graph, starts: seq<string>): Found
  {
    if starts == [] then Found([], {})
    else SearchOne(g, SearchAll(g, starts[..|starts| - 1]), starts[|starts| - 1])
  }

  /** The starting nodes, in some order: those that Kahn's pass leaves unvisited. */
  ghost predicate Starts(g: Graph, starts: seq<string>)
  {
    Distinct(starts) && forall n :: n in starts <==> n in g && CycleBehind(g, n)
  }

  /** Some listed cycle starts at `n` or where the search arrives from `n`. */
  ghost predicate Covered(g: Graph, cycles: seq<seq<string>>, n: string)
  {
    exists c :: c in cycles && |c| > 0 && (c[0] == n || Reaches(Leftmost(g), n, c[0]))
  }

  /** What the search has finished with is covered unless no cycle lies ahead of it. */
  ghost predicate TracedOk(g: Graph, cycles: seq<seq<string>>, traced: set<string>)
  {
    forall n :: n in traced && CycleAhead(g, n) ==> Covered(g, cycles, n)
  }

  lemma StaysCovered(g: Graph, cycles: seq<seq<string>>, more: seq<seq<string>>, n: string)
    requires cycles <= more && Covered(g, cycles, n)
    ensures Covered(g, more, n)
  {
    var c :| c in cycles && |c| > 0 && (c[0] == n || Reaches(Leftmost(g), n, c[0]));
    assert c in more;
  }

  /** What DetectCycles promises about its list: genuine cycles along the search's choices, and one
      ahead of every node that has a cycle behind and ahead of it. */
  ghost predicate Reported(g: Graph, cycles: seq<seq<string>>)
  {
    && (forall c :: c in cycles ==> LeftCycle(g, c))
    && forall n :: n in g && CycleBehind(g, n) && CycleAhead(g, n) ==> Covered(g, cycles, n)
  }

  /** The unvisited nodes are closed under edges. */
  ghost predicate NodesOk(g: Graph, nodes: set<string>)
  {
    Closed(g) && NoLoops(g) && nodes <= g.Keys && forall n :: n in nodes ==> g[n] <= nodes
  }

  ghost predicate CyclesOk(g: Graph, cycles: seq<seq<string>>)
  {
    forall c :: c in cycles ==> LeftCycle(g, c)
  }

  /** The path follows left edges through unvisited nodes, none twice. */
  ghost predicate PathOk(g: Graph, nodes: set<string>, path: seq<string>, pathSet: set<string>)
  {
    LeftWalk(g, path) && Distinct(path) && pathSet == Elems(path) <= nodes
  }

  lemma PushPath(g: Graph, nodes: set<string>, path: seq<string>, pathSet: set<string>, n: string)
    requires PathOk(g, nodes, path, pathSet) && n in nodes && n !in pathSet && (path != [] ==> LeftEdge(g, path[|path| - 1], n))
    ensures PathOk(g, nodes, path + [n], pathSet + {n})
  {
    ElemsAppend(path, n);
    assert forall i :: 0 <= i < |path| ==> path[i] in Elems(path);
  }

  lemma PopPath(path: seq<string>, pathSet: set<string>, n: string)
    requires n !in pathSet
    ensures (path + [n])[..|path + [n]| - 1] == path && pathSet + {n} - {n} == pathSet
  { }

  /** Where the path repeats a node it closes a cycle. */
  lemma LoopCloses(g: Graph, path: seq<string>, i: nat, n: string)
    requires NoLoops(g) && LeftWalk(g, path) && Distinct(path)
    requires i < |path| && path[i] == n && n !in path[..i] && LeftEdge(g, path[|path| - 1], n)
    ensures LeftCycle(g, path[i..] + [n]) && CycleAhead(g, n)
    ensures Next(g, path[|path| - 1]) == Some(n) && LoopOf(g, path) == path[i..] + [n]
  {
    PathCycle(g, path, i, n);
    CycleNodeReaches(g, path[i..] + [n], 0);
    FromAt(path, n, i);
    LeftIsNext(g, path[|path| - 1], n);
  }

  lemma OneMoreCycle(g: Graph, path: seq<string>, cycles: seq<seq<string>>, i: nat, n: string, cycle: seq<string>)
    requires NoLoops(g) && LeftWalk(g, path) && Distinct(path) && CyclesOk(g, cycles)
    requires i < |path| && path[i] == n && n !in path[..i] && LeftEdge(g, path[|path| - 1], n) && cycle == path[i..] + [n]
    ensures CyclesOk(g, cycles + [cycle]) && CycleAhead(g, n)
    ensures Next(g, path[|path| - 1]) == Some(n) && cycle == LoopOf(g, path)
  {
    LoopCloses(g, path, i, n);
    assert forall d :: d in cycles + [cycle] <==> d in cycles || d == cycle;
  }

  lemma NoneAhead(g: Graph, n: string, targets: seq<string>)
    requires n in g && Elems(targets) == g[n] && forall k :: 0 <= k < |targets| ==> !CycleAhead(g, targets[k])
    ensures !CycleAhead(g, n)
  {
    assert forall t :: t in g[n] ==> t in Elems(targets);
    if CycleAhead(g, n) { var t := CycleAheadStep(g, n); }
  }

  /** Trying targets in name order follows left edges. */
  lemma FirstTargets(g: Graph, n: string, targets: seq<string>, i: nat)
    requires n in g && StrictlySorted(targets) && Elems(targets) == g[n] && i < |targets|
    requires forall k :: 0 <= k < i ==> !CycleAhead(g, targets[k])
    ensures LeftEdge(g, n, targets[i])
  {
    assert targets[i] in Elems(targets);
    forall t | t in g[n] && Less(t, targets[i]) ensures !CycleAhead(g, t) {
      assert t in Elems(targets);
      var k :| 0 <= k < |targets| && targets[k] == t;
      LessTotal(targets[i], t);
      assert k < i;
    }
  }

  /** The path with a node that is not on it yet. */
  function Extended(path: seq<string>, n: string): seq<string>
  {
    if n in path then path else path + [n]
  }

  lemma FollowOne(g: Graph, path: seq<string>, t: string)
    requires path != [] && Next(g, path[|path| - 1]) == Some(t)
    ensures Follow(g, path) == Follow(g, Extended(path, t))
  { }

  lemma Unwound(before: seq<string>, n: string, path: seq<string>)
    requires n !in before && before + [n] <= path
    ensures Elems(path) - Elems(before) == Elems(path) - Elems(before + [n]) + {n}
  {
    ElemsAppend(before, n);
    assert n == path[|before|];
  }

  /** The outcome of a search from `n` that found a cycle. */
  ghost predicate Hit(g: Graph, before: seq<string>, n: string, path: seq<string>,
                      cycles: seq<seq<string>>, cycles': seq<seq<string>>, traced: set<string>, traced': set<string>)
  {
    && path == Follow(g, Extended(before, n)) && cycles' == cycles + [LoopOf(g, path)]
    && traced' == traced + (Elems(path) - Elems(before)) && CycleAhead(g, n)
  }

  lemma ClosedHit(g: Graph, path: seq<string>, n: string, cycles: seq<seq<string>>, cycles': seq<seq<string>>, traced: set<string>)
    requires path != [] && n in path && Next(g, path[|path| - 1]) == Some(n) && cycles' == cycles + [LoopOf(g, path)]
    requires CycleAhead(g, n)
    ensures Hit(g, path, n, path, cycles, cycles', traced, traced)
  { }

  lemma UnwindHit(g: Graph, before: seq<string>, n: string, t: string, path: seq<string>,
                  cycles: seq<seq<string>>, cycles': seq<seq<string>>, traced: set<string>, traced': set<string>)
    requires Hit(g, before + [n], t, path, cycles, cycles', traced, traced') && n !in before && LeftEdge(g, n, t)
    ensures Hit(g, before, n, path, cycles, cycles', traced, traced' + {n})
  {
    AheadBack(g, n, t);
    LeftIsNext(g, n, t);
    FollowOne(g, before + [n], t);
    Unwound(before, n, path);
  }

  lemma StartHit(g: Graph, start: string, path: seq<string>,
                 cycles: seq<seq<string>>, cycles': seq<seq<string>>, traced: set<string>, traced': set<string>)
    requires Hit(g, [], start, path, cycles, cycles', traced, traced')
    ensures path == Follow(g, [start]) && start in path && traced' == traced + Elems(path) && cycles <= cycles'
    ensures NoLoops(g) ==> Covered(g, cycles', start) && forall x :: x in traced' - traced ==> Covered(g, cycles', x)
  {
    assert [] + [start] == [start];
    assert path[0] == start;
    if NoLoops(g) {
      forall x | x in path ensures Covered(g, cycles', x) { SearchCovers(g, start, cycles, x); }
    }
  }

  /** From every node of its path the search arrives at the cycle it lists. */
  lemma SearchCovers(g: Graph, n: string, cycles: seq<seq<string>>, x: string)
    requires NoLoops(g) && CycleAhead(g, n) && x in Follow(g, [n])
    ensures Covered(g, cycles + [LoopOf(g, Follow(g, [n]))], x)
  {
    LoopIsLeft(g, n);
    var p := Follow(g, [n]);
    var i := LoopStart(g, p);
    var k :| 0 <= k < |p| && p[k] == x;
    ReachesLoop(Leftmost(g), p, i, k);
    ListedCovers(g, cycles, LoopOf(g, p), x);
  }

  lemma ListedCovers(g: Graph, cycles: seq<seq<string>>, c: seq<string>, x: string)
    requires |c| > 0 && (c[0] == x || Reaches(Leftmost(g), x, c[0]))
    ensures Covered(g, cycles + [c], x)
  {
    assert (cycles + [c])[|cycles|] == c;
  }

  /** From every node of a path that closes a loop the start of the loop can be reached. */
  lemma ReachesLoop(g: Graph, p: seq<string>, i: nat, k: nat)
    requires i < |p| && k < |p| && IsWalk(g, p) && IsWalk(g, p[i..] + [p[i]])
    ensures p[k] == p[i] || Reaches(g, p[k], p[i])
  {
    var loop := p[i..] + [p[i]];
    if k < i {
      CutWalk(g, p, k, i);
    } else if k > i {
      assert loop[k - i] == p[k];
      CutWalk(g, loop, k - i, |loop| - 1);
    }
  }

  lemma LoopStart(g: Graph, p: seq<string>) returns (i: nat)
    requires p != [] && Next(g, p[|p| - 1]).Some? && Next(g, p[|p| - 1]).value in p
    ensures i < |p| && LoopOf(g, p) == p[i..] + [p[i]]
  {
    var y := Next(g, p[|p| - 1]).value;
    i := FirstPlace(p, y);
    FromAt(p, y, i);
  }

  lemma OneMoreStart(g: Graph, starts: seq<string>, n: string)
    requires Distinct(starts) && n !in Elems(starts)
    ensures Distinct(starts + [n]) && Elems(starts + [n]) == Elems(starts) + {n}
    ensures SearchAll(g, starts + [n]) == SearchOne(g, SearchAll(g, starts), n)
  {
    ElemsAppend(starts, n);
    assert (starts + [n])[..|starts|] == starts;
    assert forall i :: 0 <= i < |starts| ==> starts[i] in Elems(starts);
  }

  lemma StillTraced(g: Graph, cycles: seq<seq<string>>, more: seq<seq<string>>, traced: set<string>, traced': set<string>, start: string)
    requires TracedOk(g, cycles, traced) && cycles <= more
    requires forall x :: x in traced' - traced ==> Covered(g, more, x)
    requires CycleAhead(g, start) ==> Covered(g, more, start)
    ensures TracedOk(g, more, traced' + {start})
  {
    forall n | n in traced && CycleAhead(g, n) ensures Covered(g, more, n) { StaysCovered(g, cycles, more, n); }
  }

  lemma ListedIffCyclic(g: Graph, nodes: set<string>, cycles: seq<seq<string>>)
    requires (forall c :: c in cycles ==> LeftCycle(g, c)) && TracedOk(g, cycles, nodes)
    requires !Acyclic(g) ==> exists n :: n in nodes && CycleAhead(g, n)
    ensures cycles == [] <==> Acyclic(g)
  {
    if cycles != [] {
      assert cycles[0] in cycles;
      CycleNodeReaches(g, cycles[0], 0);
    }
    if !Acyclic(g) {
      var n :| n in nodes && CycleAhead(g, n);
      assert Covered(g, cycles, n);
    }
  }

  // ---------------------------------------------------------------------------
  // Which cycles the list holds.

  ghost predicate SameComponent(g: Graph, n: string, m: string)
  {
    Reaches(g, n, m) && Reaches(g, m, n)
  }

  /** A cyclic component from which no other cyclic component can be reached has a cycle of its own
      in the list. */
  lemma SinkComponentReported(g: Graph, cycles: seq<seq<string>>, n: string)
    requires Reported(g, cycles) && n in g && Reaches(g, n, n)
    requires forall m :: Reaches(g, n, m) && Reaches(g, m, m) ==> Reaches(g, m, n)
    ensures exists c :: c in cycles && forall k :: 0 <= k < |c| ==> SameComponent(g, n, c[k])
  {
    assert CycleBehind(g, n) && CycleAhead(g, n);
    var c :| c in cycles && |c| > 0 && (c[0] == n || Reaches(Leftmost(g), n, c[0]));
    if c[0] != n { LeftIsEdge(g, n, c[0]); }
    forall k | 0 <= k < |c| ensures SameComponent(g, n, c[k]) {
      CycleNodeReaches(g, c, k);
      if k > 0 {
        CutWalk(g, c, 0, k);
        ReachesTrans(g, n, c[0], c[k]);
      }
    }
  }

  /** `c` goes from `x` to `y`. */
  ghost predicate Steps(c: seq<string>, x: string, y: string)
  {
    exists k :: 0 <= k < |c| - 1 && c[k] == x && c[k + 1] == y
  }

  /** The same cycle, wherever it starts. */
  ghost predicate SameCycle(c: seq<string>, d: seq<string>)
  {
    forall x, y :: Steps(c, x, y) <==> Steps(d, x, y)
  }

  /** Nodes of a cycle have a next node, and it is the search's choice. */
  lemma NextOnCycle(g: Graph, c: seq<string>, x: string, y: string)
    requires LeftCycle(g, c) && x in c
    ensures Edge(Leftmost(g), x, y) <==> Steps(c, x, y)
    ensures Steps(c, x, y) ==> y in c
  {
    var next := NextNode(g, c, x);
    if Edge(Leftmost(g), x, y) { LeftUnique(g, x, y, next); }
    if k :| 0 <= k < |c| - 1 && c[k] == x && c[k + 1] == y { assert Edge(Leftmost(g), c[k], c[k + 1]); }
  }

  /** The search never leaves a cycle of its own choices. */
  lemma StaysOnCycle(g: Graph, c: seq<string>, n: string, m: string)
    requires LeftCycle(g, c) && n in c && Reaches(Leftmost(g), n, m)
    ensures m in c
  {
    forall x, y | x in Elems(c) && Edge(Leftmost(g), x, y) ensures y in Elems(c) { NextOnCycle(g, c, x, y); }
    StaysInside(Leftmost(g), Elems(c), n, m);
  }

  /** Cycles of the search's choices that meet are the same cycle. */
  lemma MeetingCycles(g: Graph, c: seq<string>, d: seq<string>, n: string)
    requires LeftCycle(g, c) && LeftCycle(g, d) && n in c && n in d
    ensures forall x :: x in c ==> x in d
  {
    forall x | x in c ensures x in d {
      var i :| 0 <= i < |c| && c[i] == n;
      var j :| 0 <= j < |c| && c[j] == x;
      ReachesAround(Leftmost(g), c, i, j);
      StaysOnCycle(g, d, n, x);
    }
  }

  /** Exactly the cycles that follow the search's choices are in the list, up to where they start. */
  lemma ReportedIff(g: Graph, cycles: seq<seq<string>>, d: seq<string>)
    requires Reported(g, cycles) && SimpleCycle(g, d)
    ensures (exists c :: c in cycles && SameCycle(c, d)) <==> LeftCycle(g, d)
  {
    if LeftCycle(g, d) {
      var n := d[0];
      CycleNodeReaches(g, d, 0);
      assert Edge(g, d[0], d[1]);
      assert CycleBehind(g, n) && CycleAhead(g, n);
      var c :| c in cycles && |c| > 0 && (c[0] == n || Reaches(Leftmost(g), n, c[0]));
      if c[0] != n { StaysOnCycle(g, d, n, c[0]); }
      MeetingCycles(g, c, d, c[0]);
      MeetingCycles(g, d, c, c[0]);
      SameNodesSameCycle(g, c, d);
    }
    if c :| c in cycles && SameCycle(c, d) {
      forall k | 0 <= k < |d| - 1 ensures Edge(Leftmost(g), d[k], d[k + 1]) {
        assert Steps(d, d[k], d[k + 1]);
        assert Steps(c, d[k], d[k + 1]);
        var j :| 0 <= j < |c| - 1 && c[j] == d[k] && c[j + 1] == d[k + 1];
        assert Edge(Leftmost(g), c[j], c[j + 1]);
      }
    }
  }

  lemma SameNodesSameCycle(g: Graph, c: seq<string>, d: seq<string>)
    requires LeftCycle(g, c) && LeftCycle(g, d) && forall x :: x in c <==> x in d
    ensures SameCycle(c, d)
  {
    forall x, y ensures Steps(c, x, y) <==> Steps(d, x, y) {
      if x in c {
        NextOnCycle(g, c, x, y);
        NextOnCycle(g, d, x, y);
      }
    }
  }

  // ---------------------------------------------------------------------------
  // How often a cycle is listed.

  ghost predicate NoneTwice(cycles: seq<seq<string>>)
  {
    forall i, j :: 0 <= i < j < |cycles| ==> !SameCycle(cycles[i], cycles[j])
  }

  ghost predicate OnLeftCycle(g: Graph, n: string)
  {
    exists c :: LeftCycle(g, c) && n in c
  }

  /** Every node with a cycle behind and ahead of it lies on one of the search's own cycles. */
  ghost predicate AllOnLeftCycles(g: Graph)
  {
    forall n :: n in g && CycleBehind(g, n) && CycleAhead(g, n) ==> OnLeftCycle(g, n)
  }

  /** A path the search can take. */
  ghost predicate Searching(g: Graph, p: seq<string>)
  {
    p != [] && Distinct(p) && IsWalk(Leftmost(g), p) && CycleAhead(g, p[|p| - 1])
  }

  lemma HasNext(g: Graph, x: string)
    requires CycleAhead(g, x)
    ensures Next(g, x).Some?
  {
    var t := CycleAheadStep(g, x);
    var ahead := set y | y in g[x] && CycleAhead(g, y);
    assert t in ahead;
    var y := Least(ahead);
    assert LeftEdge(g, x, y) by {
      forall u | u in g[x] && Less(u, y) ensures !CycleAhead(g, u) {
        if CycleAhead(g, u) {
          assert u in ahead;
          LessTotal(u, y);
        }
      }
    }
    assert Edge(Leftmost(g), x, y);
  }

  lemma {:induction false} FollowSearches(g: Graph, path: seq<string>)
    requires Searching(g, path)
    ensures var p := Follow(g, path); Searching(g, p) && Next(g, p[|p| - 1]).Some? && Next(g, p[|p| - 1]).value in p
    decreases g.Keys - Elems(path)
  {
    HasNext(g, path[|path| - 1]);
    var y := Next(g, path[|path| - 1]).value;
    if y in path {
      FollowStops(g, path, y);
    } else {
      AheadIsNode(g, y);
      ElemsAppend(path, y);
      OneStepOn(g, path, y);
      FollowOne(g, path, y);
      FollowSearches(g, path + [y]);
    }
  }

  lemma FollowStops(g: Graph, path: seq<string>, y: string)
    requires path != [] && Next(g, path[|path| - 1]) == Some(y) && y in path
    ensures Follow(g, path) == path
  { }

  lemma OneStepOn(g: Graph, path: seq<string>, y: string)
    requires Searching(g, path) && Edge(Leftmost(g), path[|path| - 1], y) && y !in path
    ensures Searching(g, path + [y])
  {
    var p := path + [y];
    forall i | 0 <= i < |p| - 1 ensures Edge(Leftmost(g), p[i], p[i + 1]) {
      if i < |path| - 1 { assert Edge(Leftmost(g), path[i], path[i + 1]); }
    }
  }

  lemma StartSearches(g: Graph, n: string)
    requires CycleAhead(g, n)
    ensures Searching(g, [n])
  { }

  /** What a search from `n` lists is a left cycle on its path. */
  lemma LoopIsLeft(g: Graph, n: string)
    requires NoLoops(g) && CycleAhead(g, n)
    ensures var p := Follow(g, [n]);
            && Searching(g, p) && Next(g, p[|p| - 1]).Some? && Next(g, p[|p| - 1]).value in p
            && LeftCycle(g, LoopOf(g, p)) && Elems(LoopOf(g, p)) <= Elems(p)
  {
    StartSearches(g, n);
    FollowSearches(g, [n]);
    var p := Follow(g, [n]);
    var y := Next(g, p[|p| - 1]).value;
    var i := FirstPlace(p, y);
    FromAt(p, y, i);
    forall k | 0 <= k < |p| - 1 ensures LeftEdge(g, p[k], p[k + 1]) { assert Edge(Leftmost(g), p[k], p[k + 1]); }
    PathCycle(g, p, i, y);
  }

  lemma FirstPlace(p: seq<string>, n: string) returns (i: nat)
    requires n in p
    ensures i < |p| && p[i] == n && n !in p[..i]
  {
    i := 0;
    while p[i] != n
      invariant i < |p| && n in p[i..] && n !in p[..i]
      decreases |p| - i
    {
      assert p[..i + 1] == p[..i] + [p[i]];
      i := i + 1;
    }
  }

  /** A search that starts on one of its own cycles lists exactly that cycle and marks its nodes. */
  lemma OwnCycle(g: Graph, c: seq<string>, n: string)
    requires NoLoops(g) && LeftCycle(g, c) && n in c && CycleAhead(g, n)
    ensures var p := Follow(g, [n]);
            Elems(p) == Elems(c) && LeftCycle(g, LoopOf(g, p)) && SameCycle(LoopOf(g, p), c) && n in LoopOf(g, p)
  {
    LoopIsLeft(g, n);
    var p := Follow(g, [n]);
    var loop := LoopOf(g, p);
    PathOnCycle(g, c, p);
    assert loop[0] in Elems(loop);
    MeetingCycles(g, loop, c, loop[0]);
    MeetingCycles(g, c, loop, loop[0]);
    SameNodesSameCycle(g, loop, c);
    forall x | x in c ensures x in Elems(p) { assert x in Elems(loop); }
  }

  lemma PathOnCycle(g: Graph, c: seq<string>, p: seq<string>)
    requires LeftCycle(g, c) && p != [] && IsWalk(Leftmost(g), p) && p[0] in c
    ensures Elems(p) <= Elems(c)
  {
    forall x | x in p ensures x in c {
      var k :| 0 <= k < |p| && p[k] == x;
      if k > 0 {
        CutWalk(Leftmost(g), p, 0, k);
        StaysOnCycle(g, c, p[0], x);
      }
    }
  }

  /** What the searches list lies in what they mark. */
  ghost predicate ListedIsTraced(f: Found)
  {
    forall i :: 0 <= i < |f.cycles| ==> Elems(f.cycles[i]) <= f.traced
  }

  lemma {:induction false} NoneListedTwice(g: Graph, starts: seq<string>)
    requires NoLoops(g) && AllOnLeftCycles(g) && forall n :: n in starts ==> n in g && CycleBehind(g, n)
    ensures NoneTwice(SearchAll(g, starts).cycles) && ListedIsTraced(SearchAll(g, starts))
  {
    if starts != [] {
      var init, n := starts[..|starts| - 1], starts[|starts| - 1];
      NoneListedTwice(g, init);
      if n !in SearchAll(g, init).traced && CycleAhead(g, n) { FreshCycle(g, SearchAll(g, init), n); }
    }
  }

  lemma FreshCycle(g: Graph, f: Found, n: string)
    requires NoLoops(g) && NoneTwice(f.cycles) && ListedIsTraced(f) && n !in f.traced && CycleAhead(g, n) && OnLeftCycle(g, n)
    ensures NoneTwice(SearchOne(g, f, n).cycles) && ListedIsTraced(SearchOne(g, f, n))
  {
    var c :| LeftCycle(g, c) && n in c;
    OwnCycle(g, c, n);
    LoopIsLeft(g, n);
    var p := Follow(g, [n]);
    var loop := LoopOf(g, p);
    var y := NextNode(g, loop, n);
    AppendFresh(f, loop, Elems(p), n, y);
  }

  lemma AppendFresh(f: Found, loop: seq<string>, marked: set<string>, n: string, y: string)
    requires NoneTwice(f.cycles) && ListedIsTraced(f) && n !in f.traced && Steps(loop, n, y) && Elems(loop) <= marked
    ensures NoneTwice(f.cycles + [loop]) && ListedIsTraced(Found(f.cycles + [loop], f.traced + marked))
  {
    forall i | 0 <= i < |f.cycles| ensures !SameCycle(f.cycles[i], loop) {
      assert Steps(f.cycles[i], n, y) ==> n in Elems(f.cycles[i]);
    }
  }

  /** A search that starts off its own cycle repeats a cycle that another start has listed. */
  lemma RepeatedStart(g: Graph, n: string) returns (starts: seq<string>)
    requires Closed(g) && NoLoops(g) && n in g && CycleBehind(g, n) && CycleAhead(g, n) && !OnLeftCycle(g, n)
    ensures Starts(g, starts) && !NoneTwice(SearchAll(g, starts).cycles)
  {
    var m := SecondStart(g, n);
    starts := [m, n] + Others(g, m, n);
    TwoStarts(g, m, n);
    TwoSearches(g, m, n);
    SearchGrows(g, [m, n], Others(g, m, n));
    var cycles := SearchAll(g, starts).cycles;
    assert cycles[0] == SearchAll(g, [m, n]).cycles[0] && cycles[1] == SearchAll(g, [m, n]).cycles[1];
  }

  /** A node of the cycle that the search from `n` lists. */
  lemma SecondStart(g: Graph, n: string) returns (m: string)
    requires NoLoops(g) && CycleAhead(g, n) && !OnLeftCycle(g, n)
    ensures m in g && m != n && CycleBehind(g, m) && CycleAhead(g, m) && n !in Follow(g, [m])
    ensures SameCycle(LoopOf(g, Follow(g, [m])), LoopOf(g, Follow(g, [n])))
  {
    LoopIsLeft(g, n);
    var c := LoopOf(g, Follow(g, [n]));
    m := c[0];
    assert m in c;
    CycleNodeReaches(g, c, 0);
    assert Edge(g, c[0], c[1]);
    OwnCycle(g, c, m);
    assert n in Follow(g, [m]) ==> n in Elems(c);
  }

  /** The other starting nodes. */
  ghost function Others(g: Graph, m: string, n: string): seq<string>
  {
    SortedSet(set x | x in g && CycleBehind(g, x) && x != m && x != n)
  }

  lemma TwoStarts(g: Graph, m: string, n: string)
    requires m in g && n in g && m != n && CycleBehind(g, m) && CycleBehind(g, n)
    ensures Starts(g, [m, n] + Others(g, m, n))
  {
    var rest := Others(g, m, n);
    var starts := [m, n] + rest;
    StrictIsDistinct(rest);
    assert forall x :: x in rest <==> x in Elems(rest);
    assert forall x :: x in starts <==> x == m || x == n || x in rest;
    TwoInFront(m, n, rest);
  }

  lemma TwoInFront(m: string, n: string, rest: seq<string>)
    requires m != n && m !in rest && n !in rest && Distinct(rest)
    ensures Distinct([m, n] + rest)
  {
    var starts := [m, n] + rest;
    forall i, j | 0 <= i < j < |starts| ensures starts[i] != starts[j] {
      assert j >= 2 ==> starts[j] == rest[j - 2] && starts[j] in rest;
      assert i >= 2 ==> starts[i] == rest[i - 2];
    }
  }

  lemma TwoSearches(g: Graph, m: string, n: string)
    requires CycleAhead(g, m) && CycleAhead(g, n) && n !in Follow(g, [m])
    ensures SearchAll(g, [m, n]).cycles == [LoopOf(g, Follow(g, [m])), LoopOf(g, Follow(g, [n]))]
  {
    assert [m, n][..1] == [m] && [m][..0] == [];
    assert SearchAll(g, [m]) == Found([LoopOf(g, Follow(g, [m]))], Elems(Follow(g, [m])));
  }

  lemma {:induction false} SearchGrows(g: Graph, a: seq<string>, b: seq<string>)
    ensures SearchAll(g, a).cycles <= SearchAll(g, a + b).cycles
  {
    if b == [] {
      assert a + b == a;
    } else {
      assert (a + b)[..|a + b| - 1] == a + b[..|b| - 1];
      SearchGrows(g, a, b[..|b| - 1]);
    }
  }

  /** For every graph: no starting order lists a cycle twice exactly when every node between cycles
      lies on one of the search's own. */
  lemma NeverTwiceIff(g: Graph)
    requires Closed(g) && NoLoops(g)
    ensures (forall starts :: Starts(g, starts) ==> NoneTwice(SearchAll(g, starts).cycles)) <==> AllOnLeftCycles(g)
  {
    if AllOnLeftCycles(g) {
      forall starts | Starts(g, starts) ensures NoneTwice(SearchAll(g, starts).cycles) { NoneListedTwice(g, starts); }
    } else {
      var n :| n in g && CycleBehind(g, n) && CycleAhead(g, n) && !OnLeftCycle(g, n);
      var starts := RepeatedStart(g, n);
    }
  }

  /** Two cycles, the first referring into the second. */
  function TwoCycles(): Graph
  {
    map["a" := {"A", "b"}, "b" := {"a"}, "A" := {"B"}, "B" := {"A"}]
  }

  /** Here the cycle through "a" and "b" is never in the list, whatever the starting order, although
      it is a component of its own. */
  lemma FirstOfTwoCyclesMissed(cycles: seq<seq<string>>)
    requires Reported(TwoCycles(), cycles)
    ensures SimpleCycle(TwoCycles(), ["a", "b", "a"]) && !SameComponent(TwoCycles(), "a", "A")
    ensures forall c :: c in cycles ==> "a" !in c && "b" !in c
  {
    var g := TwoCycles();
    var cycle := ["a", "b", "a"];
    assert SimpleCycle(g, cycle) by { assert cycle[..2] == ["a", "b"]; }
    NoWayBack();
    forall c | c in cycles ensures "a" !in c && "b" !in c { SearchLeavesFirst(c); }
  }

  /** On the same graph some starting order lists the second cycle twice. */
  lemma SecondOfTwoCyclesTwice() returns (starts: seq<string>)
    ensures Starts(TwoCycles(), starts) && !NoneTwice(SearchAll(TwoCycles(), starts).cycles)
  {
    var g := TwoCycles();
    var cycle := ["a", "b", "a"];
    assert IsWalk(g, cycle);
    CycleNodeReaches(g, cycle, 0);
    assert CycleBehind(g, "a") && CycleAhead(g, "a");
    if OnLeftCycle(g, "a") {
      var c :| LeftCycle(g, c) && "a" in c;
      SearchLeavesFirst(c);
    }
    starts := RepeatedStart(g, "a");
  }

  lemma NoWayBack()
    ensures !Reaches(TwoCycles(), "A", "a")
  {
    if Reaches(TwoCycles(), "A", "a") { StaysInside(TwoCycles(), {"A", "B"}, "A", "a"); }
  }

  lemma SearchLeavesFirst(c: seq<string>)
    requires LeftCycle(TwoCycles(), c)
    ensures "a" !in c && "b" !in c
  {
    var g := TwoCycles();
    EdgeReaches(g, "A", "B");
    EdgeReaches(g, "B", "A");
    ReachesTrans(g, "A", "B", "A");
    NoWayBack();
    if "b" in c {
      var y := NextNode(g, c, "b");
    }
    if "a" in c {
      var y := NextNode(g, c, "a");
      assert y != "b" by { assert Less("A", "b") && CycleAhead(g, "A"); }
      var i :| 0 <= i < |c| && c[i] == y;
      var j :| 0 <= j < |c| && c[j] == "a";
      ReachesAround(g, c, i, j);
    }
  }

  // ---------------------------------------------------------------------------
  // What Kahn's pass leaves unvisited.

  lemma KahnDecides(edges: Graph, order: seq<string>)
    requires Closed(edges) && LeastOrder(Flip(edges), order)
    ensures DepsFirst(Flip(edges), order)
    ensures |order| == |edges.Keys| <==> Acyclic(edges)
    ensures Elems(order) == edges.Keys <==> Acyclic(edges)
  {
    var g := Flip(edges);
    assert g.Keys == edges.Keys;
    FlipFlip(edges);
    FlipAcyclic(edges);
    LeastOrderIsGreedy(g, order);
    GreedyOrderComplete(g, order);
  }

  /** What a greedy order cannot place is exactly what depends on a cycle or lies on one. */
  lemma LeftOverIff(g: Graph, order: seq<string>, n: string)
    requires DepsFirst(g, order) && Stuck(g, order) && Closed(g) && n in g
    ensures n !in order <==> CycleAhead(g, n)
  {
    if n in order {
      if CycleAhead(g, n) { PlacedHasNoCycle(g, order, n); }
    } else {
      var ahead := set x | x in g.Keys && x !in order && (x == n || Reaches(g, n, x));
      assert n in ahead;
      forall x | x in ahead ensures HasSuccessorIn(g, ahead, x) {
        var y :| y in g[x] && y !in Elems(order);
        EdgeReaches(g, x, y);
        if x != n { ReachesTrans(g, n, x, y); }
        assert y in ahead && Edge(g, x, y);
      }
      var m := StuckHasCycle(g, ahead);
    }
  }

  lemma PlacedHasNoCycle(g: Graph, order: seq<string>, n: string)
    requires DepsFirst(g, order) && n in order
    ensures !CycleAhead(g, n)
  {
    forall m | m == n || Reaches(g, n, m) ensures !Reaches(g, m, m) {
      var k :| 0 <= k < |order| && order[k] == n;
      if m != n {
        var p :| IsPath(g, p, n, m);
        k := WalkDescends(g, order, p, k);
      }
      if Reaches(g, m, m) {
        var p :| IsPath(g, p, m, m);
        var j := WalkDescends(g, order, p, k);
      }
    }
  }

  /** Exactly which nodes Kahn's pass leaves unvisited: those on a cycle and those reachable from
      one, not only the former. */
  lemma UnvisitedIff(edges: Graph, order: seq<string>, n: string)
    requires Closed(edges) && LeastOrder(Flip(edges), order) && n in edges
    ensures n !in order <==> CycleBehind(edges, n)
  {
    var g := Flip(edges);
    FlipFlip(edges);
    LeastOrderIsGreedy(g, order);
    LeftOverIff(g, order, n);
    if CycleAhead(g, n) {
      var m :| (m == n || Reaches(g, n, m)) && Reaches(g, m, m);
      FlipReaches(g, m, m);
      if m != n { FlipReaches(g, n, m); }
    }
    if CycleBehind(edges, n) {
      var m :| (m == n || Reaches(edges, m, n)) && Reaches(edges, m, m);
      FlipReaches(edges, m, m);
      if m != n { FlipReaches(edges, m, n); }
    }
  }

  /** A node that is only referred to from a cycle stays unvisited without being part of one. */
  lemma UnvisitedOffCycle(order: seq<string>)
    requires LeastOrder(Flip(map["a" := {"b"}, "b" := {"a", "c"}, "c" := {}]), order)
    ensures "c" !in order && !Reaches(map["a" := {"b"}, "b" := {"a", "c"}, "c" := {}], "c", "c")
  {
    var g: Graph := map["a" := {"b"}, "b" := {"a", "c"}, "c" := {}];
    EdgeReaches(g, "a", "b");
    EdgeReaches(g, "b", "a");
    EdgeReaches(g, "b", "c");
    ReachesTrans(g, "b", "a", "b");
    UnvisitedIff(g, order, "c");
    if Reaches(g, "c", "c") { var t := ReachesStep(g, "c", "c"); }
  }

  /** What Kahn's pass leaves unvisited: nothing if and only if the graph is acyclic; the
      rest is closed under edges and contains a cycle. */
  lemma UnvisitedFacts(edges: Graph, order: seq<string>, rest: set<string>)
    requires Closed(edges) && LeastOrder(Flip(edges), order) && rest == edges.Keys - Elems(order)
    ensures rest == {} <==> Acyclic(edges)
    ensures forall n :: n in rest ==> edges[n] <= rest
    ensures !Acyclic(edges) ==> exists n :: n in rest && CycleAhead(edges, n)
  {
    var g := Flip(edges);
    KahnDecides(edges, order);
    assert Elems(order) <= edges.Keys;
    assert rest == {} <==> Elems(order) == edges.Keys by {
      assert edges.Keys == Elems(order) + rest;
    }
    forall n | n in rest ensures edges[n] <= rest { UnvisitedClosed(edges, order, n); }
    if !Acyclic(edges) {
      FlipFlip(edges);
      LeastOrderIsGreedy(g, order);
      var n := LeftOverHasCycle(g, order);
      FlipReaches(g, n, n);
    }
  }

  lemma UnvisitedClosed(edges: Graph, order: seq<string>, n: string)
    requires Closed(edges) && DepsFirst(Flip(edges), order) && n in edges && n !in order
    ensures forall t :: t in edges[n] ==> t !in order
  {
    forall i | 0 <= i < |order| ensures order[i] !in edges[n] {
      assert Flip(edges)[order[i]] <= Elems(order[..i]);
      assert n !in Elems(order[..i]);
    }
  }
}
