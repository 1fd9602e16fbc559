/** Kahn's algorithm with a sorted queue: the order it computes, and the counting
    invariants that the loops in awo/compiler/graph.go and awo/compiler/depgraph.go keep. */
module Kahn {
  import opened Names
  import opened Digraph

  /** Nodes not yet placed whose dependencies have all been placed. */
  ghost function Ready(g: Graph, placed: set<string>): set<string>
  {
    set n | n in g && n !in placed && g[n] <= placed
  }

  ghost predicate LeastReady(g: Graph, placed: set<string>, n: string)
  {
    n in Ready(g, placed) && forall m :: m in Ready(g, placed) && m != n ==> Less(n, m)
  }

  /** Each name was the smallest ready one when it was placed. */
  ghost predicate LeastPrefix(g: Graph, order: seq<string>)
  {
    forall i :: 0 <= i < |order| ==> LeastReady(g, Elems(order[..i]), order[i])
  }

  /** The order obtained by placing the smallest ready name for as long as there is one. */
  ghost predicate LeastOrder(g: Graph, order: seq<string>)
  {
    LeastPrefix(g, order) && Ready(g, Elems(order)) == {}
  }

  lemma PrefixDepsFirst(g: Graph, order: seq<string>)
    requires LeastPrefix(g, order)
    ensures DepsFirst(g, order)
  {
    forall i, j | 0 <= i < j < |order| ensures order[i] != order[j] {
      assert LeastReady(g, Elems(order[..j]), order[j]);
      assert order[..j][i] in Elems(order[..j]);
    }
    forall i | 0 <= i < |order| ensures order[i] in g && g[order[i]] <= Elems(order[..i]) {
      assert LeastReady(g, Elems(order[..i]), order[i]);
    }
  }

  lemma LeastOrderIsGreedy(g: Graph, order: seq<string>)
    requires LeastOrder(g, order)
    ensures DepsFirst(g, order) && Stuck(g, order)
  {
    PrefixDepsFirst(g, order);
    forall n | n in g && n !in order ensures !(g[n] <= Elems(order)) {
      assert n !in Ready(g, Elems(order));
    }
  }

  lemma ExtendPrefix(g: Graph, order: seq<string>, n: string)
    requires LeastPrefix(g, order) && LeastReady(g, Elems(order), n)
    ensures LeastPrefix(g, order + [n]) && Elems(order + [n]) == Elems(order) + {n}
  {
    ElemsAppend(order, n);
    var o := order + [n];
    forall i | 0 <= i < |o| ensures LeastReady(g, Elems(o[..i]), o[i]) {
      assert o[..i] == if i < |order| then order[..i] else order;
    }
  }

  /** `s` is `t` or has the smaller name where they first differ. */
  ghost predicate LexLeq(s: seq<string>, t: seq<string>)
  {
    s == t || exists k :: 0 <= k < |s| && k < |t| && s[..k] == t[..k] && Less(s[k], t[k])
  }

  /** Among all complete dependencies-first orders the least order is lexicographically smallest. */
  lemma LeastOrderIsLeast(g: Graph, order: seq<string>, other: seq<string>)
    requires LeastOrder(g, order)
    requires DepsFirst(g, other) && Elems(other) == g.Keys
    ensures LexLeq(order, other)
  {
    var k := 0;
    while k < |order| && k < |other| && order[k] == other[k]
      invariant k <= |order| && k <= |other| && order[..k] == other[..k]
    { k := k + 1; }
    if k < |other| {
      NextIsReady(g, order, other, k);
    } else {
      NothingAfter(g, order, other);
    }
  }

  /** Where the orders part, the least order has the smaller name. */
  lemma NextIsReady(g: Graph, order: seq<string>, other: seq<string>, k: nat)
    requires LeastOrder(g, order) && DepsFirst(g, other)
    requires k < |other| && k <= |order| && order[..k] == other[..k]
    ensures k < |order| && (order[k] == other[k] || Less(order[k], other[k]))
  {
    NotBefore(g, other, k);
    assert order[..|order|] == order;
    assert k < |order|;
    assert LeastReady(g, Elems(order[..k]), order[k]);
  }

  /** The least order does not go beyond a complete order. */
  lemma NothingAfter(g: Graph, order: seq<string>, other: seq<string>)
    requires LeastOrder(g, order) && Elems(other) == g.Keys && |other| <= |order| && order[..|other|] == other
    ensures order == other
  {
    assert |other| < |order| ==> LeastReady(g, Elems(order[..|other|]), order[|other|]);
    assert order[..|order|] == order;
  }

  lemma NotBefore(g: Graph, other: seq<string>, k: nat)
    requires DepsFirst(g, other) && k < |other|
    ensures other[k] in Ready(g, Elems(other[..k]))
  { }

  /** A graph has one least order, so the result cannot depend on map iteration. */
  lemma LeastOrderUnique(g: Graph, s: seq<string>, t: seq<string>)
    requires LeastOrder(g, s) && LeastOrder(g, t)
    ensures s == t
  {
    if |s| <= |t| { LeastPrefixAgree(g, s, t); } else { LeastPrefixAgree(g, t, s); }
  }

  lemma LeastPrefixAgree(g: Graph, s: seq<string>, t: seq<string>)
    requires LeastOrder(g, s) && LeastOrder(g, t) && |s| <= |t|
    ensures s == t
  {
    for k := 0 to |s|
      invariant s[..k] == t[..k]
    {
      assert LeastReady(g, Elems(s[..k]), s[k]) && LeastReady(g, Elems(t[..k]), t[k]);
      LessTotal(s[k], t[k]);
    }
    assert t[..|s|] == s[..|s|] == s && t[..|t|] == t;
  }

  // ---------------------------------------------------------------------------
  // The loops: a counter per node and a sorted queue of the nodes whose counter is zero.

  /** `count[n]` is how many of `n`'s dependencies are unplaced, one more while the
      placing of the latest node has yet to be subtracted from it (`n in pending`). */
  ghost predicate Counts(g: Graph, placed: set<string>, pending: set<string>, count: map<string, int>)
  {
    && count.Keys == g.Keys
    && forall n :: n in g ==> count[n] == |g[n] - placed| + (if n in pending then 1 else 0)
  }

  /** The queue is sorted and holds the ready nodes whose counter has been brought up to date. */
  ghost predicate Queued(g: Graph, placed: set<string>, pending: set<string>, queue: seq<string>)
  {
    StrictlySorted(queue) && Elems(queue) == Ready(g, placed) - pending
  }

  /** `pending` are nodes still waiting for the latest placement to be counted. */
  ghost predicate LoopState(g: Graph, placed: set<string>, pending: set<string>, count: map<string, int>, queue: seq<string>)
  {
    && pending <= g.Keys - placed
    && Counts(g, placed, pending, count)
    && Queued(g, placed, pending, queue)
  }

  ghost function Dependants(g: Graph, n: string): set<string>
  {
    set m | m in g && n in g[m]
  }

  lemma InitQueue(g: Graph, count: map<string, int>, zeros: seq<string>)
    requires count.Keys == g.Keys && forall n :: n in g ==> count[n] == |g[n]|
    requires Distinct(zeros) && Elems(zeros) == set n | n in count && count[n] == 0
    ensures LoopState(g, {}, {}, count, Sort(Leq, zeros))
  {
    SortStrict(zeros);
    forall n | n in g ensures g[n] - {} == g[n] { }
    assert Ready(g, {}) - {} == Elems(zeros) by {
      forall n | n in g ensures n in Ready(g, {}) <==> count[n] == 0 {
        assert g[n] <= {} <==> g[n] == {};
      }
    }
  }

  /** The head of the queue is the smallest ready node. */
  lemma HeadIsLeast(g: Graph, placed: set<string>, queue: seq<string>)
    requires Queued(g, placed, {}, queue) && queue != []
    ensures LeastReady(g, placed, queue[0])
  {
    assert queue[0] in Elems(queue);
    forall m | m in Ready(g, placed) && m != queue[0] ensures Less(queue[0], m) {
      assert m in Elems(queue);
      var i :| 0 <= i < |queue| && queue[i] == m;
    }
  }

  lemma PopQueue(g: Graph, placed: set<string>, queue: seq<string>)
    requires Queued(g, placed, {}, queue) && queue != []
    ensures Queued(g, placed + {queue[0]}, Dependants(g, queue[0]), queue[1..])
  {
    var n, rest := queue[0], queue[1..];
    assert n in Elems(queue);
    StrictIsDistinct(queue);
    assert queue == [n] + rest;
    assert forall m :: m in rest <==> m in Elems(queue) && m != n;
    forall m ensures m in Ready(g, placed) && m != n <==> m in Ready(g, placed + {n}) - Dependants(g, n) { }
  }

  lemma PopCounts(g: Graph, placed: set<string>, count: map<string, int>, n: string)
    requires Counts(g, placed, {}, count) && n !in placed
    ensures Counts(g, placed + {n}, Dependants(g, n), count)
  {
    forall m | m in g ensures count[m] == |g[m] - (placed + {n})| + (if n in g[m] then 1 else 0) {
      assert g[m] - (placed + {n}) == g[m] - placed - {n};
    }
  }

  /** Taking the head of the queue places the smallest ready node. */
  lemma PopHead(g: Graph, order: seq<string>, count: map<string, int>, queue: seq<string>)
    requires LeastPrefix(g, order) && LoopState(g, Elems(order), {}, count, queue) && queue != []
    ensures queue[0] in g && queue[0] !in order
    ensures LeastPrefix(g, order + [queue[0]])
    ensures LoopState(g, Elems(order + [queue[0]]), Dependants(g, queue[0]), count, queue[1..])
  {
    var n, placed := queue[0], Elems(order);
    HeadIsLeast(g, placed, queue);
    ExtendPrefix(g, order, n);
    PopQueue(g, placed, queue);
    PopCounts(g, placed, count, n);
    PrefixDepsFirst(g, order);
    assert forall i :: 0 <= i < |order| ==> n !in Elems(order[..i]);
  }

  lemma DrainCount(g: Graph, placed: set<string>, pending: set<string>, count: map<string, int>, t: string)
    requires Counts(g, placed, pending, count) && t in pending && t in g
    ensures Counts(g, placed, pending - {t}, count[t := count[t] - 1])
    ensures count[t] - 1 == 0 <==> g[t] <= placed
  {
    assert g[t] - placed == {} <==> g[t] <= placed by {
      assert forall x :: x in g[t] - placed <==> x in g[t] && x !in placed;
    }
  }

  lemma DrainQueue(g: Graph, placed: set<string>, pending: set<string>, queue: seq<string>, t: string)
    requires Queued(g, placed, pending, queue) && t in pending && t in g && t !in placed
    ensures Queued(g, placed, pending - {t}, if g[t] <= placed then Sort(Leq, queue + [t]) else queue)
  {
    if g[t] <= placed {
      StrictIsDistinct(queue);
      assert t !in Elems(queue);
      ElemsAppend(queue, t);
      SortStrict(queue + [t]);
      assert Ready(g, placed) - (pending - {t}) == Ready(g, placed) - pending + {t};
    } else {
      assert Ready(g, placed) - (pending - {t}) == Ready(g, placed) - pending;
    }
  }

  /** Decrementing one pending counter, and queueing the node when it reaches zero. */
  lemma DrainOne(g: Graph, placed: set<string>, pending: set<string>, count: map<string, int>, queue: seq<string>, t: string)
    requires LoopState(g, placed, pending, count, queue) && t in pending
    ensures t in count
    ensures var count' := count[t := count[t] - 1];
            LoopState(g, placed, pending - {t}, count', if count'[t] == 0 then Sort(Leq, queue + [t]) else queue)
  {
    DrainCount(g, placed, pending, count, t);
    DrainQueue(g, placed, pending, queue, t);
  }

  lemma HeadlessIsDone(g: Graph, placed: set<string>)
    requires Queued(g, placed, {}, [])
    ensures Ready(g, placed) == {}
  {
    assert Ready(g, placed) - {} == Ready(g, placed);
  }

  /** The loop over a node's targets in name order (graph.go:284-290 and depgraph.go:95-101). */
  method DrainInOrder(ghost g: Graph, ghost placed: set<string>, next: seq<string>, count: map<string, int>, queue: seq<string>)
    returns (count': map<string, int>, queue': seq<string>)
    requires StrictlySorted(next) && LoopState(g, placed, Elems(next), count, queue)
    ensures LoopState(g, placed, {}, count', queue')
  {
    count', queue' := count, queue;
    StrictIsDistinct(next);
    assert next[0..] == next;
    var i := 0;
    while i < |next|
      invariant 0 <= i <= |next|
      invariant LoopState(g, placed, Elems(next[i..]), count', queue')
    {
      var t := next[i];
      DropHead(next, i);
      DrainOne(g, placed, Elems(next[i..]), count', queue', t);
      count' := count'[t := count'[t] - 1];
      if count'[t] == 0 { queue' := Sort(Leq, queue' + [t]); }
      i := i + 1;
    }
    NoElems(next[i..]);
  }
}
