/** Migration plans between versions: awo/migration/planner.go. */
module MigrationPlan {
  import opened Names

  datatype Direction = Up | Down

  datatype Step = Step(version: nat, direction: Direction, sql: string)

  datatype Plan = Plan(steps: seq<Step>, from: nat, to: nat)

  datatype Result = Planned(plan: Plan) | TargetAbove

  predicate Ascending(a: Step, b: Step)
  {
    a.version <= b.version
  }

  predicate Descending(a: Step, b: Step)
  {
    a.version >= b.version
  }

  /** The steps of one direction, in the given order. */
  function OfDirection(steps: seq<Step>, d: Direction): seq<Step>
  {
    if steps == [] then []
    else
      var rest := OfDirection(steps[..|steps| - 1], d);
      if steps[|steps| - 1].direction == d then rest + [steps[|steps| - 1]] else rest
  }

  lemma OfDirectionAppend(steps: seq<Step>, s: Step, d: Direction)
    ensures OfDirection(steps + [s], d) == if s.direction == d then OfDirection(steps, d) + [s] else OfDirection(steps, d)
  {
    assert (steps + [s])[..|steps|] == steps;
  }

  lemma {:induction false} OfDirectionMembers(steps: seq<Step>, d: Direction)
    ensures forall s :: s in OfDirection(steps, d) <==> s in steps && s.direction == d
  {
    if steps != [] {
      OfDirectionMembers(steps[..|steps| - 1], d);
      assert steps == steps[..|steps| - 1] + [steps[|steps| - 1]];
    }
  }

  /** Versions above `low` and, unless `high` is zero, not above `high`. */
  predicate UpRange(v: nat, low: nat, high: nat)
  {
    low < v && (high == 0 || v <= high)
  }

  predicate DownRange(v: nat, current: nat, target: nat)
  {
    target < v <= current
  }

  /** The selection loops, up and down. The early exit is sound because the list is sorted. */
  method SelectUp(sorted: seq<Step>, current: nat, target: nat) returns (selected: seq<Step>)
    requires SortedBy(Ascending, sorted)
    ensures SortedBy(Ascending, selected) && forall s :: s in selected <==> s in sorted && UpRange(s.version, current, target)
    ensures StrictlyUp(sorted) ==> StrictlyUp(selected)
  {
    selected := [];
    for i := 0 to |sorted|
      invariant forall s :: s in selected <==> s in sorted[..i] && UpRange(s.version, current, target)
      invariant SortedBy(Ascending, selected) && (StrictlyUp(sorted) ==> StrictlyUp(selected))
    {
      var s := sorted[i];
      assert sorted[..i + 1] == sorted[..i] + [s];
      if s.version > current {
        if target != 0 && s.version > target {
          assert forall k :: i <= k < |sorted| ==> sorted[k].version >= s.version;
          assert sorted == sorted[..i] + sorted[i..];
          return;
        }
        assert forall x :: x in sorted[..i] ==> Ascending(x, s) && (StrictlyUp(sorted) ==> x.version < s.version);
        selected := selected + [s];
      }
    }
    assert sorted[..|sorted|] == sorted;
  }

  method SelectDown(sorted: seq<Step>, current: nat, target: nat) returns (selected: seq<Step>)
    requires SortedBy(Descending, sorted)
    ensures SortedBy(Descending, selected) && forall s :: s in selected <==> s in sorted && DownRange(s.version, current, target)
    ensures StrictlyDown(sorted) ==> StrictlyDown(selected)
  {
    selected := [];
    for i := 0 to |sorted|
      invariant forall s :: s in selected <==> s in sorted[..i] && DownRange(s.version, current, target)
      invariant SortedBy(Descending, selected) && (StrictlyDown(sorted) ==> StrictlyDown(selected))
    {
      var s := sorted[i];
      assert sorted[..i + 1] == sorted[..i] + [s];
      if s.version <= current {
        if s.version <= target {
          assert forall k :: i <= k < |sorted| ==> sorted[k].version <= s.version;
          assert sorted == sorted[..i] + sorted[i..];
          return;
        }
        assert forall x :: x in sorted[..i] ==> Descending(x, s) && (StrictlyDown(sorted) ==> x.version > s.version);
        selected := selected + [s];
      }
    }
    assert sorted[..|sorted|] == sorted;
  }

  ghost predicate StrictlyUp(s: seq<Step>)
  {
    forall i, j :: 0 <= i < j < |s| ==> s[i].version < s[j].version
  }

  ghost predicate StrictlyDown(s: seq<Step>)
  {
    forall i, j :: 0 <= i < j < |s| ==> s[i].version > s[j].version
  }

  /** Within each direction no version occurs twice. */
  ghost predicate DistinctVersions(steps: seq<Step>)
  {
    && Distinct(OfDirection(steps, Up)) && Distinct(OfDirection(steps, Down))
    && forall s, t :: s in steps && t in steps && s.direction == t.direction && s.version == t.version ==> s == t
  }

  /** An up plan runs exactly the up steps of its range, ascending, and ends at the last of them. */
  ghost predicate RunsUp(steps: seq<Step>, current: nat, target: nat, p: Plan)
  {
    && SortedBy(Ascending, p.steps) && p.from == current
    && (forall s :: s in p.steps <==> s in steps && s.direction == Up && UpRange(s.version, current, target))
    && p.to == if p.steps == [] then current else p.steps[|p.steps| - 1].version
  }

  /** A down plan runs exactly the down steps of its range, descending, and ends at the target. */
  ghost predicate RunsDown(steps: seq<Step>, current: nat, target: nat, p: Plan)
  {
    && SortedBy(Descending, p.steps) && p.from == current
    && (forall s :: s in p.steps <==> s in steps && s.direction == Down && DownRange(s.version, current, target))
    && p.to == if p.steps == [] then current else target
  }

  /** The same with every version once. */
  ghost predicate UpPlan(steps: seq<Step>, current: nat, target: nat, p: Plan)
  {
    RunsUp(steps, current, target, p) && StrictlyUp(p.steps)
  }

  ghost predicate DownPlan(steps: seq<Step>, current: nat, target: nat, p: Plan)
  {
    RunsDown(steps, current, target, p) && StrictlyDown(p.steps)
  }

  /** The loop that keeps one direction (planner.go:21-27). */
  method FilterSteps(steps: seq<Step>, direction: Direction) returns (dirSteps: seq<Step>)
    ensures dirSteps == OfDirection(steps, direction)
  {
    dirSteps := [];
    for i := 0 to |steps|
      invariant dirSteps == OfDirection(steps[..i], direction)
    {
      assert steps[..i + 1] == steps[..i] + [steps[i]];
      OfDirectionAppend(steps[..i], steps[i], direction);
      if steps[i].direction == direction { dirSteps := dirSteps + [steps[i]]; }
    }
    assert steps[..|steps|] == steps;
  }

  method BuildPlan(steps: seq<Step>, current: nat, direction: Direction, target: nat) returns (r: Result)
    ensures r.TargetAbove? <==> direction == Down && target > current
    ensures r.Planned? && direction == Up ==> RunsUp(steps, current, target, r.plan)
    ensures r.Planned? && direction == Down ==> RunsDown(steps, current, target, r.plan)
    ensures r.Planned? && DistinctVersions(steps) ==>
              if direction == Up then UpPlan(steps, current, target, r.plan) else DownPlan(steps, current, target, r.plan)
  {
    var dirSteps := FilterSteps(steps, direction);
    OfDirectionMembers(steps, direction);
    SortFacts(steps, direction);
    if direction == Up {
      var selected := SelectUp(Sort(Ascending, dirSteps), current, target);
      var to := if |selected| > 0 then selected[|selected| - 1].version else current;
      return Planned(Plan(selected, current, to));
    }
    var selected := SelectDown(Sort(Descending, dirSteps), current, target);
    var to := if |selected| == 0 then current else target;
    if target > current { return TargetAbove; }
    r := Planned(Plan(selected, current, to));
  }

  lemma SortFacts(steps: seq<Step>, d: Direction)
    ensures var l := OfDirection(steps, d);
            var up, down := Sort(Ascending, l), Sort(Descending, l);
            && SortedBy(Ascending, up) && SortedBy(Descending, down)
            && (forall s :: s in up <==> s in l) && (forall s :: s in down <==> s in l)
            && (DistinctVersions(steps) ==> StrictlyUp(up) && StrictlyDown(down))
  {
    var l := OfDirection(steps, d);
    SortIsSorted(Ascending, l);
    SortIsSorted(Descending, l);
    SameMembers(l, Sort(Ascending, l));
    SameMembers(l, Sort(Descending, l));
    if DistinctVersions(steps) {
      OfDirectionMembers(steps, d);
      SortedStrictly(l);
    }
  }

  lemma SortedStrictly(l: seq<Step>)
    requires Distinct(l) && forall s, t :: s in l && t in l && s.version == t.version ==> s == t
    requires SortedBy(Ascending, Sort(Ascending, l)) && SortedBy(Descending, Sort(Descending, l))
    ensures StrictlyUp(Sort(Ascending, l)) && StrictlyDown(Sort(Descending, l))
  {
    var up, down := Sort(Ascending, l), Sort(Descending, l);
    SameMembers(l, up);
    SameMembers(l, down);
    PermutedDistinct(l, up);
    PermutedDistinct(l, down);
    forall i, j | 0 <= i < j < |up| ensures up[i].version < up[j].version {
      assert up[i] in up && up[j] in up && up[i] != up[j];
    }
    forall i, j | 0 <= i < j < |down| ensures down[i].version > down[j].version {
      assert down[i] in down && down[j] in down && down[i] != down[j];
    }
  }

  lemma SameMembers(s: seq<Step>, t: seq<Step>)
    requires multiset(s) == multiset(t)
    ensures forall x :: x in s <==> x in t
  {
    assert forall x :: x in s <==> x in multiset(s);
    assert forall x :: x in t <==> x in multiset(t);
  }

  // ---------------------------------------------------------------------------
  // Plans compose and undo each other.

  lemma {:induction false} StrictlyUpUnique(s: seq<Step>, t: seq<Step>)
    requires StrictlyUp(s) && StrictlyUp(t) && forall x :: x in s <==> x in t
    ensures s == t
  {
    if s == [] {
      NoElems(t);
    } else {
      assert s[0] in t && |t| > 0 && t[0] in s;
      assert s[0] == t[0];
      assert s == [s[0]] + s[1..] && t == [t[0]] + t[1..];
      TailMembers(s);
      TailMembers(t);
      StrictlyUpUnique(s[1..], t[1..]);
    }
  }

  lemma TailMembers(s: seq<Step>)
    requires StrictlyUp(s) && s != []
    ensures forall x :: x in s[1..] <==> x in s && x != s[0]
  {
    assert s == [s[0]] + s[1..];
  }

  /** Going up to a midpoint and on from where that plan ended is going up directly. */
  lemma UpPlansCompose(steps: seq<Step>, current: nat, mid: nat, target: nat, p: Plan, q: Plan, direct: Plan)
    requires DistinctVersions(steps) && mid > 0 && (target == 0 || mid <= target)
    requires UpPlan(steps, current, mid, p) && UpPlan(steps, p.to, target, q) && UpPlan(steps, current, target, direct)
    ensures p.steps + q.steps == direct.steps && q.to == direct.to
  {
    UpToBounds(steps, current, mid, p);
    JoinUp(p.steps, q.steps, p.to);
    forall s ensures s in p.steps + q.steps <==> s in direct.steps { ComposedMember(steps, current, mid, target, p, q, direct, s); }
    StrictlyUpUnique(p.steps + q.steps, direct.steps);
    LastOfJoin(p.steps, q.steps);
  }

  lemma ComposedMember(steps: seq<Step>, current: nat, mid: nat, target: nat, p: Plan, q: Plan, direct: Plan, s: Step)
    requires mid > 0 && (target == 0 || mid <= target)
    requires RunsUp(steps, current, mid, p) && RunsUp(steps, p.to, target, q) && RunsUp(steps, current, target, direct)
    requires current <= p.to && forall x :: x in p.steps <==> x in steps && x.direction == Up && current < x.version <= p.to
    ensures s in p.steps + q.steps <==> s in direct.steps
  {
    assert s in p.steps + q.steps <==> s in p.steps || s in q.steps;
  }

  lemma JoinUp(a: seq<Step>, b: seq<Step>, v: nat)
    requires StrictlyUp(a) && StrictlyUp(b)
    requires (forall s :: s in a ==> s.version <= v) && forall s :: s in b ==> v < s.version
    ensures StrictlyUp(a + b)
  {
    var both := a + b;
    forall i, j | 0 <= i < j < |both| ensures both[i].version < both[j].version {
      assert i < |a| ==> both[i] in a;
      assert j >= |a| ==> both[j] in b;
    }
  }

  lemma LastOfJoin(a: seq<Step>, b: seq<Step>)
    ensures b != [] ==> (a + b)[|a + b| - 1] == b[|b| - 1]
    ensures b == [] ==> a + b == a
  { }

  lemma NotAboveLast(s: seq<Step>, x: Step)
    requires StrictlyUp(s) && x in s
    ensures x.version <= s[|s| - 1].version
  { }

  /** Between `low` and `high` the same versions have an up script and a down script. */
  ghost predicate Paired(steps: seq<Step>, low: nat, high: nat)
  {
    forall v :: low < v <= high ==> (HasStep(steps, Up, v) <==> HasStep(steps, Down, v))
  }

  ghost predicate HasStep(steps: seq<Step>, d: Direction, v: nat)
  {
    exists s :: s in steps && s.direction == d && s.version == v
  }

  ghost predicate Reverses(down: Plan, up: Plan)
  {
    && |down.steps| == |up.steps|
    && (forall i :: 0 <= i < |up.steps| ==> down.steps[i].version == up.steps[|up.steps| - 1 - i].version)
    && down.to == up.from
  }

  /** Rolling back from where an up plan ended visits the same versions in reverse and returns to the
      start exactly when up and down scripts are paired over that range. */
  lemma DownUndoesUpIff(steps: seq<Step>, current: nat, target: nat, up: Plan, down: Plan)
    requires DistinctVersions(steps) && UpPlan(steps, current, target, up) && DownPlan(steps, up.to, current, down)
    ensures Reverses(down, up) <==> Paired(steps, current, up.to)
  {
    UpToBounds(steps, current, target, up);
    if Paired(steps, current, up.to) {
      PairedMembers(steps, current, target, up, down);
      MirrorImage(up.steps, down.steps);
    }
    if Reverses(down, up) { MirrorPairs(steps, current, target, up, down); }
  }

  lemma UpToBounds(steps: seq<Step>, current: nat, target: nat, up: Plan)
    requires UpPlan(steps, current, target, up)
    ensures current <= up.to && forall s :: s in up.steps <==> s in steps && s.direction == Up && current < s.version <= up.to
  {
    if up.steps != [] {
      assert up.steps[|up.steps| - 1] in up.steps;
      forall s | s in up.steps ensures s.version <= up.to { NotAboveLast(up.steps, s); }
    }
  }

  ghost predicate Visits(s: seq<Step>, v: nat)
  {
    exists x :: x in s && x.version == v
  }

  ghost predicate SameVersions(s: seq<Step>, t: seq<Step>)
  {
    forall v :: Visits(s, v) <==> Visits(t, v)
  }

  lemma PairedMembers(steps: seq<Step>, current: nat, target: nat, up: Plan, down: Plan)
    requires UpPlan(steps, current, target, up) && DownPlan(steps, up.to, current, down) && Paired(steps, current, up.to)
    ensures SameVersions(up.steps, down.steps)
  {
    UpToBounds(steps, current, target, up);
    forall v: nat ensures Visits(up.steps, v) <==> Visits(down.steps, v) {
      assert Visits(up.steps, v) <==> current < v <= up.to && HasStep(steps, Up, v);
      assert Visits(down.steps, v) <==> current < v <= up.to && HasStep(steps, Down, v);
    }
  }

  lemma WithoutLast(up: seq<Step>)
    requires StrictlyUp(up) && up != []
    ensures forall v :: Visits(up[..|up| - 1], v) <==> v != up[|up| - 1].version && Visits(up, v)
  {
    var init, last := up[..|up| - 1], up[|up| - 1];
    assert forall x :: x in up <==> x in init || x == last;
    assert forall x :: x in init ==> x.version < last.version;
    forall v ensures Visits(init, v) <==> v != last.version && Visits(up, v) {
      if Visits(up, v) {
        var x :| x in up && x.version == v;
        assert x in init || x == last;
      }
    }
  }

  lemma WithoutFirst(down: seq<Step>)
    requires StrictlyDown(down) && down != []
    ensures forall v :: Visits(down[1..], v) <==> v != down[0].version && Visits(down, v)
  {
    var rest, first := down[1..], down[0];
    assert forall x :: x in down <==> x == first || x in rest;
    assert forall x :: x in rest ==> x.version < first.version;
    forall v ensures Visits(rest, v) <==> v != first.version && Visits(down, v) {
      if Visits(down, v) {
        var x :| x in down && x.version == v;
        assert x in rest || x == first;
      }
    }
  }

  /** A strictly ascending and a strictly descending list over the same versions mirror each other. */
  lemma {:induction false} MirrorImage(up: seq<Step>, down: seq<Step>)
    requires StrictlyUp(up) && StrictlyDown(down) && SameVersions(up, down)
    ensures |down| == |up| && forall i :: 0 <= i < |up| ==> down[i].version == up[|up| - 1 - i].version
  {
    if up == [] {
      assert forall x :: x in down ==> Visits(down, x.version);
      NoElems(down);
    } else {
      EndsMeet(up, down);
      WithoutLast(up);
      WithoutFirst(down);
      MirrorImage(up[..|up| - 1], down[1..]);
    }
  }

  lemma EndsMeet(up: seq<Step>, down: seq<Step>)
    requires StrictlyUp(up) && StrictlyDown(down) && SameVersions(up, down) && up != []
    ensures down != [] && down[0].version == up[|up| - 1].version
  {
    var last := up[|up| - 1];
    assert last in up && Visits(up, last.version);
    assert Visits(down, last.version);
    assert down[0] in down && Visits(down, down[0].version);
    assert Visits(up, down[0].version);
  }

  lemma DownIsPaired(steps: seq<Step>, current: nat, up: Plan, down: Plan, v: nat)
    requires DownPlan(steps, up.to, current, down) && Reverses(down, up) && current < v <= up.to && HasStep(steps, Down, v)
    ensures Visits(up.steps, v)
  {
    var s :| s in steps && s.direction == Down && s.version == v;
    assert s in down.steps;
    var i :| 0 <= i < |down.steps| && down.steps[i] == s;
    assert up.steps[|up.steps| - 1 - i] in up.steps;
  }

  lemma UpIsPaired(steps: seq<Step>, up: Plan, down: Plan, s: Step)
    requires Reverses(down, up) && s in up.steps
    ensures Visits(down.steps, s.version)
  {
    var n := |up.steps|;
    var i :| 0 <= i < n && up.steps[i] == s;
    var k := n - 1 - i;
    assert down.steps[k].version == up.steps[n - 1 - k].version;
    assert down.steps[k] in down.steps;
  }

  lemma MirrorPairs(steps: seq<Step>, current: nat, target: nat, up: Plan, down: Plan)
    requires UpPlan(steps, current, target, up) && DownPlan(steps, up.to, current, down) && Reverses(down, up)
    ensures Paired(steps, current, up.to)
  {
    UpToBounds(steps, current, target, up);
    forall v | current < v <= up.to ensures HasStep(steps, Up, v) <==> HasStep(steps, Down, v) {
      if HasStep(steps, Up, v) {
        var s :| s in steps && s.direction == Up && s.version == v;
        UpIsPaired(steps, up, down, s);
      }
      if HasStep(steps, Down, v) { DownIsPaired(steps, current, up, down, v); }
    }
  }
}
