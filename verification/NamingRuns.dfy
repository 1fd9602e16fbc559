/** Concurrent allocation as a state machine. Each call of Allocate (awo/naming/service.go:67-103)
    looks up the token cache, parses and stores on a miss (service.go:119-137), increments its
    counter atomically and renders; the reply to the increment may be lost. The steps of different
    calls interleave freely. */
module NamingRuns {
  import opened NamingPattern
  import opened NamingSeries

  datatype Phase =
    | Started
    | Missed
    | HasTokens(ts: seq<Token>)
    | Counted(ts: seq<Token>, n: nat)
    | Done(ts: seq<Token>, n: nat, id: string)
    | Lost(ts: seq<Token>, n: nat)
    | Failed

  datatype Call = Call(input: Input, phase: Phase)

  datatype State = State(cache: map<string, seq<Token>>, counters: map<string, nat>, calls: seq<Call>)

  datatype Action =
    | Begin(input: Input)
    | Look(i: nat)
    | ParseAndStore(i: nat)
    | Increment(i: nat)
    | CounterFails(i: nat)
    | ReplyLost(i: nat)
    | Finish(i: nat)

  function Init(counters: map<string, nat>): State
  {
    State(map[], counters, [])
  }

  function SetPhase(s: State, i: nat, p: Phase): State
    requires i < |s.calls|
  {
    s.(calls := s.calls[i := s.calls[i].(phase := p)])
  }

  /** One atomic step; an action that is not enabled changes nothing. */
  function Step(s: State, a: Action): State
  {
    match a
    case Begin(input) => if ValidInput(input) then s.(calls := s.calls + [Call(input, Started)]) else s
    case Look(i) =>
      if i < |s.calls| && s.calls[i].phase.Started? then
        var p := s.calls[i].input.pattern;
        SetPhase(s, i, if p in s.cache then HasTokens(s.cache[p]) else Missed)
      else s
    case ParseAndStore(i) =>
      if i < |s.calls| && s.calls[i].phase.Missed? then
        var p := s.calls[i].input.pattern;
        var r := Parse(p);
        if r.Err? then SetPhase(s, i, Failed)
        else SetPhase(s, i, HasTokens(r.value)).(cache := s.cache[p := r.value])
      else s
    case Increment(i) =>
      if i < |s.calls| && s.calls[i].phase.HasTokens? then
        var ts := s.calls[i].phase.ts;
        var key := KeyOf(ts, s.calls[i].input);
        var n := Count(s.counters, key) + 1;
        SetPhase(s, i, Counted(ts, n)).(counters := s.counters[key := n])
      else s
    case CounterFails(i) =>
      if i < |s.calls| && s.calls[i].phase.HasTokens? then SetPhase(s, i, Failed) else s
    case ReplyLost(i) =>
      if i < |s.calls| && s.calls[i].phase.Counted? then SetPhase(s, i, Lost(s.calls[i].phase.ts, s.calls[i].phase.n)) else s
    case Finish(i) =>
      if i < |s.calls| && s.calls[i].phase.Counted? then
        var Counted(ts, n) := s.calls[i].phase;
        SetPhase(s, i, Done(ts, n, RenderSpec(ts, VarsOf(s.calls[i].input, n))))
      else s
  }

  function Run(s: State, actions: seq<Action>): State
    decreases |actions|
  {
    if actions == [] then s else Run(Step(s, actions[0]), actions[1..])
  }

  // ---------------------------------------------------------------------------
  // What every step keeps.

  datatype Slot = NoSlot | Slot(key: string, n: nat)

  /** The counter value a call has taken. */
  function SlotOf(c: Call): Slot
  {
    if c.phase.Counted? || c.phase.Done? || c.phase.Lost? then Slot(KeyOf(c.phase.ts, c.input), c.phase.n) else NoSlot
  }

  /** A call works with the tokens of its own pattern and returns their rendering. */
  ghost predicate CallOk(c: Call)
  {
    && ValidInput(c.input)
    && (c.phase.HasTokens? || c.phase.Counted? || c.phase.Done? || c.phase.Lost? ==> Parse(c.input.pattern) == Ok(c.phase.ts))
    && (c.phase.Done? ==> c.phase.id == RenderSpec(c.phase.ts, VarsOf(c.input, c.phase.n)))
  }

  ghost predicate CacheOk(cache: map<string, seq<Token>>)
  {
    forall p :: p in cache ==> Parse(p) == Ok(cache[p])
  }

  /** Slots lie between where their counter started and where it stands. */
  ghost predicate SlotsInRange(start: map<string, nat>, counters: map<string, nat>, calls: seq<Call>)
  {
    forall i :: 0 <= i < |calls| && SlotOf(calls[i]).Slot? ==>
      Count(start, SlotOf(calls[i]).key) < SlotOf(calls[i]).n <= Count(counters, SlotOf(calls[i]).key)
  }

  ghost predicate SlotsDiffer(calls: seq<Call>)
  {
    forall i, j :: 0 <= i < j < |calls| && SlotOf(calls[i]).Slot? ==> SlotOf(calls[i]) != SlotOf(calls[j])
  }

  ghost predicate NoGaps(start: map<string, nat>, counters: map<string, nat>, calls: seq<Call>)
  {
    && (forall key, n :: Count(start, key) < n <= Count(counters, key) ==> Taken(calls, Slot(key, n)))
    && (forall key :: Count(start, key) <= Count(counters, key))
  }

  /** Counter values are taken once each, without gaps, upwards from where they stood; a call that
      lost its reply has taken one that no identifier shows. */
  ghost predicate SlotsOk(start: map<string, nat>, counters: map<string, nat>, calls: seq<Call>)
  {
    SlotsInRange(start, counters, calls) && SlotsDiffer(calls) && NoGaps(start, counters, calls)
  }

  ghost predicate Taken(calls: seq<Call>, slot: Slot)
  {
    exists i :: 0 <= i < |calls| && SlotOf(calls[i]) == slot
  }

  ghost predicate CallsOk(calls: seq<Call>)
  {
    forall i :: 0 <= i < |calls| ==> CallOk(calls[i])
  }

  ghost predicate Inv(start: map<string, nat>, s: State)
  {
    CacheOk(s.cache) && CallsOk(s.calls) && SlotsOk(start, s.counters, s.calls)
  }

  /** Every slot taken before is still taken when no call gives one up. */
  lemma StillTaken(calls: seq<Call>, calls': seq<Call>, slot: Slot)
    requires |calls| <= |calls'| && forall k :: 0 <= k < |calls| && SlotOf(calls[k]).Slot? ==> SlotOf(calls'[k]) == SlotOf(calls[k])
    requires Taken(calls, slot) && slot.Slot?
    ensures Taken(calls', slot)
  {
    var k :| 0 <= k < |calls| && SlotOf(calls[k]) == slot;
    assert SlotOf(calls'[k]) == slot;
  }

  lemma NoGapsKept(start: map<string, nat>, counters: map<string, nat>, calls: seq<Call>, calls': seq<Call>)
    requires NoGaps(start, counters, calls)
    requires |calls| <= |calls'| && forall k :: 0 <= k < |calls| && SlotOf(calls[k]).Slot? ==> SlotOf(calls'[k]) == SlotOf(calls[k])
    ensures NoGaps(start, counters, calls')
  {
    forall key, n | Count(start, key) < n <= Count(counters, key) ensures Taken(calls', Slot(key, n)) {
      StillTaken(calls, calls', Slot(key, n));
    }
  }

  /** A step that changes no slot keeps the slots in order. */
  lemma SlotsKept(start: map<string, nat>, counters: map<string, nat>, calls: seq<Call>, i: nat, p: Phase)
    requires SlotsOk(start, counters, calls) && i < |calls|
    requires SlotOf(calls[i].(phase := p)) == SlotOf(calls[i])
    ensures SlotsOk(start, counters, calls[i := calls[i].(phase := p)])
  {
    var calls' := calls[i := calls[i].(phase := p)];
    assert forall k :: 0 <= k < |calls| ==> SlotOf(calls'[k]) == SlotOf(calls[k]);
    NoGapsKept(start, counters, calls, calls');
  }

  lemma SlotsBegin(start: map<string, nat>, counters: map<string, nat>, calls: seq<Call>, c: Call)
    requires SlotsOk(start, counters, calls) && SlotOf(c) == NoSlot
    ensures SlotsOk(start, counters, calls + [c])
  {
    NoGapsKept(start, counters, calls, calls + [c]);
  }

  /** An increment hands out the next value. */
  lemma SlotsGrow(start: map<string, nat>, counters: map<string, nat>, calls: seq<Call>, i: nat, c: Call)
    requires SlotsOk(start, counters, calls) && i < |calls| && SlotOf(calls[i]) == NoSlot && SlotOf(c).Slot?
    requires SlotOf(c).n == Count(counters, SlotOf(c).key) + 1
    ensures SlotsOk(start, counters[SlotOf(c).key := SlotOf(c).n], calls[i := c])
  {
    var slot := SlotOf(c);
    var calls', counters' := calls[i := c], counters[slot.key := slot.n];
    assert Count(start, slot.key) <= Count(counters, slot.key);
    assert forall key :: Count(counters', key) == if key == slot.key then slot.n else Count(counters, key);
    NoGapsGrow(start, counters, calls, i, c);
    SlotsStillDiffer(calls, i, c);
  }

  lemma SlotsStillDiffer(calls: seq<Call>, i: nat, c: Call)
    requires SlotsDiffer(calls) && i < |calls|
    requires forall k :: 0 <= k < |calls| ==> SlotOf(calls[k]) != SlotOf(c)
    ensures SlotsDiffer(calls[i := c])
  { }

  lemma NoGapsGrow(start: map<string, nat>, counters: map<string, nat>, calls: seq<Call>, i: nat, c: Call)
    requires NoGaps(start, counters, calls) && i < |calls| && SlotOf(calls[i]) == NoSlot && SlotOf(c).Slot?
    requires SlotOf(c).n == Count(counters, SlotOf(c).key) + 1
    ensures NoGaps(start, counters[SlotOf(c).key := SlotOf(c).n], calls[i := c])
  {
    var slot := SlotOf(c);
    var calls', counters' := calls[i := c], counters[slot.key := slot.n];
    assert forall key :: Count(counters', key) == if key == slot.key then slot.n else Count(counters, key);
    assert Count(start, slot.key) <= Count(counters, slot.key);
    forall key, n | Count(start, key) < n <= Count(counters', key) ensures Taken(calls', Slot(key, n)) {
      if key == slot.key && n == slot.n {
        assert SlotOf(calls'[i]) == Slot(key, n);
      } else {
        StillTaken(calls, calls', Slot(key, n));
      }
    }
  }

  lemma KeepPhase(start: map<string, nat>, s: State, i: nat, p: Phase)
    requires Inv(start, s) && i < |s.calls|
    requires CallOk(s.calls[i].(phase := p)) && SlotOf(s.calls[i].(phase := p)) == SlotOf(s.calls[i])
    ensures Inv(start, SetPhase(s, i, p))
  {
    SlotsKept(start, s.counters, s.calls, i, p);
  }

  lemma IncrementKeepsInv(start: map<string, nat>, s: State, i: nat)
    requires Inv(start, s) && i < |s.calls| && s.calls[i].phase.HasTokens?
    ensures Inv(start, Step(s, Increment(i)))
  {
    var c := s.calls[i];
    var key := KeyOf(c.phase.ts, c.input);
    var n := Count(s.counters, key) + 1;
    var c' := c.(phase := Counted(c.phase.ts, n));
    CountedOk(s.calls, i, n);
    SlotsGrow(start, s.counters, s.calls, i, c');
    assert Step(s, Increment(i)) == State(s.cache, s.counters[key := n], s.calls[i := c']);
  }

  lemma CountedOk(calls: seq<Call>, i: nat, n: nat)
    requires CallsOk(calls) && i < |calls| && calls[i].phase.HasTokens?
    ensures var c' := calls[i].(phase := Counted(calls[i].phase.ts, n));
            CallsOk(calls[i := c']) && SlotOf(c') == Slot(KeyOf(calls[i].phase.ts, calls[i].input), n)
  {
    assert CallOk(calls[i]);
  }

  lemma ParseKeepsInv(start: map<string, nat>, s: State, i: nat)
    requires Inv(start, s) && i < |s.calls| && s.calls[i].phase.Missed?
    ensures Inv(start, Step(s, ParseAndStore(i)))
  {
    assert CallOk(s.calls[i]);
    var r := Parse(s.calls[i].input.pattern);
    KeepPhase(start, s, i, if r.Ok? then HasTokens(r.value) else Failed);
  }

  lemma FinishKeepsInv(start: map<string, nat>, s: State, i: nat)
    requires Inv(start, s) && i < |s.calls| && s.calls[i].phase.Counted?
    ensures Inv(start, Step(s, Finish(i)))
  {
    var c := s.calls[i];
    assert CallOk(c);
    KeepPhase(start, s, i, Done(c.phase.ts, c.phase.n, RenderSpec(c.phase.ts, VarsOf(c.input, c.phase.n))));
  }

  lemma LossKeepsInv(start: map<string, nat>, s: State, i: nat)
    requires Inv(start, s) && i < |s.calls| && s.calls[i].phase.Counted?
    ensures Inv(start, Step(s, ReplyLost(i)))
  {
    var c := s.calls[i];
    assert CallOk(c);
    KeepPhase(start, s, i, Lost(c.phase.ts, c.phase.n));
  }

  lemma LookKeepsInv(start: map<string, nat>, s: State, i: nat)
    requires Inv(start, s) && i < |s.calls| && s.calls[i].phase.Started?
    ensures Inv(start, Step(s, Look(i)))
  {
    assert CallOk(s.calls[i]);
    var p := s.calls[i].input.pattern;
    KeepPhase(start, s, i, if p in s.cache then HasTokens(s.cache[p]) else Missed);
  }

  lemma StepKeepsInv(start: map<string, nat>, s: State, a: Action)
    requires Inv(start, s)
    ensures Inv(start, Step(s, a))
  {
    match a
    case Begin(input) => SlotsBegin(start, s.counters, s.calls, Call(input, Started));
    case Look(i) => if i < |s.calls| && s.calls[i].phase.Started? { LookKeepsInv(start, s, i); }
    case ParseAndStore(i) => if i < |s.calls| && s.calls[i].phase.Missed? { ParseKeepsInv(start, s, i); }
    case Increment(i) => if i < |s.calls| && s.calls[i].phase.HasTokens? { IncrementKeepsInv(start, s, i); }
    case CounterFails(i) => if i < |s.calls| && s.calls[i].phase.HasTokens? { assert CallOk(s.calls[i]); KeepPhase(start, s, i, Failed); }
    case ReplyLost(i) => if i < |s.calls| && s.calls[i].phase.Counted? { LossKeepsInv(start, s, i); }
    case Finish(i) => if i < |s.calls| && s.calls[i].phase.Counted? { FinishKeepsInv(start, s, i); }
  }

  lemma {:induction false} RunKeepsInv(start: map<string, nat>, s: State, actions: seq<Action>)
    requires Inv(start, s)
    ensures Inv(start, Run(s, actions))
    decreases |actions|
  {
    if actions != [] {
      StepKeepsInv(start, s, actions[0]);
      RunKeepsInv(start, Step(s, actions[0]), actions[1..]);
    }
  }

  /** Under every interleaving the cache agrees with a fresh parse and each counter hands out
      consecutive values, none twice. */
  lemma RunsAreSound(start: map<string, nat>, actions: seq<Action>)
    ensures Inv(start, Run(Init(start), actions))
  {
    RunKeepsInv(start, Init(start), actions);
  }

  // ---------------------------------------------------------------------------
  // Uniqueness.

  /** Identifiers are compared among patterns that mean the same tokens: `{SEQ:6}` and `{000000}`
      draw on one counter. */
  datatype Scope = Scope(ts: seq<Token>, tenant: string, orgCode: string, fiscalLabel: string)

  ghost predicate InScope(c: Call, scope: Scope)
  {
    c.phase.Done? && scope == Scope(c.phase.ts, c.input.tenant, c.input.orgCode, c.input.fiscalLabel)
  }

  /** After the run, calls `i` and `j` of the scope have returned the same identifier. */
  ghost predicate Repeats(start: map<string, nat>, actions: seq<Action>, i: nat, j: nat, scope: Scope)
  {
    var calls := Run(Init(start), actions).calls;
    i < j < |calls| && InScope(calls[i], scope) && InScope(calls[j], scope) && calls[i].phase.id == calls[j].phase.id
  }

  /** No run ever returns one identifier twice in this scope. */
  ghost predicate UniqueIdentifiers(scope: Scope)
  {
    forall start, actions, i, j :: !Repeats(start, actions, i, j, scope)
  }

  ghost predicate Uses(start: map<string, nat>, actions: seq<Action>, i: nat, pattern: string)
  {
    var calls := Run(Init(start), actions).calls;
    i < |calls| && calls[i].input.pattern == pattern
  }

  /** The same for the calls that use one pattern text. */
  ghost predicate UniqueFor(pattern: string, scope: Scope)
  {
    forall start, actions, i, j ::
      Uses(start, actions, i, pattern) && Uses(start, actions, j, pattern) ==> !Repeats(start, actions, i, j, scope)
  }

  /** The pattern shows sequence, year and month. */
  predicate ShowsAll(ts: seq<Token>, fiscalLabel: string)
  {
    HasSEQ(ts) && ShowsYear(ts, fiscalLabel) && ShowsMonth(ts)
  }

  lemma ShowingIsUnique(scope: Scope)
    requires ShowsAll(scope.ts, scope.fiscalLabel)
    ensures UniqueIdentifiers(scope)
  {
    forall start, actions, i, j ensures !Repeats(start, actions, i, j, scope) {
      if Repeats(start, actions, i, j, scope) {
        RunsAreSound(start, actions);
        DistinctInState(start, Run(Init(start), actions), i, j, scope);
      }
    }
  }

  lemma DistinctInState(start: map<string, nat>, s: State, i: nat, j: nat, scope: Scope)
    requires Inv(start, s) && i < j < |s.calls| && InScope(s.calls[i], scope) && InScope(s.calls[j], scope)
    requires ShowsAll(scope.ts, scope.fiscalLabel)
    ensures s.calls[i].phase.id != s.calls[j].phase.id
  {
    var c, d := s.calls[i], s.calls[j];
    assert CallOk(c) && CallOk(d) && SlotOf(c) != SlotOf(d);
    if c.phase.id == d.phase.id {
      SameIdentifierSameCount(c.phase.ts, c.input, d.input, c.phase.n, d.phase.n);
    }
  }

  /** The steps of one call, the `i`-th, without interleaving. */
  function Alone(input: Input, i: nat): seq<Action>
  {
    [Begin(input), Look(i), ParseAndStore(i), Increment(i), Finish(i)]
  }

  lemma {:induction false} RunConcat(s: State, x: seq<Action>, y: seq<Action>)
    ensures Run(s, x + y) == Run(Run(s, x), y)
    decreases |x|
  {
    if x == [] {
      assert x + y == y;
    } else {
      assert (x + y)[1..] == x[1..] + y;
      RunConcat(Step(s, x[0]), x[1..], y);
    }
  }

  lemma {:induction false} RunOne(s: State, x: seq<Action>)
    requires x != []
    ensures Run(s, x) == Run(Step(s, x[0]), x[1..])
  { }

  /** The state with one more call, in phase `p`. */
  function With(s: State, input: Input, p: Phase): State
  {
    s.(calls := s.calls + [Call(input, p)])
  }

  lemma SetLast(s: State, input: Input, p: Phase, q: Phase)
    ensures SetPhase(With(s, input, p), |s.calls|, q) == With(s, input, q)
  {
    assert (s.calls + [Call(input, p)])[|s.calls| := Call(input, q)] == s.calls + [Call(input, q)];
  }

  /** The state once a call has the tokens of its pattern. */
  function Parsed(s: State, input: Input, ts: seq<Token>): State
  {
    With(s, input, HasTokens(ts)).(cache := s.cache[input.pattern := ts])
  }

  /** Looking up the pattern, and parsing it on a miss, ends with its tokens. */
  lemma AloneLooks(s: State, input: Input, ts: seq<Token>)
    requires CacheOk(s.cache) && Parse(input.pattern) == Ok(ts)
    ensures Step(Step(With(s, input, Started), Look(|s.calls|)), ParseAndStore(|s.calls|)) == Parsed(s, input, ts)
  {
    if input.pattern in s.cache {
      SetLast(s, input, Started, HasTokens(ts));
      assert s.cache[input.pattern := ts] == s.cache;
    } else {
      SetLast(s, input, Started, Missed);
      SetLast(s, input, Missed, HasTokens(ts));
    }
  }

  lemma {:induction false} RunTwo(s: State, x: Action, y: Action)
    ensures Run(s, [x, y]) == Step(Step(s, x), y)
  {
    RunOne(s, [x, y]);
    assert [x, y][1..] == [y];
    RunOne(Step(s, x), [y]);
    assert [y][1..] == [];
  }

  lemma AloneParses(s: State, input: Input, ts: seq<Token>)
    requires CacheOk(s.cache) && ValidInput(input) && Parse(input.pattern) == Ok(ts)
    ensures Run(s, [Begin(input), Look(|s.calls|), ParseAndStore(|s.calls|)]) == Parsed(s, input, ts)
  {
    var x := [Begin(input), Look(|s.calls|), ParseAndStore(|s.calls|)];
    RunOne(s, x);
    assert x[1..] == [Look(|s.calls|), ParseAndStore(|s.calls|)];
    RunTwo(With(s, input, Started), Look(|s.calls|), ParseAndStore(|s.calls|));
    AloneLooks(s, input, ts);
  }

  /** The next value of the key's counter, rendered. */
  function Allocated(s: State, input: Input, ts: seq<Token>): State
  {
    var key := KeyOf(ts, input);
    var n := Count(s.counters, key) + 1;
    State(s.cache[input.pattern := ts], s.counters[key := n], s.calls + [Call(input, Done(ts, n, RenderSpec(ts, VarsOf(input, n))))])
  }

  lemma AloneCounts(s: State, input: Input, ts: seq<Token>)
    ensures Run(Parsed(s, input, ts), [Increment(|s.calls|), Finish(|s.calls|)]) == Allocated(s, input, ts)
  {
    var key := KeyOf(ts, input);
    var n := Count(s.counters, key) + 1;
    var t := s.(cache := s.cache[input.pattern := ts], counters := s.counters[key := n]);
    RunTwo(Parsed(s, input, ts), Increment(|s.calls|), Finish(|s.calls|));
    SetLast(s, input, HasTokens(ts), Counted(ts, n));
    SetLast(t, input, Counted(ts, n), Done(ts, n, RenderSpec(ts, VarsOf(input, n))));
    assert Step(Parsed(s, input, ts), Increment(|s.calls|)) == With(t, input, Counted(ts, n));
  }

  /** Without interleaving, the steps of one call do exactly what Service.Allocate promises. */
  lemma AloneAllocates(s: State, input: Input, ts: seq<Token>)
    requires CacheOk(s.cache) && ValidInput(input) && Parse(input.pattern) == Ok(ts)
    ensures Run(s, Alone(input, |s.calls|)) == Allocated(s, input, ts)
  {
    var i := |s.calls|;
    AloneParses(s, input, ts);
    AloneCounts(s, input, ts);
    RunConcat(s, [Begin(input), Look(i), ParseAndStore(i)], [Increment(i), Finish(i)]);
    assert Alone(input, i) == [Begin(input), Look(i), ParseAndStore(i)] + [Increment(i), Finish(i)];
  }

  lemma TwiceAllocated(a: Input, b: Input, ts: seq<Token>)
    ensures var m := if KeyOf(ts, a) == KeyOf(ts, b) then 2 else 1;
            Allocated(Allocated(Init(map[]), a, ts), b, ts).calls ==
            [Call(a, Done(ts, 1, RenderSpec(ts, VarsOf(a, 1)))), Call(b, Done(ts, m, RenderSpec(ts, VarsOf(b, m))))]
  { }

  function ScopeOf(a: Input, ts: seq<Token>): Scope
  {
    Scope(ts, a.tenant, a.orgCode, a.fiscalLabel)
  }

  /** Two requests of one pattern, tenant, organisation and fiscal label. */
  predicate Alike(a: Input, b: Input)
  {
    a.pattern == b.pattern && a.tenant == b.tenant && a.orgCode == b.orgCode && a.fiscalLabel == b.fiscalLabel
  }

  lemma TwiceRuns(a: Input, b: Input, ts: seq<Token>)
    requires ValidInput(a) && ValidInput(b) && Parse(a.pattern) == Ok(ts) && a.pattern == b.pattern
    ensures var m := if KeyOf(ts, a) == KeyOf(ts, b) then 2 else 1;
            Run(Init(map[]), Alone(a, 0) + Alone(b, 1)).calls ==
            [Call(a, Done(ts, 1, RenderSpec(ts, VarsOf(a, 1)))), Call(b, Done(ts, m, RenderSpec(ts, VarsOf(b, m))))]
  {
    AloneAllocates(Init(map[]), a, ts);
    AloneAllocates(Allocated(Init(map[]), a, ts), b, ts);
    RunConcat(Init(map[]), Alone(a, 0), Alone(b, 1));
    TwiceAllocated(a, b, ts);
  }

  /** Two calls in one scope whose second value renders like the first. */
  lemma Collide(a: Input, b: Input, ts: seq<Token>)
    requires ValidInput(a) && ValidInput(b) && Parse(a.pattern) == Ok(ts) && Alike(a, b)
    requires RenderSpec(ts, VarsOf(a, 1)) == RenderSpec(ts, VarsOf(b, if KeyOf(ts, a) == KeyOf(ts, b) then 2 else 1))
    ensures !UniqueFor(a.pattern, ScopeOf(a, ts))
  {
    TwiceRuns(a, b, ts);
    var actions := Alone(a, 0) + Alone(b, 1);
    assert Uses(map[], actions, 0, a.pattern) && Uses(map[], actions, 1, a.pattern);
    assert Repeats(map[], actions, 0, 1, ScopeOf(a, ts));
  }

  /** Dates that differ only in what the pattern hides render alike but count separately. */
  lemma HiddenPeriodRepeats(ts: seq<Token>, a: Input, b: Input)
    requires ValidInput(a) && ValidInput(b) && Parse(a.pattern) == Ok(ts) && Alike(a, b)
    requires a.now.year != b.now.year || a.now.month != b.now.month
    requires forall i :: 0 <= i < |ts| ==> RenderToken(ts[i], VarsOf(a, 1)) == RenderToken(ts[i], VarsOf(b, 1))
    ensures !UniqueFor(a.pattern, ScopeOf(a, ts))
  {
    RenderCongruent(ts, VarsOf(a, 1), VarsOf(b, 1));
    if KeyOf(ts, a) == KeyOf(ts, b) {
      KeyDecodes(a.tenant, Prefix(ts, VarsOf(a, 0)), a.now, b.tenant, Prefix(ts, VarsOf(b, 0)), b.now);
    }
    Collide(a, b, ts);
  }

  predicate SameButCentury(a: Instant, b: Instant)
  {
    a.month == b.month && a.day == b.day && a.year % 100 == b.year % 100
  }

  /** Only month tokens see the month, and only four-digit years see the century. */
  lemma HiddenToken(t: Token, a: Input, b: Input, n: nat)
    requires Alike(a, b) && a.now.day == b.now.day
    ensures !t.MM? && !t.YYYYMM? && a.now.year == b.now.year ==> RenderToken(t, VarsOf(a, n)) == RenderToken(t, VarsOf(b, n))
    ensures !t.YYYY? && !t.YYYYMM? && (t.FY? ==> a.fiscalLabel != "") && SameButCentury(a.now, b.now) ==>
              RenderToken(t, VarsOf(a, n)) == RenderToken(t, VarsOf(b, n))
  { }

  lemma HiddenIsRepeated(pattern: string, scope: Scope)
    requires |scope.tenant| == 36 && Parse(pattern) == Ok(scope.ts) && !ShowsAll(scope.ts, scope.fiscalLabel)
    ensures !UniqueFor(pattern, scope)
  {
    var ts := scope.ts;
    var a := Input(scope.tenant, pattern, scope.orgCode, scope.fiscalLabel, Instant(2026, 7, 1));
    assert ScopeOf(a, ts) == scope;
    if !HasSEQ(ts) {
      NoSequenceRepeats(ts, a);
    } else if !ShowsMonth(ts) {
      NextMonthRepeats(ts, a);
    } else {
      NextCenturyRepeats(ts, a);
    }
  }

  lemma NoSequenceRepeats(ts: seq<Token>, a: Input)
    requires ValidInput(a) && Parse(a.pattern) == Ok(ts) && !HasSEQ(ts)
    ensures !UniqueFor(a.pattern, ScopeOf(a, ts))
  {
    forall i | 0 <= i < |ts| ensures RenderToken(ts[i], VarsOf(a, 1)) == RenderToken(ts[i], VarsOf(a, 2)) {
      IgnoresSequence(ts[i], VarsOf(a, 1));
      IgnoresSequence(ts[i], VarsOf(a, 2));
    }
    RenderCongruent(ts, VarsOf(a, 1), VarsOf(a, 2));
    Collide(a, a, ts);
  }

  lemma NextMonthRepeats(ts: seq<Token>, a: Input)
    requires ValidInput(a) && Parse(a.pattern) == Ok(ts) && !ShowsMonth(ts) && a.now.month < 12
    ensures !UniqueFor(a.pattern, ScopeOf(a, ts))
  {
    var b := a.(now := a.now.(month := a.now.month + 1));
    forall i | 0 <= i < |ts| ensures RenderToken(ts[i], VarsOf(a, 1)) == RenderToken(ts[i], VarsOf(b, 1)) {
      HiddenToken(ts[i], a, b, 1);
    }
    HiddenPeriodRepeats(ts, a, b);
  }

  lemma SameCentury(y: nat)
    ensures (y + 100) % 100 == y % 100
  { }

  lemma NextCenturyRepeats(ts: seq<Token>, a: Input)
    requires ValidInput(a) && Parse(a.pattern) == Ok(ts) && !ShowsYear(ts, a.fiscalLabel) && a.now.year < 9000
    ensures !UniqueFor(a.pattern, ScopeOf(a, ts))
  {
    var b := a.(now := a.now.(year := a.now.year + 100));
    SameCentury(a.now.year);
    forall i | 0 <= i < |ts| ensures RenderToken(ts[i], VarsOf(a, 1)) == RenderToken(ts[i], VarsOf(b, 1)) {
      HiddenToken(ts[i], a, b, 1);
    }
    HiddenPeriodRepeats(ts, a, b);
  }

  /** For every pattern that parses: over all interleaved runs, tenants and patterns mixed, the
      identifiers of all patterns that mean its tokens are jointly unique exactly when they have a
      sequence token and show the four-digit year and the month; and exactly then are those of the
      one pattern unique. */
  lemma UniqueIff(pattern: string, scope: Scope)
    requires |scope.tenant| == 36 && Parse(pattern) == Ok(scope.ts)
    ensures UniqueIdentifiers(scope) <==> ShowsAll(scope.ts, scope.fiscalLabel)
    ensures UniqueFor(pattern, scope) <==> ShowsAll(scope.ts, scope.fiscalLabel)
  {
    if ShowsAll(scope.ts, scope.fiscalLabel) {
      ShowingIsUnique(scope);
    } else {
      HiddenIsRepeated(pattern, scope);
    }
  }

  /** The same read off a token list: every normal list is the parse of its own spelling. */
  lemma NormalUniqueIff(scope: Scope)
    requires |scope.tenant| == 36 && Normal(scope.ts)
    ensures UniqueIdentifiers(scope) <==> ShowsAll(scope.ts, scope.fiscalLabel)
  {
    RoundTrip(scope.ts);
    UniqueIff(SpellAll(scope.ts), scope);
  }

  /** Counters are isolated: two calls that took the same value of one counter would have the same
      tenant, prefix and month, and there are no two such calls. */
  lemma SeriesIsolated(start: map<string, nat>, actions: seq<Action>, i: nat, j: nat)
    requires i < |Run(Init(start), actions).calls| && j < |Run(Init(start), actions).calls|
    requires var c, d := Run(Init(start), actions).calls[i], Run(Init(start), actions).calls[j];
             SlotOf(c).Slot? && SlotOf(d).Slot? && SlotOf(c).key == SlotOf(d).key
    ensures var c, d := Run(Init(start), actions).calls[i], Run(Init(start), actions).calls[j];
            && c.input.tenant == d.input.tenant
            && Prefix(c.phase.ts, VarsOf(c.input, 0)) == Prefix(d.phase.ts, VarsOf(d.input, 0))
            && c.input.now.year == d.input.now.year && c.input.now.month == d.input.now.month
            && (i != j ==> SlotOf(c).n != SlotOf(d).n)
  {
    RunsAreSound(start, actions);
    var calls := Run(Init(start), actions).calls;
    var c, d := calls[i], calls[j];
    assert CallOk(c) && CallOk(d);
    KeyDecodes(c.input.tenant, Prefix(c.phase.ts, VarsOf(c.input, 0)), c.input.now,
               d.input.tenant, Prefix(d.phase.ts, VarsOf(d.input, 0)), d.input.now);
  }
}
