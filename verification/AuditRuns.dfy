/** Mutations in flight together: each is a transaction of its own that begins, persists, writes its
    audit record, runs its hooks and commits or rolls back (awo/api/service/entity.go:53-157), and the
    steps of different requests interleave freely. The audit flag is loaded once, by whichever request
    writes first (awo/audit/transactional_writer.go:113-125). */
module AuditRuns {
  import opened Options
  import opened AuditTransaction

  /** A writer's panic passes WithTx, which defers no rollback: the transaction is left hanging. */
  datatype Phase = Issued | Open | Persisted | Flagged | AuditDone | Ready | Failing | Committed | RolledBack | Hanging

  /** A request in flight: its transaction's buffer, how many rows it wrote outside it, and the flag it saw. */
  datatype Call = Call(r: Request, phase: Phase, tx: Transaction, outside: nat, seen: Option<bool>)

  datatype State = State(mutations: seq<Mutation>, auditLog: seq<AuditRow>, flag: Option<bool>, calls: seq<Call>)

  datatype Action = Issue(r: Request) | Move(i: nat)

  /** What one step of a call does: its next phase, the flag, and what becomes durable. */
  datatype Effect = Effect(call: Call, flag: Option<bool>, mutates: bool, rows: seq<AuditRow>)

  function Go(c: Call, p: Phase, flag: Option<bool>): Effect
  {
    Effect(c.(phase := p), flag, false, [])
  }

  /** The audit write of a call that found the flag on. */
  function Insert(setup: Setup, i: nat, c: Call, flag: Option<bool>): Effect
  {
    var category := ConfigFor(setup, c.r.entity).category;
    match WriteEffect(setup, true, category, c.r)
    case Skipped => Go(c, AuditDone, flag)
    case Refused =>
      if Propagates(category) then Go(c, Failing, flag)
      else Go(c.(tx := c.tx.(doomed := Dooms(setup, true, c.r))), AuditDone, flag)
    case InTransaction => Go(c.(tx := c.tx.(rows := c.tx.rows + [RowFor(setup, i, c.r)])), AuditDone, flag)
    case Autocommitted => Effect(c.(phase := AuditDone, outside := c.outside + 1), flag, false, [RowFor(setup, i, c.r)])
    case Exploded => Go(c, Hanging, flag)
  }

  /** The next step of a call. */
  function Advance(setup: Setup, i: nat, c: Call, flag: Option<bool>): Effect
  {
    match c.phase
    case Issued => Go(c, if c.r.beginOk then Open else RolledBack, flag)
    case Open => Go(c, if c.r.persistOk then Persisted else Failing, flag)
    case Persisted =>
      if !Audited(setup, c.r.entity) then Go(c, AuditDone, flag)
      else
        var on := if flag.Some? then flag.value else c.r.flagLoads;
        Go(c.(seen := Some(on)), if on then Flagged else AuditDone, Some(on))
    case Flagged => Insert(setup, i, c, flag)
    case AuditDone => Go(c, if HooksPass(setup, c.r) then Ready else Failing, flag)
    case Ready =>
      if c.r.commitOk && !c.tx.doomed then Effect(c.(phase := Committed), flag, true, c.tx.rows) else Go(c, RolledBack, flag)
    case Failing => Go(c, RolledBack, flag)
    case Committed => Go(c, Committed, flag)
    case RolledBack => Go(c, RolledBack, flag)
    case Hanging => Go(c, Hanging, flag)
  }

  function MutationOf(i: nat, r: Request): Mutation
  {
    Mutation(i, r.entity, r.recordId, r.operation)
  }

  function Step(setup: Setup, s: State, a: Action): State
  {
    match a
    case Issue(r) => s.(calls := s.calls + [Call(r, Issued, Transaction([], false), 0, None)])
    case Move(i) =>
      if i >= |s.calls| then s
      else
        var e := Advance(setup, i, s.calls[i], s.flag);
        State(if e.mutates then s.mutations + [MutationOf(i, s.calls[i].r)] else s.mutations,
              s.auditLog + e.rows, e.flag, s.calls[i := e.call])
  }

  function Run(setup: Setup, s: State, actions: seq<Action>): State
    decreases |actions|
  {
    if actions == [] then s else Run(setup, Step(setup, s, actions[0]), actions[1..])
  }

  function Init(): State
  {
    State([], [], None, [])
  }

  // ---------------------------------------------------------------------------
  // What every step keeps.

  /** The flag as the call met it. */
  function SeenOn(c: Call): bool
  {
    c.seen == Some(true)
  }

  /** Rows of the call that are durable. */
  function Stored(c: Call): nat
  {
    c.outside + if c.phase == Committed then |c.tx.rows| else 0
  }

  predicate Past(c: Call)
  {
    c.phase in {AuditDone, Ready, Committed}
  }

  /** The audit write did what the specification says. */
  predicate Wrote(setup: Setup, i: nat, c: Call)
  {
    var a := AuditEffect(setup, SeenOn(c), c.r);
    && c.tx == Transaction(if a == InTransaction then [RowFor(setup, i, c.r)] else [], Dooms(setup, SeenOn(c), c.r))
    && c.outside == (if a == Autocommitted then 1 else 0)
    && a != Exploded && !(a == Refused && Propagates(ConfigFor(setup, c.r.entity).category))
  }

  /** The call got as far as the writer, and the writer panicked. */
  predicate Panics(setup: Setup, c: Call)
  {
    c.r.beginOk && c.r.persistOk && AuditEffect(setup, SeenOn(c), c.r) == Exploded
  }

  predicate Untouched(c: Call)
  {
    c.tx == Transaction([], false) && c.outside == 0
  }

  /** The phase a call is in tells what has happened. */
  predicate PhaseOk(setup: Setup, i: nat, c: Call)
  {
    && (c.phase in {Issued, Open, Persisted} ==> Untouched(c) && c.seen.None?)
    && (c.phase == Flagged ==> Untouched(c) && SeenOn(c) && Audited(setup, c.r.entity))
    && (c.phase in {Open, Persisted, Flagged, AuditDone, Ready, Committed} ==> c.r.beginOk)
    && (c.phase in {Persisted, Flagged, AuditDone, Ready, Committed} ==> c.r.persistOk)
    && (Past(c) ==> Wrote(setup, i, c) && (Audited(setup, c.r.entity) <==> c.seen.Some?))
    && (c.phase == Ready ==> HooksPass(setup, c.r))
    && (c.phase == Committed ==> Commits(setup, SeenOn(c), c.r))
    && (c.phase in {Failing, RolledBack, Hanging} ==> !Commits(setup, SeenOn(c), c.r) && |c.tx.rows| + c.outside <= 1)
    && (c.phase == Hanging ==> Untouched(c) && Panics(setup, c))
    && (c.phase in {Failing, RolledBack} ==> !Panics(setup, c))
    && (c.outside > 0 ==> !setup.txQuerier && setup.fallback && c.outside == 1 && Writable(setup, c.r.entity))
    && (forall k :: 0 <= k < |c.tx.rows| ==> c.tx.rows[k] == RowFor(setup, i, c.r))
  }

  predicate CallOk(setup: Setup, i: nat, c: Call, flag: Option<bool>)
  {
    PhaseOk(setup, i, c) && (c.seen.Some? ==> flag == c.seen)
  }

  /** The step keeps what is known of the call, loads the flag at most once, and makes durable exactly
      what the call then counts as stored. */
  predicate Sound(setup: Setup, i: nat, c: Call, flag: Option<bool>, e: Effect)
  {
    && CallOk(setup, i, e.call, e.flag) && e.call.r == c.r
    && (flag.Some? ==> e.flag == flag)
    && Stored(e.call) == Stored(c) + |e.rows|
    && (e.mutates <==> c.phase != Committed && e.call.phase == Committed)
    && (c.phase == Committed ==> e.call.phase == Committed)
    && |e.rows| <= 1 && forall k :: 0 <= k < |e.rows| ==> e.rows[k] == RowFor(setup, i, c.r)
  }

  lemma EarlyOk(setup: Setup, i: nat, c: Call, flag: Option<bool>)
    requires CallOk(setup, i, c, flag) && c.phase in {Issued, Open, Failing, Committed, RolledBack, Hanging}
    ensures Sound(setup, i, c, flag, Advance(setup, i, c, flag))
  { }

  lemma ConsultOk(setup: Setup, i: nat, c: Call, flag: Option<bool>)
    requires CallOk(setup, i, c, flag) && c.phase == Persisted
    ensures Sound(setup, i, c, flag, Advance(setup, i, c, flag))
  { }

  lemma InsertOk(setup: Setup, i: nat, c: Call, flag: Option<bool>)
    requires CallOk(setup, i, c, flag) && c.phase == Flagged
    ensures Sound(setup, i, c, flag, Advance(setup, i, c, flag))
  {
    var a := WriteEffect(setup, true, ConfigFor(setup, c.r.entity).category, c.r);
    assert a == AuditEffect(setup, SeenOn(c), c.r);
    if a in {InTransaction, Autocommitted} { InsertedOk(setup, i, c, flag); } else { RefusedOk(setup, i, c, flag); }
  }

  lemma InsertedOk(setup: Setup, i: nat, c: Call, flag: Option<bool>)
    requires CallOk(setup, i, c, flag) && c.phase == Flagged && AuditEffect(setup, true, c.r) in {InTransaction, Autocommitted}
    ensures Sound(setup, i, c, flag, Insert(setup, i, c, flag))
  {
    var row := RowFor(setup, i, c.r);
    assert c.tx.rows + [row] == [row];
    assert !Dooms(setup, true, c.r);
  }

  lemma RefusedOk(setup: Setup, i: nat, c: Call, flag: Option<bool>)
    requires CallOk(setup, i, c, flag) && c.phase == Flagged && AuditEffect(setup, true, c.r) in {Refused, Exploded}
    ensures Sound(setup, i, c, flag, Insert(setup, i, c, flag))
  { }

  lemma HooksOk(setup: Setup, i: nat, c: Call, flag: Option<bool>)
    requires CallOk(setup, i, c, flag) && c.phase == AuditDone
    ensures Sound(setup, i, c, flag, Advance(setup, i, c, flag))
  { }

  lemma FinishOk(setup: Setup, i: nat, c: Call, flag: Option<bool>)
    requires CallOk(setup, i, c, flag) && c.phase == Ready
    ensures Sound(setup, i, c, flag, Advance(setup, i, c, flag))
  { }

  lemma AdvanceOk(setup: Setup, i: nat, c: Call, flag: Option<bool>)
    requires CallOk(setup, i, c, flag)
    ensures Sound(setup, i, c, flag, Advance(setup, i, c, flag))
  {
    match c.phase
    case Persisted => ConsultOk(setup, i, c, flag);
    case Flagged => InsertOk(setup, i, c, flag);
    case AuditDone => HooksOk(setup, i, c, flag);
    case Ready => FinishOk(setup, i, c, flag);
    case _ => EarlyOk(setup, i, c, flag);
  }

  /** How many rows of the log stem from request `i`. */
  ghost function CountRows(log: seq<AuditRow>, i: nat): nat
  {
    |set k | 0 <= k < |log| && log[k].cause == i|
  }

  ghost function CountMutations(log: seq<Mutation>, i: nat): nat
  {
    |set k | 0 <= k < |log| && log[k].cause == i|
  }

  lemma RowsAppend(log: seq<AuditRow>, row: AuditRow, i: nat)
    ensures CountRows(log + [row], i) == CountRows(log, i) + if row.cause == i then 1 else 0
  {
    var was := set k | 0 <= k < |log| && log[k].cause == i;
    var now := set k | 0 <= k < |log + [row]| && (log + [row])[k].cause == i;
    assert now == was + if row.cause == i then {|log|} else {};
  }

  lemma MutationsAppend(log: seq<Mutation>, m: Mutation, i: nat)
    ensures CountMutations(log + [m], i) == CountMutations(log, i) + if m.cause == i then 1 else 0
  {
    var was := set k | 0 <= k < |log| && log[k].cause == i;
    var now := set k | 0 <= k < |log + [m]| && (log + [m])[k].cause == i;
    assert now == was + if m.cause == i then {|log|} else {};
  }

  ghost predicate CallsOk(setup: Setup, s: State)
  {
    forall i :: 0 <= i < |s.calls| ==> CallOk(setup, i, s.calls[i], s.flag)
  }

  /** The durable logs hold what the calls count as stored, and nothing else. */
  ghost predicate RowsOk(setup: Setup, log: seq<AuditRow>, calls: seq<Call>)
  {
    && (forall i :: 0 <= i < |calls| ==> CountRows(log, i) == Stored(calls[i]))
    && (forall k :: 0 <= k < |log| ==> log[k].cause < |calls| && log[k] == RowFor(setup, log[k].cause, calls[log[k].cause].r))
  }

  ghost predicate MutationsOk(log: seq<Mutation>, calls: seq<Call>)
  {
    && (forall i :: 0 <= i < |calls| ==> CountMutations(log, i) == if calls[i].phase == Committed then 1 else 0)
    && (forall k :: 0 <= k < |log| ==> log[k].cause < |calls| && log[k] == MutationOf(log[k].cause, calls[log[k].cause].r))
  }

  ghost predicate Inv(setup: Setup, s: State)
  {
    CallsOk(setup, s) && RowsOk(setup, s.auditLog, s.calls) && MutationsOk(s.mutations, s.calls)
  }

  lemma IssueKeepsInv(setup: Setup, s: State, r: Request)
    requires Inv(setup, s)
    ensures Inv(setup, Step(setup, s, Issue(r)))
  {
    var n := |s.calls|;
    assert CountRows(s.auditLog, n) == 0 by { assert (set k | 0 <= k < |s.auditLog| && s.auditLog[k].cause == n) == {}; }
    assert CountMutations(s.mutations, n) == 0 by { assert (set k | 0 <= k < |s.mutations| && s.mutations[k].cause == n) == {}; }
  }

  lemma RowsKept(setup: Setup, log: seq<AuditRow>, calls: seq<Call>, i: nat, c: Call, rows: seq<AuditRow>)
    requires RowsOk(setup, log, calls) && i < |calls| && c.r == calls[i].r
    requires |rows| <= 1 && (forall k :: 0 <= k < |rows| ==> rows[k] == RowFor(setup, i, c.r)) && Stored(c) == Stored(calls[i]) + |rows|
    ensures RowsOk(setup, log + rows, calls[i := c])
  {
    var calls' := calls[i := c];
    forall j | 0 <= j < |calls| ensures CountRows(log + rows, j) == Stored(calls'[j]) {
      if rows == [] {
        assert log + rows == log;
      } else {
        assert rows == [rows[0]];
        RowsAppend(log, rows[0], j);
      }
    }
    var log' := log + rows;
    forall k | 0 <= k < |log'| ensures log'[k].cause < |calls'| && log'[k] == RowFor(setup, log'[k].cause, calls'[log'[k].cause].r) {
      assert k >= |log| ==> log'[k] == rows[k - |log|];
    }
  }

  lemma MutationsKept(log: seq<Mutation>, calls: seq<Call>, i: nat, c: Call, mutates: bool)
    requires MutationsOk(log, calls) && i < |calls| && c.r == calls[i].r
    requires mutates <==> calls[i].phase != Committed && c.phase == Committed
    requires calls[i].phase == Committed ==> c.phase == Committed
    ensures MutationsOk(if mutates then log + [MutationOf(i, c.r)] else log, calls[i := c])
  {
    if mutates {
      var m, calls' := MutationOf(i, c.r), calls[i := c];
      forall j | 0 <= j < |calls| ensures CountMutations(log + [m], j) == if calls'[j].phase == Committed then 1 else 0 {
        MutationsAppend(log, m, j);
      }
    }
  }

  lemma MoveKeepsInv(setup: Setup, s: State, i: nat)
    requires Inv(setup, s) && i < |s.calls|
    ensures Inv(setup, Step(setup, s, Move(i)))
  {
    var c := s.calls[i];
    var e := Advance(setup, i, c, s.flag);
    AdvanceOk(setup, i, c, s.flag);
    RowsKept(setup, s.auditLog, s.calls, i, e.call, e.rows);
    MutationsKept(s.mutations, s.calls, i, e.call, e.mutates);
    var calls := s.calls[i := e.call];
    forall j | 0 <= j < |calls| ensures CallOk(setup, j, calls[j], e.flag) {
      assert CallOk(setup, j, s.calls[j], s.flag);
    }
  }

  lemma {:induction false} RunKeepsInv(setup: Setup, s: State, actions: seq<Action>)
    requires Inv(setup, s)
    ensures Inv(setup, Run(setup, s, actions))
    decreases |actions|
  {
    if actions != [] {
      match actions[0] {
        case Issue(r) => IssueKeepsInv(setup, s, r);
        case Move(i) => if i < |s.calls| { MoveKeepsInv(setup, s, i); }
      }
      RunKeepsInv(setup, Step(setup, s, actions[0]), actions[1..]);
    }
  }

  // ---------------------------------------------------------------------------
  // What holds of all runs.

  /** At every moment of every interleaved run: a mutation is stored exactly when its request has
      committed; no request has two audit rows; a committed mutation of an audited ADMIN or SECURITY
      entity with the flag on has exactly one; and a request that has not committed has none, unless
      the writer falls back to a connection outside the transaction. */
  lemma AuditedOnce(setup: Setup, actions: seq<Action>, i: nat)
    requires i < |Run(setup, Init(), actions).calls|
    ensures var s := Run(setup, Init(), actions);
            var c := s.calls[i];
            && CountMutations(s.mutations, i) == (if c.phase == Committed then 1 else 0)
            && CountRows(s.auditLog, i) <= 1
            && ((setup.txQuerier || !setup.fallback) && c.phase != Committed ==> CountRows(s.auditLog, i) == 0)
            && (c.phase == Committed && IsAudited(setup, c.r.entity) && MustPropagate(setup, c.r.entity) && s.flag == Some(true) ==>
                  CountRows(s.auditLog, i) == 1)
  {
    RunKeepsInv(setup, Init(), actions);
    var s := Run(setup, Init(), actions);
    assert CallOk(setup, i, s.calls[i], s.flag);
    OneRowAtMost(setup, i, s.calls[i], s.flag);
  }

  lemma OneRowAtMost(setup: Setup, i: nat, c: Call, flag: Option<bool>)
    requires CallOk(setup, i, c, flag)
    ensures Stored(c) <= 1 && ((setup.txQuerier || !setup.fallback) && c.phase != Committed ==> Stored(c) == 0)
    ensures c.phase == Committed && Sensitive(setup, c.r.entity) && flag == Some(true) ==> Stored(c) == 1
  {
    if c.phase == Committed && Sensitive(setup, c.r.entity) && flag == Some(true) { SensitiveNeedsRecord(setup, c.r); }
  }

  /** Every row of every run carries the data of the request it stems from, and every mutation too. */
  lemma LogsMatch(setup: Setup, actions: seq<Action>, k: nat)
    ensures var s := Run(setup, Init(), actions);
            && (k < |s.auditLog| ==>
                  var row := s.auditLog[k]; row.cause < |s.calls| && Records(setup, row.cause, s.calls[row.cause].r, row))
            && (k < |s.mutations| ==>
                  var m := s.mutations[k];
                  && m.cause < |s.calls| && m.entity == s.calls[m.cause].r.entity
                  && m.recordId == s.calls[m.cause].r.recordId && m.operation == s.calls[m.cause].r.operation)
  {
    RunKeepsInv(setup, Init(), actions);
    var s := Run(setup, Init(), actions);
    if k < |s.auditLog| { RecordsIff(setup, s.auditLog[k].cause, s.calls[s.auditLog[k].cause].r, s.auditLog[k]); }
  }

  /** However requests interleave, one that has ended has committed exactly if its own outcomes and the
      flag it saw let it, and a committed one of an audited entity saw the flag that all others see. */
  lemma EndsAsDecided(setup: Setup, actions: seq<Action>, i: nat)
    requires i < |Run(setup, Init(), actions).calls|
    ensures var s := Run(setup, Init(), actions);
            var c := s.calls[i];
            Ended(c) ==>
              && (c.seen.Some? ==> c.seen == s.flag) && (c.phase == Committed ==> (c.seen.Some? <==> IsAudited(setup, c.r.entity)))
              && (c.phase == Committed <==> MayCommit(setup, c.seen == Some(true), c.r))
              && (c.phase == Hanging <==> c.r.beginOk && c.r.persistOk && Means(setup, c.seen == Some(true), c.r, Exploded))
  {
    RunKeepsInv(setup, Init(), actions);
    var s := Run(setup, Init(), actions);
    var c := s.calls[i];
    assert CallOk(setup, i, c, s.flag);
    CommitsIff(setup, SeenOn(c), c.r);
    EffectIff(setup, SeenOn(c), c.r, Exploded);
  }

  // ---------------------------------------------------------------------------
  // One request alone.

  function Moves(setup: Setup, s: State, i: nat, n: nat): State
    decreases n
  {
    if n == 0 then s else Moves(setup, Step(setup, s, Move(i)), i, n - 1)
  }

  ghost function Durable(s: State): World
  {
    World(s.mutations, s.auditLog, s.flag)
  }

  predicate Ended(c: Call)
  {
    c.phase in {Committed, RolledBack, Hanging}
  }

  lemma {:induction false} StaysEnded(setup: Setup, s: State, i: nat, n: nat)
    requires i < |s.calls| && Ended(s.calls[i])
    ensures Durable(Moves(setup, s, i, n)) == Durable(s)
    decreases n
  {
    if n > 0 {
      assert s.auditLog + [] == s.auditLog;
      StaysEnded(setup, Step(setup, s, Move(i)), i, n - 1);
    }
  }

  lemma FromFailing(setup: Setup, s: State, i: nat, n: nat)
    requires i < |s.calls| && s.calls[i].phase == Failing && n >= 1
    ensures Durable(Moves(setup, s, i, n)) == Durable(s)
  {
    assert s.auditLog + [] == s.auditLog;
    StaysEnded(setup, Step(setup, s, Move(i)), i, n - 1);
  }

  lemma FromReady(setup: Setup, s: State, i: nat, n: nat)
    requires i < |s.calls| && s.calls[i].phase == Ready && n >= 1
    ensures var c := s.calls[i];
            Durable(Moves(setup, s, i, n)) ==
            if c.r.commitOk && !c.tx.doomed then World(s.mutations + [MutationOf(i, c.r)], s.auditLog + c.tx.rows, s.flag) else Durable(s)
  {
    assert s.auditLog + [] == s.auditLog;
    StaysEnded(setup, Step(setup, s, Move(i)), i, n - 1);
  }

  lemma FromAuditDone(setup: Setup, s: State, i: nat, n: nat)
    requires i < |s.calls| && s.calls[i].phase == AuditDone && n >= 2
    ensures var c := s.calls[i];
            Durable(Moves(setup, s, i, n)) ==
            if HooksPass(setup, c.r) && c.r.commitOk && !c.tx.doomed
            then World(s.mutations + [MutationOf(i, c.r)], s.auditLog + c.tx.rows, s.flag)
            else Durable(s)
  {
    assert s.auditLog + [] == s.auditLog;
    var t := Step(setup, s, Move(i));
    if HooksPass(setup, s.calls[i].r) { FromReady(setup, t, i, n - 1); } else { FromFailing(setup, t, i, n - 1); }
  }

  lemma FromFlagged(setup: Setup, s: State, i: nat, n: nat)
    requires i < |s.calls| && s.calls[i].phase == Flagged && Untouched(s.calls[i]) && n >= 3
    requires Audited(setup, s.calls[i].r.entity) && s.calls[i].r.beginOk && s.calls[i].r.persistOk && s.flag == Some(true)
    ensures Durable(Moves(setup, s, i, n)) == After(setup, Durable(s), i, s.calls[i].r)
  {
    var c := s.calls[i];
    var t := Step(setup, s, Move(i));
    assert s.auditLog + [] == s.auditLog;
    assert [] + [RowFor(setup, i, c.r)] == [RowFor(setup, i, c.r)];
    if t.calls[i].phase == Failing {
      FromFailing(setup, t, i, n - 1);
    } else if t.calls[i].phase == Hanging {
      StaysEnded(setup, t, i, n - 1);
    } else {
      FromAuditDone(setup, t, i, n - 1);
    }
    AppendNothing(t);
  }

  lemma AppendNothing(s: State)
    ensures s.auditLog + [] == s.auditLog
  { }

  lemma FromPersisted(setup: Setup, s: State, i: nat, n: nat)
    requires i < |s.calls| && s.calls[i].phase == Persisted && Untouched(s.calls[i]) && n >= 4
    requires s.calls[i].r.beginOk && s.calls[i].r.persistOk
    ensures Durable(Moves(setup, s, i, n)) == After(setup, Durable(s), i, s.calls[i].r)
  {
    var t := Step(setup, s, Move(i));
    AppendNothing(s);
    if t.calls[i].phase == Flagged { FromFlagged(setup, t, i, n - 1); } else { FromAuditDone(setup, t, i, n - 1); }
  }

  /** Without interleaving, the steps of one request do exactly what EntityService.Mutate promises. */
  lemma AloneMutates(setup: Setup, s: State, r: Request, n: nat)
    requires n >= 6
    ensures Durable(Moves(setup, Step(setup, s, Issue(r)), |s.calls|, n)) == After(setup, Durable(s), |s.calls|, r)
  {
    var i := |s.calls|;
    var issued := Step(setup, s, Issue(r));
    AppendNothing(s);
    var open := Step(setup, issued, Move(i));
    if !r.beginOk {
      StaysEnded(setup, open, i, n - 1);
    } else {
      var next := Step(setup, open, Move(i));
      if r.persistOk { FromPersisted(setup, next, i, n - 2); } else { FromFailing(setup, next, i, n - 2); }
    }
  }

  // ---------------------------------------------------------------------------
  // Rows without a mutation.

  ghost predicate RegisteredOnly(setup: Setup, actions: seq<Action>)
  {
    forall k :: 0 <= k < |actions| && actions[k].Issue? ==> actions[k].r.entity in setup.schemas
  }

  /** After the run, request `i` has ended without committing and yet left an audit row. */
  ghost predicate Orphan(setup: Setup, actions: seq<Action>, i: nat)
  {
    var s := Run(setup, Init(), actions);
    i < |s.calls| && Ended(s.calls[i]) && s.calls[i].phase != Committed && CountRows(s.auditLog, i) > 0
  }

  ghost predicate NoOrphans(setup: Setup)
  {
    forall actions, i: nat :: RegisteredOnly(setup, actions) ==> !Orphan(setup, actions, i)
  }

  /** No run over registered entities leaves an audit row of a mutation that was rolled back exactly
      when the transaction's connection executes the insert, or nothing else can, or no registered
      entity has anything to write. */
  lemma NoOrphansIff(setup: Setup)
    ensures NoOrphans(setup) <==>
            setup.txQuerier || !setup.fallback || forall e :: e in setup.schemas ==> !Writable(setup, e)
  {
    if setup.txQuerier || !setup.fallback {
      forall actions, i: nat | RegisteredOnly(setup, actions) ensures !Orphan(setup, actions, i) {
        if i < |Run(setup, Init(), actions).calls| { AuditedOnce(setup, actions, i); }
      }
    } else if e :| e in setup.schemas && Writable(setup, e) {
      OrphanLeft(setup, e);
    } else {
      forall actions, i: nat | RegisteredOnly(setup, actions) ensures !Orphan(setup, actions, i) {
        NothingWritten(setup, actions, i);
      }
    }
  }

  ghost predicate CallsRegistered(setup: Setup, s: State)
  {
    forall i :: 0 <= i < |s.calls| ==> s.calls[i].r.entity in setup.schemas
  }

  lemma {:induction false} RunRegistered(setup: Setup, s: State, actions: seq<Action>)
    requires CallsRegistered(setup, s) && RegisteredOnly(setup, actions)
    ensures CallsRegistered(setup, Run(setup, s, actions))
    decreases |actions|
  {
    if actions != [] {
      StepRegistered(setup, s, actions[0]);
      assert forall k :: 0 <= k < |actions[1..]| ==> actions[1..][k] == actions[k + 1];
      RunRegistered(setup, Step(setup, s, actions[0]), actions[1..]);
    }
  }

  lemma StepRegistered(setup: Setup, s: State, a: Action)
    requires CallsRegistered(setup, s) && (a.Issue? ==> a.r.entity in setup.schemas)
    ensures CallsRegistered(setup, Step(setup, s, a))
  {
    if a.Move? && a.i < |s.calls| { StepDescends(setup, s, a.i); }
  }

  lemma NothingWritten(setup: Setup, actions: seq<Action>, i: nat)
    requires RegisteredOnly(setup, actions) && forall e :: e in setup.schemas ==> !Writable(setup, e)
    ensures !Orphan(setup, actions, i)
  {
    RunKeepsInv(setup, Init(), actions);
    RunRegistered(setup, Init(), actions);
    var s := Run(setup, Init(), actions);
    if i < |s.calls| {
      assert CallOk(setup, i, s.calls[i], s.flag) && s.calls[i].r.entity in setup.schemas;
    }
  }

  lemma OrphanLeft(setup: Setup, e: string)
    requires !setup.txQuerier && setup.fallback && e in setup.schemas && Writable(setup, e)
    ensures !NoOrphans(setup)
  {
    var r := Smooth(e).(commitOk := false);
    var actions := [Issue(r)] + MoveList(0, 6);
    var issued := Step(setup, Init(), Issue(r));
    var s := Moves(setup, issued, 0, 6);
    assert actions[1..] == MoveList(0, 6);
    RunMoves(setup, issued, 0, 6);
    assert Run(setup, Init(), actions) == s;
    MovesEnd(setup, issued, 0, 6);
    AloneMutates(setup, Init(), r, 6);
    EndsAsDecided(setup, actions, 0);
    assert !Commits(setup, SeenOn(s.calls[0]), r);
    RowsAppend([], RowFor(setup, 0, r), 0);
    assert s.auditLog == [RowFor(setup, 0, r)] == [] + [RowFor(setup, 0, r)];
    assert RegisteredOnly(setup, actions) && Orphan(setup, actions, 0);
  }

  function MoveList(i: nat, n: nat): seq<Action>
  {
    seq(n, k => Move(i))
  }

  lemma {:induction false} RunMoves(setup: Setup, s: State, i: nat, n: nat)
    ensures Run(setup, s, MoveList(i, n)) == Moves(setup, s, i, n)
    decreases n
  {
    if n > 0 {
      assert MoveList(i, n)[0] == Move(i) && MoveList(i, n)[1..] == MoveList(i, n - 1);
      RunMoves(setup, Step(setup, s, Move(i)), i, n - 1);
    }
  }

  /** How many steps a call may still take. */
  function Rank(p: Phase): nat
  {
    match p
    case Issued => 6
    case Open => 5
    case Persisted => 4
    case Flagged => 3
    case AuditDone => 2
    case Ready => 1
    case Failing => 1
    case Committed => 0
    case RolledBack => 0
    case Hanging => 0
  }

  /** Every request ends after at most six steps of its own. */
  lemma {:induction false} MovesEnd(setup: Setup, s: State, i: nat, n: nat)
    requires i < |s.calls| && n >= Rank(s.calls[i].phase)
    ensures var t := Moves(setup, s, i, n); |t.calls| == |s.calls| && Ended(t.calls[i]) && t.calls[i].r == s.calls[i].r
    decreases n
  {
    if n > 0 {
      StepDescends(setup, s, i);
      MovesEnd(setup, Step(setup, s, Move(i)), i, n - 1);
    }
  }

  lemma StepDescends(setup: Setup, s: State, i: nat)
    requires i < |s.calls|
    ensures var t := Step(setup, s, Move(i));
            && |t.calls| == |s.calls| && t.calls[i].r == s.calls[i].r
            && (Rank(s.calls[i].phase) > 0 ==> Rank(t.calls[i].phase) < Rank(s.calls[i].phase))
            && (Rank(s.calls[i].phase) == 0 ==> Rank(t.calls[i].phase) == 0)
  { }
}
