/** One mutation with its audit record in one transaction: EntityService
    (awo/api/service/entity.go) over RunAuditRecord and the after-hooks of
    awo/runtime/pipeline.go, the failure policy of awo/audit/failure.go and the writer of
    awo/audit/transactional_writer.go. */
module AuditTransaction {

  import opened Options

  datatype Category = Unset | Data | Auth | Access | Admin | Workflow | System | Outbound | Security

  datatype Operation = Create | Update | Delete

  datatype Config = Config(enabled: bool, category: Category)

  datatype HookOutcome = HookOk | HookError | HookPanic

  /** What is fixed for a process: schemas with their AllowAudit flag, audit registrations, and
      whether the transaction's connection and a fallback can execute SQL for the writer, and whether
      the database refuses to commit a transaction in which a statement failed, as PostgreSQL does. */
  datatype Setup = Setup(schemas: map<string, bool>, configs: map<string, Config>, txQuerier: bool, fallback: bool, abortsOnError: bool)

  /** A mutation and everything its environment decides. `beforeSet` and `afterSet` say whether the
      record's data before and after it are there at all. */
  datatype Request = Request(
    entity: string, recordId: int, operation: Operation, tenantSet: bool, actorSet: bool,
    beforeSet: bool, afterSet: bool, beginOk: bool, persistOk: bool, flagLoads: bool, writerPanics: bool, marshalOk: bool, insertOk: bool,
    entityHooks: seq<HookOutcome>, saveHooks: seq<HookOutcome>, commitOk: bool)

  /** `cause` numbers the request a row stems from. */
  datatype Mutation = Mutation(cause: nat, entity: string, recordId: int, operation: Operation)

  datatype AuditRow = AuditRow(cause: nat, entity: string, recordId: int, operation: Operation, category: Category)

  datatype Result = Ok | Error | Panic

  // ---------------------------------------------------------------------------
  // Specification.

  function ConfigFor(setup: Setup, entity: string): Config
  {
    if entity in setup.configs then setup.configs[entity] else Config(true, Data)
  }

  /** PolicyFor: ADMIN and SECURITY failures propagate. */
  predicate Propagates(c: Category)
  {
    c == Admin || c == Security
  }

  /** The entity is audited at all. */
  predicate Audited(setup: Setup, entity: string)
  {
    (entity in setup.schemas ==> setup.schemas[entity]) && ConfigFor(setup, entity).enabled
  }

  /** AuditRecord.Validate; the pipeline never sets a system actor. */
  predicate ValidRecord(r: Request, c: Category)
  {
    r.tenantSet && r.entity != "" && c != Unset && r.actorSet
  }

  datatype Written = Skipped | Refused | InTransaction | Autocommitted | Exploded

  /** What TransactionalWriter.Write does with a record. */
  function WriteEffect(setup: Setup, flagOn: bool, c: Category, r: Request): Written
  {
    if !flagOn then Skipped
    else if !ValidRecord(r, c) then Refused
    else if r.writerPanics then Exploded
    else if !r.marshalOk || !r.insertOk then Refused
    else if setup.txQuerier then InTransaction
    else if setup.fallback then Autocommitted
    else Refused
  }

  /** The same for RunAuditRecord. */
  function AuditEffect(setup: Setup, flagOn: bool, r: Request): Written
  {
    if Audited(setup, r.entity) then WriteEffect(setup, flagOn, ConfigFor(setup, r.entity).category, r) else Skipped
  }

  predicate AllOk(hooks: seq<HookOutcome>)
  {
    forall i :: 0 <= i < |hooks| ==> hooks[i] == HookOk
  }

  /** The after-stage: unknown entities fail, deletes have no AfterSave. */
  predicate HooksPass(setup: Setup, r: Request)
  {
    r.entity in setup.schemas && AllOk(r.entityHooks) && (r.operation != Delete ==> AllOk(r.saveHooks))
  }

  /** The insert fails inside the transaction, which then can no longer commit. */
  predicate Dooms(setup: Setup, flagOn: bool, r: Request)
  {
    && setup.abortsOnError && setup.txQuerier && flagOn && Audited(setup, r.entity)
    && ValidRecord(r, ConfigFor(setup, r.entity).category) && !r.writerPanics && r.marshalOk && !r.insertOk
  }

  predicate Commits(setup: Setup, flagOn: bool, r: Request)
  {
    var a := AuditEffect(setup, flagOn, r);
    && r.beginOk && r.persistOk
    && a != Exploded && !(a == Refused && Propagates(ConfigFor(setup, r.entity).category))
    && HooksPass(setup, r) && r.commitOk && !Dooms(setup, flagOn, r)
  }

  /** What a transaction has buffered, and whether a failed statement keeps it from committing. */
  datatype Transaction = Transaction(rows: seq<AuditRow>, doomed: bool)

  datatype World = World(mutations: seq<Mutation>, auditLog: seq<AuditRow>, flag: Option<bool>)

  function FlagFor(w: World, r: Request): bool
  {
    if w.flag.Some? then w.flag.value else r.flagLoads
  }

  /** auditOperationFor: read off which of the two snapshots is missing. */
  function LoggedOperation(r: Request): Operation
  {
    if r.operation == Create || !r.beforeSet then Create
    else if r.operation == Delete || !r.afterSet then Delete
    else Update
  }

  /** The log names the operation that took place exactly when no snapshot it needs is missing. */
  lemma OperationLoggedIff(r: Request)
    ensures LoggedOperation(r) == r.operation <==> r.operation == Create || (r.beforeSet && (r.operation == Delete || r.afterSet))
  { }

  function RowFor(setup: Setup, cause: nat, r: Request): AuditRow
  {
    AuditRow(cause, r.entity, r.recordId, LoggedOperation(r), ConfigFor(setup, r.entity).category)
  }

  /** The durable effect of one request. */
  function After(setup: Setup, w: World, cause: nat, r: Request): World
  {
    var flagOn := FlagFor(w, r);
    var reached := r.beginOk && r.persistOk && Audited(setup, r.entity);
    var a := AuditEffect(setup, flagOn, r);
    var commits := Commits(setup, flagOn, r);
    World(
      if commits then w.mutations + [Mutation(cause, r.entity, r.recordId, r.operation)] else w.mutations,
      if (a == InTransaction && commits) || (a == Autocommitted && r.beginOk && r.persistOk)
      then w.auditLog + [RowFor(setup, cause, r)] else w.auditLog,
      if reached then Some(flagOn) else w.flag)
  }

  // ---------------------------------------------------------------------------
  // The same in the fields of the request and the setup. No operation below refers to these.

  /** The schema allows auditing and the registration, if there is one, is enabled. */
  ghost predicate IsAudited(setup: Setup, entity: string)
  {
    (entity in setup.schemas ==> setup.schemas[entity]) && (entity in setup.configs ==> setup.configs[entity].enabled)
  }

  /** A failed audit write must fail the mutation. */
  ghost predicate MustPropagate(setup: Setup, entity: string)
  {
    entity in setup.configs && setup.configs[entity].category in {Admin, Security}
  }

  /** The record names tenant, actor, entity and category. */
  ghost predicate Complete(setup: Setup, r: Request)
  {
    r.tenantSet && r.actorSet && r.entity != "" && !(r.entity in setup.configs && setup.configs[r.entity].category == Unset)
  }

  /** What each outcome of the audit stage means. */
  ghost predicate Means(setup: Setup, flagOn: bool, r: Request, a: Written)
  {
    var tried := flagOn && IsAudited(setup, r.entity) && Complete(setup, r) && !r.writerPanics;
    match a
    case Skipped => !flagOn || !IsAudited(setup, r.entity)
    case Exploded => flagOn && IsAudited(setup, r.entity) && Complete(setup, r) && r.writerPanics
    case InTransaction => tried && r.marshalOk && r.insertOk && setup.txQuerier
    case Autocommitted => tried && r.marshalOk && r.insertOk && !setup.txQuerier && setup.fallback
    case Refused =>
      && flagOn && IsAudited(setup, r.entity)
      && (!Complete(setup, r) || (tried && (!r.marshalOk || !r.insertOk || (!setup.txQuerier && !setup.fallback))))
  }

  lemma EffectIff(setup: Setup, flagOn: bool, r: Request, a: Written)
    ensures AuditEffect(setup, flagOn, r) == a <==> Means(setup, flagOn, r, a)
  { }

  /** The mutation commits: transaction and record are fine, every after-hook passes, AfterSave too for
      a create or update, the audit stage did not panic, an ADMIN or SECURITY record was written, and
      no failed insert has spoiled the transaction. */
  ghost predicate MayCommit(setup: Setup, flagOn: bool, r: Request)
  {
    && r.beginOk && r.persistOk && r.commitOk && r.entity in setup.schemas
    && (forall k :: 0 <= k < |r.entityHooks| ==> r.entityHooks[k] == HookOk)
    && (r.operation in {Create, Update} ==> forall k :: 0 <= k < |r.saveHooks| ==> r.saveHooks[k] == HookOk)
    && (flagOn && IsAudited(setup, r.entity) ==>
          && (Complete(setup, r) ==> !r.writerPanics)
          && (MustPropagate(setup, r.entity) ==>
                Complete(setup, r) && r.marshalOk && r.insertOk && (setup.txQuerier || setup.fallback))
          && !(Complete(setup, r) && r.marshalOk && !r.insertOk && setup.txQuerier && setup.abortsOnError))
  }

  lemma CommitsIff(setup: Setup, flagOn: bool, r: Request)
    ensures Commits(setup, flagOn, r) <==> MayCommit(setup, flagOn, r)
  { }

  /** The row records the request: who caused it, what it changed, and how. */
  ghost predicate Records(setup: Setup, cause: nat, r: Request, row: AuditRow)
  {
    && row.cause == cause && row.entity == r.entity && row.recordId == r.recordId
    && row.category == (if r.entity in setup.configs then setup.configs[r.entity].category else Data)
    && (row.operation == Create <==> r.operation == Create || !r.beforeSet)
    && (row.operation == Delete <==> r.operation != Create && r.beforeSet && (r.operation == Delete || !r.afterSet))
  }

  lemma RecordsIff(setup: Setup, cause: nat, r: Request, row: AuditRow)
    ensures Records(setup, cause, r, row) <==> row == RowFor(setup, cause, r)
  { }

  // ---------------------------------------------------------------------------
  // The service.

  class EntityService {
    const setup: Setup
    var mutations: seq<Mutation>
    var auditLog: seq<AuditRow>
    var flag: Option<bool>

    ghost function Durable(): World
      reads this
    {
      World(mutations, auditLog, flag)
    }

    constructor (setup: Setup)
      ensures Durable() == World([], [], None) && this.setup == setup
    {
      this.setup, mutations, auditLog, flag := setup, [], [], None;
    }

    /** Loads the flag once, validates, and inserts through the transaction if its connection can,
        otherwise through the auto-committing fallback. */
    method Write(rec: AuditRow, r: Request, tx: Transaction) returns (res: Result, tx': Transaction)
      requires rec.category == ConfigFor(setup, r.entity).category && Audited(setup, r.entity)
      modifies this`flag, this`auditLog
      ensures flag == if old(flag).None? then Some(r.flagLoads) else old(flag)
      ensures var a := WriteEffect(setup, flag.value, rec.category, r);
              && tx' == Transaction(if a == InTransaction then tx.rows + [rec] else tx.rows, tx.doomed || Dooms(setup, flag.value, r))
              && auditLog == (if a == Autocommitted then old(auditLog) + [rec] else old(auditLog))
              && (res == Error <==> a == Refused) && (res == Panic <==> a == Exploded)
    {
      res, tx' := Ok, tx;
      if flag.None? { flag := Some(r.flagLoads); }
      if !flag.value { return; }
      if !ValidRecord(r, rec.category) { return Error, tx; }
      if r.writerPanics { return Panic, tx; }
      if !r.marshalOk { return Error, tx; }
      if setup.txQuerier {
        if !r.insertOk { return Error, tx.(doomed := tx.doomed || setup.abortsOnError); }
        return Ok, tx.(rows := tx.rows + [rec]);
      }
      if !setup.fallback { return Error, tx; }
      if !r.insertOk { return Error, tx; }
      auditLog := auditLog + [rec];
    }

    /** RunAuditRecord with audit.Apply: a suppressed failure returns as success. */
    method RunAuditRecord(cause: nat, r: Request, tx: Transaction) returns (res: Result, tx': Transaction)
      modifies this`flag, this`auditLog
      ensures var flagOn := FlagFor(old(Durable()), r);
              var a := AuditEffect(setup, flagOn, r);
              && flag == (if Audited(setup, r.entity) then Some(flagOn) else old(flag))
              && tx'.rows == (if a == InTransaction then tx.rows + [RowFor(setup, cause, r)] else tx.rows)
              && tx'.doomed == (tx.doomed || Dooms(setup, flagOn, r))
              && auditLog == (if a == Autocommitted then old(auditLog) + [RowFor(setup, cause, r)] else old(auditLog))
              && (res == Panic <==> a == Exploded)
              && (res == Error <==> a == Refused && ConfigFor(setup, r.entity).category in {Admin, Security})
      ensures var on := if old(flag).Some? then old(flag).value else r.flagLoads;
              res == Error <==> Means(setup, on, r, Refused) && MustPropagate(setup, r.entity)
    {
      EffectIff(setup, FlagFor(Durable(), r), r, Refused);
      res, tx' := Ok, tx;
      if r.entity in setup.schemas && !setup.schemas[r.entity] { return; }
      var cfg := ConfigFor(setup, r.entity);
      if !cfg.enabled { return; }
      var rec := AuditRow(cause, r.entity, r.recordId, LoggedOperation(r), cfg.category);
      res, tx' := Write(rec, r, tx);
      if res == Error && !Propagates(cfg.category) { res := Ok; }
    }

    /** Hooks run in order; safeCall turns a panic into an error and the first failure stops. */
    method RunHooks(hooks: seq<HookOutcome>) returns (ok: bool)
      ensures ok <==> AllOk(hooks)
    {
      for i := 0 to |hooks|
        invariant AllOk(hooks[..i])
      {
        assert forall k :: 0 <= k < i ==> hooks[k] == hooks[..i][k];
        if hooks[i] != HookOk { return false; }
      }
      assert hooks[..|hooks|] == hooks;
      ok := true;
    }

    /** RunAfterCreate, RunAfterUpdate and RunAfterDelete. */
    method RunAfter(r: Request) returns (ok: bool)
      ensures ok <==> HooksPass(setup, r)
      ensures ok <==> r.entity in setup.schemas && AllOk(r.entityHooks) && (r.operation in {Create, Update} ==> AllOk(r.saveHooks))
    {
      if r.entity !in setup.schemas { return false; }
      ok := RunHooks(r.entityHooks);
      if ok && r.operation != Delete { ok := RunHooks(r.saveHooks); }
    }

    /** The WithTx block: persist, audit, after-hooks, then commit or roll back. */
    method Mutate(cause: nat, r: Request) returns (committed: bool)
      modifies this
      ensures Durable() == After(setup, old(Durable()), cause, r)
      ensures committed <==> MayCommit(setup, if old(flag).Some? then old(flag).value else r.flagLoads, r)
      ensures mutations == if committed then old(mutations) + [Mutation(cause, r.entity, r.recordId, r.operation)] else old(mutations)
    {
      CommitsIff(setup, FlagFor(Durable(), r), r);
      if !r.beginOk || !r.persistOk { return false; }
      var txMutation := Mutation(cause, r.entity, r.recordId, r.operation);
      var res, tx := RunAuditRecord(cause, r, Transaction([], false));
      if res != Ok { return false; }
      var ok := RunAfter(r);
      if !ok || !r.commitOk || tx.doomed { return false; }
      mutations := mutations + [txMutation];
      auditLog := auditLog + tx.rows;
      committed := true;
    }
  }

  // ---------------------------------------------------------------------------
  // What decides the commit.

  /** Request `r` with other audit outcomes. */
  function WithAudit(r: Request, tenantSet: bool, actorSet: bool, panics: bool, marshalOk: bool, insertOk: bool): Request
  {
    r.(tenantSet := tenantSet, actorSet := actorSet, writerPanics := panics, marshalOk := marshalOk, insertOk := insertOk)
  }

  /** A well-formed audit record of the entity would be written. */
  predicate Writable(setup: Setup, entity: string)
  {
    Audited(setup, entity) && entity != "" && ConfigFor(setup, entity).category != Unset
  }

  /** No outcome of the audit write, panics included, decides whether a mutation of the entity commits. */
  ghost predicate Indifferent(setup: Setup, flagOn: bool, entity: string)
  {
    forall r: Request, t, a, p, m, i :: r.entity == entity ==>
      (Commits(setup, flagOn, r) <==> Commits(setup, flagOn, WithAudit(r, t, a, p, m, i)))
  }

  /** The same for outcomes without a panic. */
  ghost predicate IndifferentToErrors(setup: Setup, flagOn: bool, entity: string)
  {
    forall r: Request, t, a, m, i :: r.entity == entity && !r.writerPanics ==>
      (Commits(setup, flagOn, r) <==> Commits(setup, flagOn, WithAudit(r, t, a, false, m, i)))
  }

  /** A request that commits if nothing goes wrong. */
  function Smooth(entity: string): Request
  {
    Request(entity, 0, Create, true, true, true, true, true, true, true, false, true, true, [], [], true)
  }

  /** Outside ADMIN and SECURITY: the audit outcome never decides the commit exactly when nothing would
      be written, because nothing recovers a panic of the writer. */
  lemma IndifferentIff(setup: Setup, flagOn: bool, entity: string)
    requires entity in setup.schemas && ConfigFor(setup, entity).category !in {Admin, Security}
    ensures Indifferent(setup, flagOn, entity) <==> !Writable(setup, entity) || !flagOn
  {
    var r := Smooth(entity);
    var panics := WithAudit(r, true, true, true, true, true);
    if Writable(setup, entity) && flagOn {
      assert Commits(setup, flagOn, r) && !Commits(setup, flagOn, panics);
    }
  }

  /** As long as the writer does not panic it is enough that a failed insert leaves the transaction
      able to commit, because it happens outside it or the database allows it. */
  lemma IndifferentToErrorsIff(setup: Setup, flagOn: bool, entity: string)
    requires entity in setup.schemas && ConfigFor(setup, entity).category !in {Admin, Security}
    ensures IndifferentToErrors(setup, flagOn, entity) <==>
            !Writable(setup, entity) || !flagOn || !setup.txQuerier || !setup.abortsOnError
  {
    var r := Smooth(entity);
    var fails := WithAudit(r, true, true, false, true, false);
    if Writable(setup, entity) && flagOn && setup.txQuerier && setup.abortsOnError {
      assert Commits(setup, flagOn, r) && !Commits(setup, flagOn, fails);
    }
  }

  /** An audited entity whose failures propagate. */
  ghost predicate Sensitive(setup: Setup, entity: string)
  {
    IsAudited(setup, entity) && MustPropagate(setup, entity)
  }

  /** In ADMIN and SECURITY a mutation with the flag on commits only if its record was written. */
  lemma SensitiveNeedsRecord(setup: Setup, r: Request)
    requires Sensitive(setup, r.entity) && Commits(setup, true, r)
    ensures AuditEffect(setup, true, r) in {InTransaction, Autocommitted}
  { }
}
