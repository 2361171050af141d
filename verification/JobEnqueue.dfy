/**
 * Enqueuing inside a transaction of the caller: validation, the insert that
 * does nothing on a duplicate key, the comparison with the row already there,
 * and the audit row. Job types and idempotency keys are UTF-16 texts.
 */
module JobEnqueue {
  import opened Common
  import opened JsonText
  import opened CanonicalPayload
  import opened JobTable

  const DEFAULT_MAX_ATTEMPTS := 3
  const MAX_JOB_TYPE_LENGTH := 128
  const MAX_IDEMPOTENCY_KEY_LENGTH := 128

  // ---------------------------------------------------------------- validation

  predicate Letter(c: CodeUnit) { 97 <= c <= 122 }

  predicate NameUnit(c: CodeUnit) { Letter(c) || 48 <= c <= 57 || c == 95 }

  /**
   * Dotted names: segments of a letter followed by letters, digits and
   * underscores, two segments at least. `dotted` says a dot was seen, `inside`
   * that the current segment has begun.
   */
  predicate DottedName(t: Text, dotted: bool, inside: bool) {
    if t == [] then dotted && inside
    else if !inside then Letter(t[0]) && DottedName(t[1..], dotted, true)
    else if t[0] == 46 then DottedName(t[1..], true, false)
    else NameUnit(t[0]) && DottedName(t[1..], dotted, true)
  }

  predicate JobTypeName(t: Text) {
    DottedName(t, false, false) && |t| <= MAX_JOB_TYPE_LENGTH
  }

  /** What `trim` removes. */
  predicate WhiteSpace(c: CodeUnit) {
    9 <= c <= 13 || c == 32 || c == 0xA0 || c == 0x1680 || 0x2000 <= c <= 0x200A || c == 0x2028 || c == 0x2029
    || c == 0x202F || c == 0x205F || c == 0x3000 || c == 0xFEFF
  }

  predicate IdempotencyKey(t: Text) {
    |t| <= MAX_IDEMPOTENCY_KEY_LENGTH && exists i :: 0 <= i < |t| && !WhiteSpace(t[i])
  }

  datatype Definition = Definition(parse: Json -> Option<Json>, maxAttempts: Option<int>)

  type Registry = map<Text, Definition>

  /** Parsers return values an engine can hold. */
  ghost predicate ParsersWellFormed(registry: Registry) {
    forall k, v {:trigger registry[k].parse(v)} ::
      k in registry && WellFormed(v) && registry[k].parse(v).Some? ==> WellFormed(registry[k].parse(v).value)
  }

  datatype Schedule = Now | At(time: int) | InvalidDate

  datatype Input = Input(
    kind: Text, payload: Json, key: Text, schedule: Schedule, maxAttempts: Option<int>)

  datatype Context = Context(tenant: TenantId, actor: Option<nat>, requestId: Option<Text>)

  datatype EnqueueError =
    | InvalidTypeName
    | UnregisteredType
    | InvalidKey
    | InvalidMaxAttempts
    | InvalidAvailableAt
    | PayloadRejected
    | PayloadTooLarge(bytes: nat)
    | Conflict(id: JobId)
    | AuditFailed

  function AttemptsOf(input: Input, d: Definition): int {
    if input.maxAttempts.Some? then input.maxAttempts.value
    else if d.maxAttempts.Some? then d.maxAttempts.value
    else DEFAULT_MAX_ATTEMPTS
  }

  /** The checks before anything is written, in their order; the payload as the definition parses it. */
  function Validate(registry: Registry, input: Input): Result<Json, EnqueueError> {
    if !JobTypeName(input.kind) then Err(InvalidTypeName)
    else if input.kind !in registry then Err(UnregisteredType)
    else if !IdempotencyKey(input.key) then Err(InvalidKey)
    else if !(1 <= AttemptsOf(input, registry[input.kind]) <= 10) then Err(InvalidMaxAttempts)
    else if input.schedule.InvalidDate? then Err(InvalidAvailableAt)
    else
      match registry[input.kind].parse(input.payload)
      case None => Err(PayloadRejected)
      case Some(parsed) =>
        match SerializeJobPayload(parsed)
        case Err(TooLarge(bytes)) => Err(PayloadTooLarge(bytes))
        case Ok(_) => Ok(parsed)
  }

  // -------------------------------------------------------------------- tables

  datatype Job = Job(
    tenant: TenantId, kind: Text, key: Text, payload: Json, maxAttempts: int, availableAt: int,
    actor: Option<nat>, requestId: Option<Text>)

  /** A `jobs.enqueued` audit row. */
  datatype Audit = Audit(tenant: TenantId, actor: Option<nat>, job: JobId, kind: Text)

  datatype Tables = Tables(jobs: map<JobId, Job>, audits: seq<Audit>)

  predicate HasKey(j: Job, tenant: TenantId, kind: Text, key: Text) {
    j.tenant == tenant && j.kind == kind && j.key == key
  }

  predicate KeyTaken(jobs: map<JobId, Job>, tenant: TenantId, kind: Text, key: Text) {
    exists id :: id in jobs && HasKey(jobs[id], tenant, kind, key)
  }

  ghost function KeyHolder(jobs: map<JobId, Job>, tenant: TenantId, kind: Text, key: Text): (id: JobId)
    requires KeyTaken(jobs, tenant, kind, key)
    ensures id in jobs && HasKey(jobs[id], tenant, kind, key)
  {
    var id :| id in jobs && HasKey(jobs[id], tenant, kind, key);
    id
  }

  predicate KeysUnique(jobs: map<JobId, Job>) {
    forall a, b :: a in jobs && b in jobs && HasKey(jobs[a], jobs[b].tenant, jobs[b].kind, jobs[b].key) ==> a == b
  }

  function AuditedJobs(audits: seq<Audit>): multiset<JobId> {
    if audits == [] then multiset{} else AuditedJobs(audits[..|audits| - 1]) + multiset{audits[|audits| - 1].job}
  }

  /** At most one job per key, exactly one audit row per job, and payloads that serialize. */
  ghost predicate Consistent(t: Tables) {
    && KeysUnique(t.jobs)
    && (forall id :: AuditedJobs(t.audits)[id] == if id in t.jobs then 1 else 0)
    && (forall id :: id in t.jobs ==>
          WellFormed(t.jobs[id].payload) && SerializeJobPayload(t.jobs[id].payload).Ok?
          && 1 <= t.jobs[id].maxAttempts <= 10)
  }

  datatype Accepted = Accepted(id: JobId, created: bool)

  /** What the outside contributes to one enqueue: a generated id, database time, the store's member order, an audit failure. */
  datatype World = World(freshId: JobId, dbNow: int, reorder: Json -> Json, auditFails: bool)

  /** A fresh id, and a `jsonb` column that keeps payloads up to member order. */
  ghost predicate Plausible(t: Tables, w: World) {
    && w.freshId !in t.jobs
    && forall v {:trigger w.reorder(v)} :: WellFormed(v) ==> WellFormed(w.reorder(v)) && Equivalent(w.reorder(v), v)
  }

  function NewJob(c: Context, input: Input, attempts: int, payload: Json, dbNow: int): Job {
    Job(c.tenant, input.kind, input.key, payload, attempts,
        if input.schedule.At? then input.schedule.time else dbNow, c.actor, c.requestId)
  }

  /** The outcome of one enqueue and the tables it leaves; an audit failure leaves the insert to the rollback. */
  ghost function Enqueued(registry: Registry, t: Tables, c: Context, input: Input, w: World)
    : (Tables, Result<Accepted, EnqueueError>)
  {
    match Validate(registry, input)
    case Err(e) => (t, Err(e))
    case Ok(parsed) =>
      if KeyTaken(t.jobs, c.tenant, input.kind, input.key) then
        var id := KeyHolder(t.jobs, c.tenant, input.kind, input.key);
        (t, if SerializeJobPayload(t.jobs[id].payload) == SerializeJobPayload(parsed)
            then Ok(Accepted(id, false)) else Err(Conflict(id)))
      else
        var stored := w.reorder(Canonicalize(parsed));
        var job := NewJob(c, input, AttemptsOf(input, registry[input.kind]), stored, w.dbNow);
        var jobs := t.jobs[w.freshId := job];
        if w.auditFails then (t.(jobs := jobs), Err(AuditFailed))
        else (Tables(jobs, t.audits + [Audit(c.tenant, c.actor, w.freshId, input.kind)]), Ok(Accepted(w.freshId, true)))
  }

  // ------------------------------------------------------------ the store, run

  /** One connection with the caller's transaction open on it. */
  class JobStore {
    const registry: Registry
    var jobs: map<JobId, Job>       // as the open transaction sees them
    var audits: seq<Audit>
    var saved: Tables               // as last committed
    var failed: bool                // the database refused a statement: only a rollback is left

    constructor (registry: Registry)
      ensures Valid()
      ensures this.registry == registry && jobs == map[] && audits == [] && saved == Tables(map[], []) && !failed
    {
      EmptyTablesConsistent();
      this.registry := registry;
      jobs, audits, saved, failed := map[], [], Tables(map[], []), false;
    }

    ghost predicate Valid()
      reads this
    {
      Consistent(saved) && (!failed ==> Consistent(Tables(jobs, audits)))
    }

    method Enqueue(c: Context, input: Input, w: World) returns (r: Result<Accepted, EnqueueError>)
      requires Valid() && !failed && WellFormed(input.payload) && ParsersWellFormed(registry)
      requires Plausible(Tables(jobs, audits), w)
      modifies this`jobs, this`audits, this`failed
      ensures Valid() && failed == (r == Err(AuditFailed))
      ensures (Tables(jobs, audits), r) == Enqueued(registry, Tables(old(jobs), old(audits)), c, input, w)
    {
      ghost var t := Tables(jobs, audits);
      EnqueueKeepsConsistent(registry, t, c, input, w);
      EnqueuedCases(registry, t, c, input, w);
      hide Validate, SerializeJobPayload, Canonicalize, Consistent, Parse, AttemptsOf, Enqueued, HasKey, Plausible,
           ParsersWellFormed, WellFormed, Equivalent;
      var checked := Validate(registry, input);
      if checked.Err? { return Err(checked.error); }
      var payloadText := SerializeJobPayload(checked.value).value;
      // insert ... on conflict do nothing returning id
      if KeyTaken(jobs, c.tenant, input.kind, input.key) {
        var existing :| existing in jobs && HasKey(jobs[existing], c.tenant, input.kind, input.key);
        if SerializeJobPayload(jobs[existing].payload) != Ok(payloadText) { return Err(Conflict(existing)); }
        return Ok(Accepted(existing, false));
      }
      var stored := w.reorder(Parse(payloadText).value);
      jobs := jobs[w.freshId := NewJob(c, input, AttemptsOf(input, registry[input.kind]), stored, w.dbNow)];
      if w.auditFails {
        failed := true;
        return Err(AuditFailed);
      }
      audits := audits + [Audit(c.tenant, c.actor, w.freshId, input.kind)];
      r := Ok(Accepted(w.freshId, true));
    }

    /** Commits the caller's transaction; one with a failed statement rolls back instead. */
    method Commit()
      requires Valid()
      modifies this
      ensures Valid() && !failed
      ensures saved == if old(failed) then old(saved) else Tables(old(jobs), old(audits))
      ensures Tables(jobs, audits) == saved
    {
      if failed {
        jobs, audits, failed := saved.jobs, saved.audits, false;
      } else {
        saved := Tables(jobs, audits);
      }
    }

    method Rollback()
      requires Valid()
      modifies this`jobs, this`audits, this`failed
      ensures Valid() && !failed && Tables(jobs, audits) == saved
    {
      jobs, audits, failed := saved.jobs, saved.audits, false;
    }
  }

  lemma OneHolder(jobs: map<JobId, Job>, tenant: TenantId, kind: Text, key: Text, id: JobId)
    requires KeysUnique(jobs) && id in jobs && HasKey(jobs[id], tenant, kind, key)
    ensures KeyTaken(jobs, tenant, kind, key) && KeyHolder(jobs, tenant, kind, key) == id
  {
  }

  /** The branches of an enqueue, with the text that is stored and compared. */
  lemma EnqueuedCases(registry: Registry, t: Tables, c: Context, input: Input, w: World)
    requires Consistent(t) && ParsersWellFormed(registry) && WellFormed(input.payload)
    ensures var checked, taken := Validate(registry, input), KeyTaken(t.jobs, c.tenant, input.kind, input.key);
            var e := Enqueued(registry, t, c, input, w);
      && (checked.Err? ==> e == (t, Err(checked.error)) && checked.error != AuditFailed)
      && (checked.Ok? ==>
            && input.kind in registry && SerializeJobPayload(checked.value).Ok?
            && Parse(SerializeJobPayload(checked.value).value) == Some(Canonicalize(checked.value))
            && (taken ==> forall id :: id in t.jobs && HasKey(t.jobs[id], c.tenant, input.kind, input.key) ==>
                  e == (t, if SerializeJobPayload(t.jobs[id].payload) == SerializeJobPayload(checked.value)
                           then Ok(Accepted(id, false)) else Err(Conflict(id))))
            && (!taken ==>
                  var stored := w.reorder(Canonicalize(checked.value));
                  var jobs := t.jobs[w.freshId := NewJob(c, input, AttemptsOf(input, registry[input.kind]), stored, w.dbNow)];
                  e == if w.auditFails then (t.(jobs := jobs), Err(AuditFailed))
                       else (Tables(jobs, t.audits + [Audit(c.tenant, c.actor, w.freshId, input.kind)]),
                             Ok(Accepted(w.freshId, true)))))
  {
    var checked := Validate(registry, input);
    assert checked.Err? ==> checked.error != AuditFailed;
    if checked.Ok? {
      assert input.kind in registry;
      ValidatedWellFormed(registry, input);
      ParsedTextIsCanonical(registry, input);
      hide Validate, SerializeJobPayload, Canonicalize, WellFormed, Parse, AttemptsOf;
      forall id | id in t.jobs && HasKey(t.jobs[id], c.tenant, input.kind, input.key)
        ensures KeyTaken(t.jobs, c.tenant, input.kind, input.key)
        ensures KeyHolder(t.jobs, c.tenant, input.kind, input.key) == id
      {
        OneHolder(t.jobs, c.tenant, input.kind, input.key, id);
      }
    }
  }

  lemma ParsedTextIsCanonical(registry: Registry, input: Input)
    requires Validate(registry, input).Ok? && WellFormed(Validate(registry, input).value)
    ensures var parsed := Validate(registry, input).value;
            Parse(SerializeJobPayload(parsed).value) == Some(Canonicalize(parsed))
  {
    var parsed := Validate(registry, input).value;
    CanonicalWellFormed(parsed);
    PrintRoundTrip(Canonicalize(parsed));
  }

  lemma ValidatedWellFormed(registry: Registry, input: Input)
    requires ParsersWellFormed(registry) && WellFormed(input.payload) && Validate(registry, input).Ok?
    ensures WellFormed(Validate(registry, input).value) && SerializeJobPayload(Validate(registry, input).value).Ok?
    ensures input.kind in registry && 1 <= AttemptsOf(input, registry[input.kind]) <= 10
  {
  }

  // ----------------------------------------------------------------- theorems

  lemma AuditAppend(audits: seq<Audit>, a: Audit)
    ensures AuditedJobs(audits + [a]) == AuditedJobs(audits) + multiset{a.job}
  {
    assert (audits + [a])[..|audits|] == audits;
  }

  lemma StoredPayload(parsed: Json, reorder: Json -> Json)
    requires WellFormed(parsed)
    requires forall v {:trigger reorder(v)} :: WellFormed(v) ==> WellFormed(reorder(v)) && Equivalent(reorder(v), v)
    ensures WellFormed(reorder(Canonicalize(parsed)))
    ensures SerializeJobPayload(reorder(Canonicalize(parsed))) == SerializeJobPayload(parsed)
  {
    CanonicalWellFormed(parsed);
    EquivalentCanonical(reorder(Canonicalize(parsed)), Canonicalize(parsed));
    CanonicalIsEquivalent(parsed);
    EquivalentCanonical(Canonicalize(parsed), parsed);
  }

  lemma InsertKeepsConsistent(t: Tables, id: JobId, job: Job, a: Audit)
    requires Consistent(t) && id !in t.jobs && a.job == id && !KeyTaken(t.jobs, job.tenant, job.kind, job.key)
    requires WellFormed(job.payload) && SerializeJobPayload(job.payload).Ok? && 1 <= job.maxAttempts <= 10
    ensures Consistent(Tables(t.jobs[id := job], t.audits + [a]))
  {
    AuditAppend(t.audits, a);
    hide AuditedJobs, WellFormed, SerializeJobPayload;
  }

  lemma EnqueueKeepsConsistent(registry: Registry, t: Tables, c: Context, input: Input, w: World)
    requires Consistent(t) && Plausible(t, w) && ParsersWellFormed(registry) && WellFormed(input.payload)
    ensures var (t', r) := Enqueued(registry, t, c, input, w);
      && (r != Err(AuditFailed) ==> Consistent(t'))
      && (forall id :: id in t.jobs ==> id in t'.jobs && t'.jobs[id] == t.jobs[id])
  {
    hide Validate, SerializeJobPayload, Canonicalize, Equivalent, WellFormed, Consistent, ParsersWellFormed;
    var checked := Validate(registry, input);
    if checked.Ok? {
      ValidatedWellFormed(registry, input);
      var parsed := checked.value;
      StoredPayload(parsed, w.reorder);
      if !KeyTaken(t.jobs, c.tenant, input.kind, input.key) && !w.auditFails {
        var job := NewJob(c, input, AttemptsOf(input, registry[input.kind]), w.reorder(Canonicalize(parsed)), w.dbNow);
        InsertKeepsConsistent(t, w.freshId, job, Audit(c.tenant, c.actor, w.freshId, input.kind));
      }
    }
  }

  /**
   * A repeat of a key already in the table: accepted with the id of the row there
   * exactly when the payloads differ in nothing but member order, a conflict
   * naming that row otherwise; nothing is written either way.
   */
  lemma RepeatDecision(registry: Registry, t: Tables, c: Context, input: Input, w: World, id: JobId)
    requires Consistent(t) && ParsersWellFormed(registry) && WellFormed(input.payload)
    requires Validate(registry, input).Ok?
    requires id in t.jobs && HasKey(t.jobs[id], c.tenant, input.kind, input.key)
    ensures var (t', r) := Enqueued(registry, t, c, input, w);
      && t' == t
      && (r == Ok(Accepted(id, false)) <==> Equivalent(t.jobs[id].payload, Validate(registry, input).value))
      && (r == Err(Conflict(id)) <==> !Equivalent(t.jobs[id].payload, Validate(registry, input).value))
  {
    ValidatedWellFormed(registry, input);
    CanonicalTextsDecide(t.jobs[id].payload, Validate(registry, input).value);
    hide Validate, SerializeJobPayload, Equivalent, WellFormed;
    OneHolder(t.jobs, c.tenant, input.kind, input.key, id);
  }

  // ---------------------------------------------------------------- histories

  datatype Command = Command(c: Context, input: Input, w: World)

  /** A transaction of some caller: its enqueues, and whether the caller goes on to commit. */
  datatype Txn = Txn(commands: seq<Command>, commits: bool)

  ghost predicate Sound(registry: Registry, t: Tables, cmd: Command) {
    Plausible(t, cmd.w) && WellFormed(cmd.input.payload)
  }

  /** The commands of a transaction, up to a failed audit, after which the database accepts no further statement. */
  ghost function RunCommands(registry: Registry, t: Tables, commands: seq<Command>): Option<Tables>
    decreases |commands|
  {
    if commands == [] then Some(t)
    else
      var (t', r) := Enqueued(registry, t, commands[0].c, commands[0].input, commands[0].w);
      if r == Err(AuditFailed) then None else RunCommands(registry, t', commands[1..])
  }

  ghost predicate CommandsSound(registry: Registry, t: Tables, commands: seq<Command>)
    decreases |commands|
  {
    commands == [] ||
    (Sound(registry, t, commands[0]) &&
     var (t', r) := Enqueued(registry, t, commands[0].c, commands[0].input, commands[0].w);
     r == Err(AuditFailed) || CommandsSound(registry, t', commands[1..]))
  }

  /** What a transaction leaves committed: all of it or nothing. */
  ghost function RunTxn(registry: Registry, t: Tables, txn: Txn): Tables {
    var after := RunCommands(registry, t, txn.commands);
    if txn.commits && after.Some? then after.value else t
  }

  ghost function RunAll(registry: Registry, t: Tables, txns: seq<Txn>): Tables
    decreases |txns|
  {
    if txns == [] then t else RunAll(registry, RunTxn(registry, t, txns[0]), txns[1..])
  }

  ghost predicate AllSound(registry: Registry, t: Tables, txns: seq<Txn>)
    decreases |txns|
  {
    txns == [] ||
    (CommandsSound(registry, t, txns[0].commands) && AllSound(registry, RunTxn(registry, t, txns[0]), txns[1..]))
  }

  /** Rows are only added. */
  predicate Extends(t: Tables, t': Tables) {
    forall id :: id in t.jobs ==> id in t'.jobs && t'.jobs[id] == t.jobs[id]
  }

  lemma {:induction false} CommandsKeep(registry: Registry, t: Tables, commands: seq<Command>)
    requires Consistent(t) && ParsersWellFormed(registry) && CommandsSound(registry, t, commands)
    requires RunCommands(registry, t, commands).Some?
    ensures Consistent(RunCommands(registry, t, commands).value)
    ensures Extends(t, RunCommands(registry, t, commands).value)
    decreases |commands|
  {
    hide Consistent, ParsersWellFormed, Plausible, Enqueued, WellFormed;
    if commands != [] {
      var cmd := commands[0];
      EnqueueKeepsConsistent(registry, t, cmd.c, cmd.input, cmd.w);
      CommandsKeep(registry, Enqueued(registry, t, cmd.c, cmd.input, cmd.w).0, commands[1..]);
    }
  }

  /**
   * Over every sequence of committing, conflicting, failing and aborting
   * transactions: one job per key, one audit row per job, and a committed job
   * keeps its id, key and payload for good.
   */
  lemma {:induction false} HistoryKeeps(registry: Registry, t: Tables, txns: seq<Txn>)
    requires Consistent(t) && ParsersWellFormed(registry) && AllSound(registry, t, txns)
    ensures Consistent(RunAll(registry, t, txns)) && Extends(t, RunAll(registry, t, txns))
    decreases |txns|
  {
    hide Consistent, ParsersWellFormed, CommandsSound, RunCommands;
    if txns != [] {
      if RunCommands(registry, t, txns[0].commands).Some? { CommandsKeep(registry, t, txns[0].commands); }
      HistoryKeeps(registry, RunTxn(registry, t, txns[0]), txns[1..]);
    }
  }

  lemma EmptyTablesConsistent()
    ensures Consistent(Tables(map[], []))
  {
  }

  /**
   * Idempotence: once a job is committed under a key, every later valid enqueue
   * of that key, in whatever transaction and after whatever history, writes
   * nothing and answers with that job: accepted if the payloads differ in
   * nothing but member order, a conflict otherwise.
   */
  lemma LaterRepeat(registry: Registry, t: Tables, id: JobId, txns: seq<Txn>, before: seq<Command>, cmd: Command)
    requires Consistent(t) && ParsersWellFormed(registry) && AllSound(registry, t, txns)
    requires CommandsSound(registry, RunAll(registry, t, txns), before)
    requires RunCommands(registry, RunAll(registry, t, txns), before).Some?
    requires WellFormed(cmd.input.payload) && Validate(registry, cmd.input).Ok?
    requires id in t.jobs && HasKey(t.jobs[id], cmd.c.tenant, cmd.input.kind, cmd.input.key)
    ensures var now := RunCommands(registry, RunAll(registry, t, txns), before).value;
            var (after, r) := Enqueued(registry, now, cmd.c, cmd.input, cmd.w);
      && after == now
      && (r == Ok(Accepted(id, false)) <==> Equivalent(t.jobs[id].payload, Validate(registry, cmd.input).value))
      && (r == Err(Conflict(id)) <==> !Equivalent(t.jobs[id].payload, Validate(registry, cmd.input).value))
  {
    hide Consistent, ParsersWellFormed, CommandsSound, RunCommands, AllSound, RunAll, Enqueued, Validate, WellFormed, Equivalent;
    HistoryKeeps(registry, t, txns);
    CommandsKeep(registry, RunAll(registry, t, txns), before);
    var now := RunCommands(registry, RunAll(registry, t, txns), before).value;
    assert now.jobs[id] == t.jobs[id];
    RepeatDecision(registry, now, cmd.c, cmd.input, cmd.w, id);
  }
}
