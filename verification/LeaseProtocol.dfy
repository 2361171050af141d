/**
 * The lease protocol as a state machine. Every step is one committed statement
 * or short transaction of some worker, or a local move of a worker between two
 * statements; each carries the clock readings, tokens and handler outcomes it
 * used, so clocks of different workers are unrelated. A worker that crashes is
 * one whose claim takes no further step.
 */
module LeaseProtocol {
  import opened Common
  import opened JobTable

  /** How far the worker holding a claim has come in executing it, and whether a non-retryable error ended it. */
  datatype Phase = Holding | Handling | Failing(nonRetryable: bool) | Done(nonRetryable: bool)

  /** A worker's own copy of what its claim returned. */
  datatype Claim = Claim(
    tenant: TenantId, job: JobId, attempt: nat, maxAttempts: nat, started: bool, phase: Phase)

  datatype Release = Acked | Retried | FailedByWorker | RecoveredToPending | RecoveredToFailed

  /** The committed changes of ownership of one job, oldest first. */
  datatype Entry = Taken(token: Token) | Released(how: Release)

  datatype EventName = JobsSucceeded | JobsRetryScheduled | JobsFailed

  datatype Event = Event(name: EventName, job: JobId, attempt: nat, byRecovery: bool)

  datatype State = State(
    rows: Rows,
    claims: map<Token, Claim>,
    history: map<JobId, seq<Entry>>,
    owed: multiset<Event>,       // committed or decided, not yet handed to the publisher
    published: multiset<Event>)

  const INITIAL := State(map[], map[], map[], multiset{}, multiset{})

  datatype Step =
    | Enqueue(id: JobId, tenant: TenantId, kind: JobType, maxAttempts: nat, availableAt: int)
    | ClaimJob(id: JobId, tenant: TenantId, token: Token, now: int, leaseMs: nat)
    | StartHandler(token: Token)
    | HandlerThrows(token: Token, nonRetryable: bool)
    | Renew(token: Token, clock: int, now: int, leaseMs: nat)   // the expiry counts from `clock`, the fence compares `now`
    | Acknowledge(token: Token, finishedAt: int, now: int, replyLost: bool)
    | ScheduleRetry(token: Token, code: ErrorCode, clock: int, delay: nat, now: int)
    | FailTerminal(token: Token, code: ErrorCode, finishedAt: int, now: int)
    | Recover(id: JobId, tenant: TenantId, now: int)
    | Publish(event: Event)
    | LoseEvent(event: Event)

  predicate Enabled(s: State, st: Step) {
    match st
    case Enqueue(id, _, _, maxAttempts, _) => id !in s.rows && 1 <= maxAttempts <= 10
    case ClaimJob(id, tenant, token, now, _) => id in s.rows && Due(s.rows[id], tenant, now) && token !in s.claims
    case StartHandler(token) => token in s.claims && s.claims[token].phase == Holding
    case HandlerThrows(token, _) => token in s.claims && s.claims[token].phase == Handling
    case Renew(token, _, _, _) => token in s.claims && (s.claims[token].phase.Handling? || s.claims[token].phase.Failing?)
    case Acknowledge(token, _, _, _) => token in s.claims && s.claims[token].phase == Handling
    case ScheduleRetry(token, _, _, _, _) =>
      token in s.claims && s.claims[token].phase == Failing(false) && s.claims[token].attempt < s.claims[token].maxAttempts
    case FailTerminal(token, code, _, _) =>
      token in s.claims &&
      var c := s.claims[token];
      (c.phase == Holding && code in {UnknownType, PayloadInvalid})
      || (c.phase.Failing? && (c.phase.nonRetryable || c.attempt >= c.maxAttempts))
    case Recover(id, tenant, now) => id in s.rows && Expired(s.rows[id], tenant, now)
    case Publish(e) => e in s.owed
    case LoseEvent(e) => e in s.owed
  }

  /** Does the fence of the update made under this claim match? */
  predicate Wins(s: State, token: Token, now: int)
    requires token in s.claims
  {
    var c := s.claims[token];
    c.job in s.rows && Fenced(s.rows[c.job], c.tenant, token, now)
  }

  /** A committed change of one row; `entry` is set when the job changes hands. */
  datatype Change = Change(job: JobId, row: Row, entry: Option<Entry>)

  /** A fenced update made under a claim; nothing changes when the fence does not match. */
  function FencedChange(s: State, token: Token, now: int, t: Transition, entry: Option<Entry>): Option<Change>
    requires token in s.claims
  {
    if Wins(s, token, now)
    then Some(Change(s.claims[token].job, SetColumns(s.rows[s.claims[token].job], t), entry))
    else None
  }

  function RecoveryRelease(r: Row): Release {
    if Exhausted(r) then RecoveredToFailed else RecoveredToPending
  }

  function ChangeOf(s: State, st: Step): Option<Change>
    requires Enabled(s, st)
  {
    match st
    case Enqueue(id, tenant, kind, maxAttempts, availableAt) =>
      Some(Change(id, NewRow(tenant, kind, maxAttempts, availableAt), None))
    case ClaimJob(id, _, token, now, leaseMs) =>
      Some(Change(id, ClaimColumns(s.rows[id], token, now + leaseMs), Some(Taken(token))))
    case Renew(token, clock, now, leaseMs) => FencedChange(s, token, now, Renewal(clock + leaseMs), None)
    case Acknowledge(token, finishedAt, now, _) =>
      FencedChange(s, token, now, Success(finishedAt), Some(Released(Acked)))
    case ScheduleRetry(token, code, clock, delay, now) =>
      FencedChange(s, token, now, Reschedule(clock + delay, code), Some(Released(Retried)))
    case FailTerminal(token, code, finishedAt, now) =>
      FencedChange(s, token, now, TerminalFailure(finishedAt, code), Some(Released(FailedByWorker)))
    case Recover(id, _, now) =>
      Some(Change(id, RecoverColumns(s.rows[id], now), Some(Released(RecoveryRelease(s.rows[id])))))
    case _ => None
  }

  function ClaimsAfter(s: State, st: Step): map<Token, Claim>
    requires Enabled(s, st)
  {
    match st
    case ClaimJob(id, tenant, token, _, _) =>
      s.claims[token := Claim(tenant, id, s.rows[id].attempts + 1, s.rows[id].maxAttempts, false, Holding)]
    case StartHandler(token) => s.claims[token := s.claims[token].(started := true, phase := Handling)]
    case HandlerThrows(token, nonRetryable) => s.claims[token := s.claims[token].(phase := Failing(nonRetryable))]
    case Acknowledge(token, _, _, replyLost) =>
      s.claims[token := s.claims[token].(phase := if replyLost then Failing(false) else Done(false))]
    case ScheduleRetry(token, _, _, _, _) => s.claims[token := s.claims[token].(phase := Done(false))]
    case FailTerminal(token, _, _, _) =>
      var phase := s.claims[token].phase;
      s.claims[token := s.claims[token].(phase := Done(phase.Failing? && phase.nonRetryable))]
    case _ => s.claims
  }

  /** The event a step owes the publisher: `jobs.failed` of a worker is owed whether or not its update won. */
  function OwedBy(s: State, st: Step): Option<Event>
    requires Enabled(s, st)
  {
    match st
    case Acknowledge(token, _, now, replyLost) =>
      var c := s.claims[token];
      if Wins(s, token, now) && !replyLost then Some(Event(JobsSucceeded, c.job, c.attempt, false)) else None
    case ScheduleRetry(token, _, _, _, now) =>
      var c := s.claims[token];
      if Wins(s, token, now) then Some(Event(JobsRetryScheduled, c.job, c.attempt, false)) else None
    case FailTerminal(token, _, _, _) =>
      var c := s.claims[token];
      Some(Event(JobsFailed, c.job, c.attempt, false))
    case Recover(id, _, _) =>
      var r := s.rows[id];
      Some(Event(if Exhausted(r) then JobsFailed else JobsRetryScheduled, id, r.attempts, true))
    case _ => None
  }

  function RowsAfter(rows: Rows, c: Option<Change>): Rows {
    if c.Some? then rows[c.value.job := c.value.row] else rows
  }

  function HistoryOf(history: map<JobId, seq<Entry>>, job: JobId): seq<Entry> {
    if job in history then history[job] else []
  }

  function Extended(history: map<JobId, seq<Entry>>, c: Change): seq<Entry> {
    HistoryOf(history, c.job) + (if c.entry.Some? then [c.entry.value] else [])
  }

  function HistoryAfter(history: map<JobId, seq<Entry>>, c: Option<Change>): map<JobId, seq<Entry>> {
    if c.Some? then history[c.value.job := Extended(history, c.value)] else history
  }

  function Apply(s: State, st: Step): State
    requires Enabled(s, st)
  {
    var c := ChangeOf(s, st);
    var e := OwedBy(s, st);
    State(
      RowsAfter(s.rows, c), ClaimsAfter(s, st), HistoryAfter(s.history, c),
      s.owed + (if e.Some? then multiset{e.value} else multiset{})
      - (if st.Publish? || st.LoseEvent? then multiset{st.event} else multiset{}),
      s.published + (if st.Publish? then multiset{st.event} else multiset{}))
  }

  // What single steps do, spelled out.

  lemma RowsEffect(s: State, st: Step)
    requires Enabled(s, st)
    ensures Apply(s, st).rows == RowsAfter(s.rows, ChangeOf(s, st))
  {
  }

  lemma EnqueueEffect(s: State, id: JobId, tenant: TenantId, kind: JobType, maxAttempts: nat, availableAt: int)
    requires Enabled(s, Enqueue(id, tenant, kind, maxAttempts, availableAt))
    ensures var s' := Apply(s, Enqueue(id, tenant, kind, maxAttempts, availableAt));
      s'.rows == s.rows[id := NewRow(tenant, kind, maxAttempts, availableAt)] && s'.claims == s.claims
  {
  }

  lemma ClaimEffect(s: State, id: JobId, tenant: TenantId, token: Token, now: int, leaseMs: nat)
    requires Enabled(s, ClaimJob(id, tenant, token, now, leaseMs))
    ensures var s' := Apply(s, ClaimJob(id, tenant, token, now, leaseMs));
            var r := s.rows[id];
      && s'.rows == s.rows[id := ClaimColumns(r, token, now + leaseMs)]
      && s'.claims == s.claims[token := Claim(tenant, id, r.attempts + 1, r.maxAttempts, false, Holding)]
      && s'.history == s.history[id := HistoryOf(s.history, id) + [Taken(token)]]
      && s'.owed == s.owed && s'.published == s.published
  {
  }

  lemma RenewEffect(s: State, token: Token, clock: int, now: int, leaseMs: nat)
    requires Enabled(s, Renew(token, clock, now, leaseMs))
    ensures var s' := Apply(s, Renew(token, clock, now, leaseMs));
            var c := s.claims[token];
      && s'.rows == TransitionWhileLeased(s.rows, c.tenant, c.job, token, now, Renewal(clock + leaseMs)).0
      && s'.claims == s.claims
  {
  }

  lemma FailEffect(s: State, st: Step)
    requires st.FailTerminal? && Enabled(s, st)
    ensures var c := s.claims[st.token];
            var update := TransitionWhileLeased(
                            s.rows, c.tenant, c.job, st.token, st.now, TerminalFailure(st.finishedAt, st.code));
      && Apply(s, st).rows == update.0
      && Apply(s, st).owed == s.owed + multiset{Event(JobsFailed, c.job, c.attempt, false)}
  {
  }

  lemma RecoverEffect(s: State, id: JobId, tenant: TenantId, now: int)
    requires Enabled(s, Recover(id, tenant, now))
    ensures var s' := Apply(s, Recover(id, tenant, now));
            var r := s.rows[id];
      && s'.rows == s.rows[id := RecoverColumns(r, now)] && s'.claims == s.claims
      && s'.history == s.history[id := HistoryOf(s.history, id) + [Released(RecoveryRelease(r))]]
      && s'.owed == s.owed + multiset{Event(if Exhausted(r) then JobsFailed else JobsRetryScheduled, id, r.attempts, true)}
      && s'.published == s.published
  {
  }

  lemma PublishEffect(s: State, e: Event)
    requires Enabled(s, Publish(e))
    ensures var s' := Apply(s, Publish(e));
            s'.rows == s.rows && s'.published == s.published + multiset{e}
  {
  }

  /** A run is a sequence of steps, each enabled in the state the steps before it lead to. */
  predicate Legal(s: State, run: seq<Step>)
    decreases |run|
  {
    run == [] || (Enabled(s, run[0]) && Legal(Apply(s, run[0]), run[1..]))
  }

  function Exec(s: State, run: seq<Step>): State
    requires Legal(s, run)
    decreases |run|
  {
    if run == [] then s else Exec(Apply(s, run[0]), run[1..])
  }

  lemma {:induction false} ExecConcat(s: State, a: seq<Step>, b: seq<Step>)
    requires Legal(s, a) && Legal(Exec(s, a), b)
    ensures Legal(s, a + b) && Exec(s, a + b) == Exec(Exec(s, a), b)
    decreases |a|
  {
    hide Apply, Enabled;
    if a == [] {
      assert a + b == b;
    } else {
      ExecConcat(Apply(s, a[0]), a[1..], b);
      assert (a + b)[1..] == a[1..] + b;
    }
  }

  // ---------------------------------------------------------------- invariant

  predicate Final(how: Release) {
    how == Acked || how == FailedByWorker || how == RecoveredToFailed
  }

  /**
   * A job's history alternates: attempt a is taken at position 2a-2 and given
   * back at position 2a-1, and only the last release of a terminal job is final.
   */
  predicate RowMatches(r: Row, h: seq<Entry>) {
    && 1 <= r.maxAttempts <= 10
    && r.attempts <= r.maxAttempts
    && (r.status == Pending ==> r.attempts < r.maxAttempts)
    && (r.token.Some? <==> r.status == Running)
    && (r.leaseExpiresAt.Some? <==> r.status == Running)
    && (r.finishedAt.Some? <==> r.Terminal())
    && |h| == 2 * r.attempts - (if r.status == Running then 1 else 0)
    && (forall i :: 0 <= i < |h| ==> (h[i].Taken? <==> i % 2 == 0))
    && (forall i :: 0 <= i < |h| - 1 && h[i].Released? ==> !Final(h[i].how))
    && (r.status == Pending ==> h == [] || !Final(h[|h| - 1].how))
    && (r.status == Running ==> h[|h| - 1] == Taken(r.token.value))
    && (r.status == Succeeded ==> h != [] && h[|h| - 1] == Released(Acked))
    && (r.status == Failed ==> h != [] && h[|h| - 1] in {Released(FailedByWorker), Released(RecoveredToFailed)})
  }

  predicate StartRecorded(c: Claim) {
    (c.phase == Holding ==> !c.started) && (c.phase.Handling? || c.phase.Failing? ==> c.started)
  }

  predicate ClaimMatches(c: Claim, token: Token, rows: Rows, history: map<JobId, seq<Entry>>) {
    && c.job in rows && c.job in history
    && c.tenant == rows[c.job].tenant
    && c.maxAttempts == rows[c.job].maxAttempts
    && 1 <= c.attempt <= rows[c.job].attempts
    && 2 * c.attempt - 2 < |history[c.job]| && history[c.job][2 * c.attempt - 2] == Taken(token)
    && StartRecorded(c)
  }

  /** Every claim in a job's history is the one its token was issued for. */
  predicate TakenMatches(claims: map<Token, Claim>, job: JobId, h: seq<Entry>) {
    forall i :: 0 <= i < |h| && h[i].Taken? ==>
      h[i].token in claims && claims[h[i].token].job == job && claims[h[i].token].attempt == i / 2 + 1
  }

  predicate Consistent(rows: Rows, claims: map<Token, Claim>, history: map<JobId, seq<Entry>>) {
    && history.Keys == rows.Keys
    && (forall j :: j in rows ==> RowMatches(rows[j], history[j]))
    && (forall j :: j in rows ==> TakenMatches(claims, j, history[j]))
    && (forall t :: t in claims ==> ClaimMatches(claims[t], t, rows, history))
  }

  predicate Core(s: State) {
    Consistent(s.rows, s.claims, s.history)
  }

  /** All events but the `jobs.failed` of a worker are published for a commit. */
  predicate Backed(e: Event) {
    e.byRecovery || e.name != JobsFailed
  }

  function CommitOf(e: Event): Release {
    match e.name
    case JobsSucceeded => Acked
    case JobsRetryScheduled => if e.byRecovery then RecoveredToPending else Retried
    case JobsFailed => if e.byRecovery then RecoveredToFailed else FailedByWorker
  }

  predicate Committed(s: State, e: Event) {
    && e.job in s.history && 1 <= e.attempt && 2 * e.attempt <= |s.history[e.job]|
    && s.history[e.job][2 * e.attempt - 1] == Released(CommitOf(e))
    && (e.name == JobsSucceeded ==> !e.byRecovery)
  }

  function Announced(s: State): multiset<Event> {
    s.owed + s.published
  }

  predicate EventsBacked(s: State) {
    forall e :: e in Announced(s) && Backed(e) ==> Committed(s, e) && Announced(s)[e] == 1
  }

  predicate Inv(s: State) {
    Core(s) && EventsBacked(s)
  }
}
