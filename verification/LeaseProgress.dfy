/** How far runs of the lease protocol can go: bounded work, and bounded overtaking. */
module LeaseProgress {
  import opened Common
  import opened JobTable
  import opened LeaseProtocol
  import opened LeaseInvariants

  // ------------------------------------------------------------- bounded work

  /** The changes of ownership a row can still go through. */
  function Weight(r: Row): nat {
    if r.Terminal() || r.maxAttempts < r.attempts then 0
    else 2 * (r.maxAttempts - r.attempts) + (if r.status == Running then 1 else 0)
  }

  ghost function Work(rows: Rows): nat
    decreases |rows|
  {
    if rows == map[] then 0
    else
      var j :| j in rows;
      Weight(rows[j]) + Work(rows - {j})
  }

  lemma {:induction false} WorkWithout(rows: Rows, j: JobId)
    requires j in rows
    ensures Work(rows) == Weight(rows[j]) + Work(rows - {j})
    decreases |rows|
  {
    var k :| k in rows && Work(rows) == Weight(rows[k]) + Work(rows - {k});
    if k != j {
      WorkWithout(rows - {k}, j);
      WorkWithout(rows - {j}, k);
      assert rows - {k} - {j} == rows - {j} - {k};
    }
  }

  lemma WorkAfter(rows: Rows, j: JobId, r: Row)
    ensures Work(rows[j := r]) == Work(rows) + Weight(r) - (if j in rows then Weight(rows[j]) else 0)
  {
    WorkWithout(rows[j := r], j);
    if j in rows {
      WorkWithout(rows, j);
      assert rows[j := r] - {j} == rows - {j};
    } else {
      assert rows[j := r] - {j} == rows;
    }
  }

  /** Does the step give a job to a claim, or take it back? */
  predicate ChangesHands(s: State, st: Step)
    requires Enabled(s, st)
  {
    ChangeOf(s, st).Some? && ChangeOf(s, st).value.entry.Some?
  }

  lemma ChangeCosts(s: State, st: Step)
    requires Core(s) && Enabled(s, st) && ChangeOf(s, st).Some?
    ensures var c := ChangeOf(s, st).value;
      && (st.Enqueue? ==> Weight(c.row) == 2 * st.maxAttempts && c.job !in s.rows)
      && (!st.Enqueue? ==> c.job in s.rows)
      && (st.Renew? ==> Weight(c.row) == Weight(s.rows[c.job]))
      && (ChangesHands(s, st) || st.Enqueue? || st.Renew?)
      && (ChangesHands(s, st) ==> !st.Enqueue? && Weight(c.row) < Weight(s.rows[c.job]))
  {
    hide Core, Extended, RowMatches, OwedBy, ClaimsAfter;
    ChangeKeepsIdentity(s, st);
    ChangeKeepsBudget(s, st);
  }

  lemma ChangeKeepsBudget(s: State, st: Step)
    requires Core(s) && Enabled(s, st) && ChangeOf(s, st).Some?
    ensures var c := ChangeOf(s, st).value;
      && c.row.attempts <= c.row.maxAttempts
      && (c.job in s.rows ==> s.rows[c.job].attempts <= s.rows[c.job].maxAttempts)
  {
    hide ChangeOf, Enabled, Extended;
    var c := ChangeOf(s, st).value;
    assert c.job in s.rows ==> RowMatches(s.rows[c.job], s.history[c.job]);
    ChangeKeepsRow(s, st);
  }

  /** The attempts granted by the enqueue steps of a run. */
  function Granted(run: seq<Step>): nat {
    if run == [] then 0
    else (if run[0].Enqueue? then run[0].maxAttempts else 0) + Granted(run[1..])
  }

  function Handovers(s: State, run: seq<Step>): nat
    requires Legal(s, run)
    decreases |run|
  {
    if run == [] then 0
    else (if ChangesHands(s, run[0]) then 1 else 0) + Handovers(Apply(s, run[0]), run[1..])
  }

  lemma StepWork(s: State, st: Step)
    requires Core(s) && Enabled(s, st)
    ensures Work(Apply(s, st).rows) + (if ChangesHands(s, st) then 1 else 0)
         <= Work(s.rows) + (if st.Enqueue? then 2 * st.maxAttempts else 0)
    ensures st.Renew? ==> Work(Apply(s, st).rows) == Work(s.rows)
  {
    hide Core, Enabled, Apply, ChangeOf, Work, Weight;
    RowsEffect(s, st);
    if ChangeOf(s, st).Some? {
      var c := ChangeOf(s, st).value;
      ChangeCosts(s, st);
      WorkAfter(s.rows, c.job, c.row);
    }
  }

  /**
   * Every claim, retry, terminal step and recovery uses up work, and only
   * enqueuing adds any: a run changes the ownership of jobs at most as often as
   * the work it starts with plus two per attempt it grants.
   */
  lemma {:induction false} BoundedWork(s: State, run: seq<Step>)
    requires Core(s) && Legal(s, run)
    ensures Handovers(s, run) + Work(Exec(s, run).rows) <= Work(s.rows) + 2 * Granted(run)
    decreases |run|
  {
    hide Apply, Enabled, Core, Work, ChangesHands;
    if run != [] {
      StepWork(s, run[0]);
      StepKeepsCore(s, run[0]);
      BoundedWork(Apply(s, run[0]), run[1..]);
    }
  }

  // -------------------------------------------------------- bounded overtaking

  /** The pending jobs of the same tenant that the claim order puts before `job`. */
  function Ahead(rows: Rows, job: JobId): set<JobId>
    requires job in rows
  {
    set k | k in rows && rows[k].tenant == rows[job].tenant && rows[k].status == Pending && Before(rows, k, job)
  }

  /** The claim's select: the first due row, by the claim order, among those not locked by another transaction. */
  predicate IsOldestDue(rows: Rows, tenant: TenantId, now: int, locked: set<JobId>, id: JobId) {
    && id in rows && Due(rows[id], tenant, now) && id !in locked
    && forall k :: k in rows && k != id && k !in locked && Due(rows[k], tenant, now) ==> Before(rows, id, k)
  }

  /**
   * The conditions under which a pending, due job is watched over one step:
   * it is not locked by another claim, clock readings are past its due time,
   * nothing is enqueued ahead of it, and the step does not claim it.
   */
  predicate WatchedStep(s: State, st: Step, job: JobId, locked: set<JobId>)
    requires job in s.rows
  {
    var due := s.rows[job].availableAt;
    match st
    case Enqueue(id, _, _, _, availableAt) => due < availableAt || (due == availableAt && job < id)
    case ClaimJob(id, tenant, _, now, _) =>
      id != job && (tenant == s.rows[job].tenant ==>
                      due <= now && job !in locked && IsOldestDue(s.rows, tenant, now, locked, id))
    case ScheduleRetry(_, _, clock, _, _) => due < clock
    case Recover(_, _, now) => due < now
    case _ => true
  }

  /** A run during which `job` stays pending; each step comes with the rows locked by others when it selects. */
  predicate Watched(s: State, run: seq<Step>, locks: seq<set<JobId>>, job: JobId)
    requires Legal(s, run) && |locks| == |run|
    decreases |run|
  {
    && job in s.rows && s.rows[job].status == Pending
    && (run != [] ==>
          WatchedStep(s, run[0], job, locks[0]) && Watched(Apply(s, run[0]), run[1..], locks[1..], job))
  }

  /** The jobs of its tenant that a run claims, in order. */
  function Claimed(run: seq<Step>, tenant: TenantId): seq<JobId> {
    if run == [] then []
    else (if run[0].ClaimJob? && run[0].tenant == tenant then [run[0].id] else []) + Claimed(run[1..], tenant)
  }

  lemma WatchedRowStays(s: State, st: Step, job: JobId, locked: set<JobId>)
    requires Core(s) && Enabled(s, st) && job in s.rows && s.rows[job].status == Pending
    requires WatchedStep(s, st, job, locked)
    ensures job in Apply(s, st).rows && Apply(s, st).rows[job] == s.rows[job]
  {
    hide Apply, ClaimsAfter, OwedBy, HistoryAfter, IsOldestDue;
    RowsEffect(s, st);
  }

  lemma WatchedAhead(s: State, st: Step, job: JobId, locked: set<JobId>)
    requires Core(s) && Enabled(s, st) && job in s.rows && s.rows[job].status == Pending
    requires WatchedStep(s, st, job, locked)
    ensures job in Apply(s, st).rows && Ahead(Apply(s, st).rows, job) <= Ahead(s.rows, job)
    ensures st.ClaimJob? && st.tenant == s.rows[job].tenant ==>
              st.id in Ahead(s.rows, job) && st.id !in Ahead(Apply(s, st).rows, job)
  {
    WatchedRowStays(s, st, job, locked);
    var rows' := Apply(s, st).rows;
    forall k | k in Ahead(rows', job) ensures k in Ahead(s.rows, job) {
      WatchedOther(s, st, job, locked, k);
    }
  }

  /** No row that the step leaves pending moves ahead of the watched job. */
  lemma WatchedOther(s: State, st: Step, job: JobId, locked: set<JobId>, k: JobId)
    requires Core(s) && Enabled(s, st) && job in s.rows && s.rows[job].status == Pending
    requires WatchedStep(s, st, job, locked) && job in Apply(s, st).rows && Apply(s, st).rows[job] == s.rows[job]
    requires k in Ahead(Apply(s, st).rows, job)
    ensures k in Ahead(s.rows, job)
  {
    hide Core, HistoryAfter, ClaimsAfter, OwedBy, IsOldestDue;
  }

  /**
   * Bounded overtaking: while a due job waits, every job its tenant claims was
   * ahead of it at the start and none is claimed twice, so at most as many
   * claims pass it as there were jobs ahead.
   */
  lemma {:induction false} BoundedOvertaking(s: State, run: seq<Step>, locks: seq<set<JobId>>, job: JobId)
    requires Core(s) && Legal(s, run) && |locks| == |run| && Watched(s, run, locks, job)
    ensures job in Exec(s, run).rows && Exec(s, run).rows[job] == s.rows[job]
    ensures var passed := Claimed(run, s.rows[job].tenant);
      && (forall k :: k in passed ==> k in Ahead(s.rows, job) && k !in Ahead(Exec(s, run).rows, job))
      && (forall i, k :: 0 <= i < k < |passed| ==> passed[i] != passed[k])
      && |passed| + |Ahead(Exec(s, run).rows, job)| <= |Ahead(s.rows, job)|
    ensures Ahead(Exec(s, run).rows, job) <= Ahead(s.rows, job)
    decreases |run|
  {
    hide Apply, Enabled, Core, Ahead, WatchedStep;
    if run != [] {
      var s1 := Apply(s, run[0]);
      WatchedRowStays(s, run[0], job, locks[0]);
      WatchedAhead(s, run[0], job, locks[0]);
      StepKeepsCore(s, run[0]);
      BoundedOvertaking(s1, run[1..], locks[1..], job);
      var before, after := Ahead(s.rows, job), Ahead(s1.rows, job);
      if run[0].ClaimJob? && run[0].tenant == s.rows[job].tenant {
        SmallerSet(after, before - {run[0].id});
      } else {
        SmallerSet(after, before);
      }
    }
  }

  // ------------------------------------------------- the unfenced failure event

  /** A worker's `jobs.failed` is owed for a commit exactly when the fence of its update matched. */
  lemma FailureEventBackedExactlyWhenFenced(s: State, token: Token, code: ErrorCode,
                                            finishedAt: int, now: int)
    requires Core(s) && Enabled(s, FailTerminal(token, code, finishedAt, now))
    ensures var st := FailTerminal(token, code, finishedAt, now);
            var c := s.claims[token];
            var e := Event(JobsFailed, c.job, c.attempt, false);
      && OwedBy(s, st) == Some(e) && e in Apply(s, st).owed
      && (Wins(s, token, now) <==> !Committed(s, e) && Committed(Apply(s, st), e))
      && (Wins(s, token, now) <==> Apply(s, st).rows != s.rows)
  {
    var st := FailTerminal(token, code, finishedAt, now);
    hide Core, Apply, Committed;
    FailEffect(s, st);
    FailureCommits(s, st);
    WinningChangesRow(s, st);
  }

  lemma WinningChangesRow(s: State, st: Step)
    requires Core(s) && Enabled(s, st) && st.FailTerminal?
    ensures Wins(s, st.token, st.now) <==> Apply(s, st).rows != s.rows
  {
    hide Core, Apply;
    FailEffect(s, st);
    var c := s.claims[st.token];
    if Wins(s, st.token, st.now) { assert Apply(s, st).rows[c.job].status == Failed; }
  }

  lemma FailureCommits(s: State, st: Step)
    requires Core(s) && Enabled(s, st) && st.FailTerminal?
    ensures var c := s.claims[st.token];
            var e := Event(JobsFailed, c.job, c.attempt, false);
            Wins(s, st.token, st.now) <==> !Committed(s, e) && Committed(Apply(s, st), e)
  {
    hide ClaimsAfter, OwedBy, RowsAfter, SetColumns;
    var c := s.claims[st.token];
    assert ClaimMatches(c, st.token, s.rows, s.history);
    assert RowMatches(s.rows[c.job], s.history[c.job]);
    if Wins(s, st.token, st.now) { HolderIsLatest(s, c.job, st.token); }
    hide Core;
  }

  lemma Then(s: State, run: seq<Step>, st: Step)
    requires Legal(s, run) && Enabled(Exec(s, run), st)
    ensures Legal(s, run + [st]) && Exec(s, run + [st]) == Apply(Exec(s, run), st)
  {
    hide Apply, Enabled;
    ExecConcat(s, run, [st]);
  }

  /** A concrete job: enqueued with three attempts and claimed at once under token 7. */
  function FirstAttempt(kind: JobType, leaseMs: nat): Row {
    Row(1, kind, Running, 1, 3, 0, Some(7), Some(leaseMs), None, None)
  }

  predicate Holds(s: State, r: Row) {
    && 1 in s.rows && s.rows[1] == r
    && 7 in s.claims && s.claims[7] == Claim(1, 1, 1, 3, false, Holding)
  }

  lemma FirstEnqueue(kind: JobType) returns (run: seq<Step>, s: State)
    ensures Legal(INITIAL, run) && Exec(INITIAL, run) == s
    ensures 1 in s.rows && s.rows[1] == NewRow(1, kind, 3, 0) && s.claims == map[]
  {
    var st := Enqueue(1, 1, kind, 3, 0);
    hide Apply;
    EnqueueEffect(INITIAL, 1, 1, kind, 3, 0);
    s := Apply(INITIAL, st);
    Then(INITIAL, [], st);
    run := [] + [st];
  }

  lemma FirstClaim(kind: JobType, leaseMs: nat) returns (run: seq<Step>, s: State)
    ensures Legal(INITIAL, run) && Exec(INITIAL, run) == s && Holds(s, FirstAttempt(kind, leaseMs))
  {
    hide Legal, Exec, Apply;
    var before, s1 := FirstEnqueue(kind);
    ClaimEffect(s1, 1, 1, 7, 0, leaseMs);
    s := Apply(s1, ClaimJob(1, 1, 7, 0, leaseMs));
    assert Holds(s, FirstAttempt(kind, leaseMs));
    hide Enabled, Holds;
    Then(INITIAL, before, ClaimJob(1, 1, 7, 0, leaseMs));
    run := before + [ClaimJob(1, 1, 7, 0, leaseMs)];
  }

  lemma FirstRecovery(kind: JobType) returns (run: seq<Step>, s: State)
    ensures Legal(INITIAL, run) && Exec(INITIAL, run) == s
    ensures Holds(s, RecoverColumns(FirstAttempt(kind, 1000), 1000))
  {
    hide Legal, Exec, Apply;
    var before, s1 := FirstClaim(kind, 1000);
    RecoverEffect(s1, 1, 1, 1000);
    s := Apply(s1, Recover(1, 1, 1000));
    assert Holds(s, RecoverColumns(FirstAttempt(kind, 1000), 1000));
    hide Enabled, Holds;
    Then(INITIAL, before, Recover(1, 1, 1000));
    run := before + [Recover(1, 1, 1000)];
  }

  /** So `jobs.failed` can be published for a job that is back in the queue with attempts left. */
  lemma FailurePublishedForPendingJob(kind: JobType) returns (run: seq<Step>)
    ensures Legal(INITIAL, run)
    ensures var s := Exec(INITIAL, run);
            Event(JobsFailed, 1, 1, false) in s.published
            && 1 in s.rows && s.rows[1].status == Pending && s.rows[1].attempts < s.rows[1].maxAttempts
  {
    hide Legal, Exec, Apply;
    var before, s := FirstRecovery(kind);
    var e := Event(JobsFailed, 1, 1, false);
    var fail, publish := FailTerminal(7, PayloadInvalid, 1001, 1001), Publish(e);
    FailEffect(s, fail);
    var s1 := Apply(s, fail);
    PublishEffect(s1, e);
    Then(INITIAL, before, fail);
    Then(INITIAL, before + [fail], publish);
    run := before + [fail] + [publish];
  }
}
