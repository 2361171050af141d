/** What the steps of the lease protocol write, and why attempts end as they do. */
module LeaseOutcomes {
  import opened Common
  import opened JobTable
  import opened LeaseProtocol
  import opened LeaseInvariants
  import opened LeaseSafety

  // ---------------------------------------------------------------- columns written

  /** A new job is pending and unattempted, with the caller's tenant, type, budget and schedule. */
  lemma EnqueueWrites(s: State, st: Step)
    requires st.Enqueue? && Enabled(s, st)
    ensures Apply(s, st).rows == s.rows[st.id :=
              Row(st.tenant, st.kind, Pending, 0, st.maxAttempts, st.availableAt, None, None, None, None)]
  {
  }

  /** A claim takes a job that is due, counts an attempt and stamps the lease; the schedule and the last error stay. */
  lemma ClaimWrites(s: State, st: Step)
    requires st.ClaimJob?
    ensures Enabled(s, st) <==>
              st.id in s.rows && s.rows[st.id].tenant == st.tenant && s.rows[st.id].status == Pending
              && s.rows[st.id].availableAt <= st.now && st.token !in s.claims
    ensures Enabled(s, st) ==>
              var r := s.rows[st.id];
              Apply(s, st).rows == s.rows[st.id :=
                Row(r.tenant, r.kind, Running, r.attempts + 1, r.maxAttempts, r.availableAt,
                    Some(st.token), Some(st.now + st.leaseMs), r.finishedAt, r.lastError)]
  {
  }

  /** A recovery takes a lease that has run out, and gives the job back at once, or fails it with its budget spent. */
  lemma RecoveryWrites(s: State, st: Step)
    requires st.Recover?
    ensures Enabled(s, st) <==>
              st.id in s.rows && s.rows[st.id].tenant == st.tenant && s.rows[st.id].status == Running
              && s.rows[st.id].leaseExpiresAt.Some? && s.rows[st.id].leaseExpiresAt.value <= st.now
    ensures Enabled(s, st) ==>
              var r := s.rows[st.id];
              var spent := r.maxAttempts <= r.attempts;
              Apply(s, st).rows == s.rows[st.id :=
                Row(r.tenant, r.kind, if spent then Failed else Pending, r.attempts, r.maxAttempts, st.now,
                    None, None, if spent then Some(st.now) else None, Some(LeaseLost))]
  {
  }

  /** The update of a worker whose fence matches: the columns of its step, and no others. */
  lemma UpdateWrites(s: State, st: Step)
    requires Enabled(s, st) && (st.Renew? || st.Acknowledge? || st.ScheduleRetry? || st.FailTerminal?)
    ensures Wins(s, st.token, st.now) ==>
              var job := s.claims[st.token].job;
              var r := s.rows[job];
              var released := r.(token := None, leaseExpiresAt := None);
              Apply(s, st).rows == s.rows[job :=
                match st
                case Renew(_, clock, _, leaseMs) => r.(leaseExpiresAt := Some(clock + leaseMs))
                case Acknowledge(_, finishedAt, _, _) => released.(status := Succeeded, finishedAt := Some(finishedAt))
                case ScheduleRetry(_, code, clock, delay, _) =>
                  released.(status := Pending, availableAt := clock + delay, lastError := Some(code))
                case FailTerminal(_, code, finishedAt, _) =>
                  released.(status := Failed, finishedAt := Some(finishedAt), lastError := Some(code))
                case _ => r]
    ensures !Wins(s, st.token, st.now) ==> Apply(s, st).rows == s.rows
  {
    hide ClaimsAfter, OwedBy, HistoryAfter;
  }

  /** At any reading of a clock the lease of a running job is either live, so that its holder can act, or can be recovered. */
  lemma LiveOrRecoverable(r: Row, now: int)
    requires r.status == Running && r.token.Some? && r.leaseExpiresAt.Some?
    ensures Fenced(r, r.tenant, r.token.value, now) <==> !Expired(r, r.tenant, now)
  {
  }

  // ------------------------------------------------------------------- first claims

  /** When a run first claims the job, by the claiming worker's clock. */
  function FirstClaimAt(run: seq<Step>, job: JobId): Option<int> {
    if run == [] then None
    else if run[0].ClaimJob? && run[0].id == job then Some(run[0].now)
    else FirstClaimAt(run[1..], job)
  }

  /** A job nobody has claimed yet is not claimed before its scheduled time, whatever else happens. */
  lemma {:induction false} NotClaimedEarly(s: State, run: seq<Step>, job: JobId)
    requires Core(s) && Legal(s, run) && job in s.rows && s.rows[job].status == Pending
    ensures FirstClaimAt(run, job).Some? ==> s.rows[job].availableAt <= FirstClaimAt(run, job).value
    decreases |run|
  {
    hide Core, Apply;
    if run != [] && !(run[0].ClaimJob? && run[0].id == job) {
      PendingStays(s, run[0], job);
      StepKeepsCore(s, run[0]);
      NotClaimedEarly(Apply(s, run[0]), run[1..], job);
    }
  }

  /** Only a claim changes a pending row. */
  lemma PendingStays(s: State, st: Step, job: JobId)
    requires Core(s) && Enabled(s, st) && job in s.rows && s.rows[job].status == Pending
    requires !(st.ClaimJob? && st.id == job)
    ensures job in Apply(s, st).rows && Apply(s, st).rows[job] == s.rows[job]
  {
    hide Apply, ClaimsAfter, OwedBy, HistoryAfter, Core;
    RowsEffect(s, st);
  }

  // ------------------------------------------------------------- why attempts end

  /** How an attempt was given back, once it was. */
  predicate EndOf(h: seq<Entry>, attempt: nat, how: Release) {
    0 < attempt && 2 * attempt - 1 < |h| && h[2 * attempt - 1] == Released(how)
  }

  /**
   * A retry follows a handler's error that was not non-retryable, with an attempt left; a failure by
   * the worker follows a handler that never started, a non-retryable error, or the last attempt; an
   * acknowledgement follows a handler that ran; a recovery fails the last attempt only.
   */
  predicate EndMatches(c: Claim, h: seq<Entry>) {
    && (EndOf(h, c.attempt, Retried) ==> c.phase == Done(false) && c.started && c.attempt < c.maxAttempts)
    && (EndOf(h, c.attempt, FailedByWorker) ==>
          c.phase.Done? && (!c.started || c.phase.nonRetryable || c.attempt >= c.maxAttempts))
    && (EndOf(h, c.attempt, Acked) ==> c.started)
    && (EndOf(h, c.attempt, RecoveredToPending) ==> c.attempt < c.maxAttempts)
    && (EndOf(h, c.attempt, RecoveredToFailed) ==> c.attempt >= c.maxAttempts)
  }

  predicate EndsMatch(s: State) {
    forall t :: t in s.claims ==> EndMatches(s.claims[t], HistoryOf(s.history, s.claims[t].job))
  }

  /** A claim's own steps, before it is done, do not undo what its end says. */
  lemma EndStands(s: State, st: Step, t: Token, h: seq<Entry>)
    requires Enabled(s, st) && t in s.claims && EndMatches(s.claims[t], h) && StartRecorded(s.claims[t])
    ensures t in ClaimsAfter(s, st) && EndMatches(ClaimsAfter(s, st)[t], h)
  {
  }

  /** Who gave the attempt back, when a step does. */
  lemma NewEnd(s: State, st: Step, t: Token)
    requires Core(s) && Enabled(s, st) && t in s.claims && ChangeOf(s, st).Some? && ChangeOf(s, st).value.entry.Some?
    requires s.claims[t].job == ChangeOf(s, st).value.job
    requires |HistoryOf(s.history, s.claims[t].job)| == 2 * s.claims[t].attempt - 1
    ensures var entry := ChangeOf(s, st).value.entry.value;
            entry.Released? && EndMatches(ClaimsAfter(s, st)[t], HistoryOf(s.history, s.claims[t].job) + [entry])
  {
    var c := s.claims[t];
    hide Core, TakenMatches;
    ClaimOf(s, t);
    RowOf(s, c.job);
    if Actor(st).Some? {
      HoldsLast(s, st, t);
    }
    hide RowMatches, ClaimMatches;
  }

  lemma HoldsLast(s: State, st: Step, t: Token)
    requires Enabled(s, st) && t in s.claims && ClaimMatches(s.claims[t], t, s.rows, s.history)
    requires RowMatches(s.rows[s.claims[t].job], s.history[s.claims[t].job])
    requires Actor(st).Some? && ChangeOf(s, st).Some? && s.claims[t].job == ChangeOf(s, st).value.job
    requires |s.history[s.claims[t].job]| == 2 * s.claims[t].attempt - 1
    ensures Actor(st) == Some(t)
  {
  }

  lemma ClaimOf(s: State, t: Token)
    requires Core(s) && t in s.claims
    ensures ClaimMatches(s.claims[t], t, s.rows, s.history)
  {
    hide RowMatches, TakenMatches, ClaimMatches;
  }

  lemma RowOf(s: State, job: JobId)
    requires Core(s) && job in s.rows
    ensures job in s.history && RowMatches(s.rows[job], s.history[job]) && TakenMatches(s.claims, job, s.history[job])
  {
    hide RowMatches, TakenMatches, ClaimMatches;
  }

  lemma EndsAfter(s: State, st: Step, t: Token)
    requires Core(s) && EndsMatch(s) && Enabled(s, st) && t in s.claims
    ensures t in ClaimsAfter(s, st)
    ensures EndMatches(ClaimsAfter(s, st)[t], HistoryOf(HistoryAfter(s.history, ChangeOf(s, st)), s.claims[t].job))
  {
    hide Core, ClaimsAfter, Enabled, ChangeOf, EndMatches;
    var c := s.claims[t];
    var h := HistoryOf(s.history, c.job);
    ClaimOf(s, t);
    assert EndMatches(c, h);
    EndStands(s, st, t, h);
    var change := ChangeOf(s, st);
    if change.Some? && change.value.job == c.job && change.value.entry.Some? {
      if |h| == 2 * c.attempt - 1 { NewEnd(s, st, t); }
      else { LaterEntry(ClaimsAfter(s, st)[t], h, change.value.entry.value, c.attempt); SameAttempt(s, st, t); }
    } else if change.Some? && change.value.job == c.job {
      assert h + [] == h;
    }
  }

  lemma SameAttempt(s: State, st: Step, t: Token)
    requires Enabled(s, st) && t in s.claims
    ensures t in ClaimsAfter(s, st) && ClaimsAfter(s, st)[t].attempt == s.claims[t].attempt
  {
    hide Enabled;
    ClaimsEvolve(s, st, t);
  }

  /** An entry past the end of an attempt says nothing of it. */
  lemma LaterEntry(c: Claim, h: seq<Entry>, entry: Entry, attempt: nat)
    requires EndMatches(c, h) && 2 * attempt - 1 < |h|
    ensures c.attempt == attempt ==> EndMatches(c, h + [entry])
  {
  }

  lemma NewClaimUnended(s: State, st: Step)
    requires Core(s) && Enabled(s, st) && st.ClaimJob?
    ensures EndMatches(ClaimsAfter(s, st)[st.token], HistoryOf(HistoryAfter(s.history, ChangeOf(s, st)), st.id))
  {
    assert RowMatches(s.rows[st.id], s.history[st.id]);
  }

  lemma StepKeepsEnds(s: State, st: Step)
    requires Core(s) && EndsMatch(s) && Enabled(s, st)
    ensures EndsMatch(Apply(s, st))
  {
    hide EndMatches, Core, ChangeOf, HistoryAfter, OwedBy;
    forall t | t in ClaimsAfter(s, st)
      ensures EndMatches(ClaimsAfter(s, st)[t], HistoryOf(HistoryAfter(s.history, ChangeOf(s, st)), ClaimsAfter(s, st)[t].job))
    {
      if t in s.claims {
        EndsAfter(s, st, t);
        ClaimsEvolve(s, st, t);
      } else {
        NewClaimUnended(s, st);
      }
    }
  }

  lemma {:induction false} RunKeepsEnds(s: State, run: seq<Step>)
    requires Core(s) && EndsMatch(s) && Legal(s, run)
    ensures Core(Exec(s, run)) && EndsMatch(Exec(s, run))
    decreases |run|
  {
    hide Core, EndsMatch, Apply, Enabled;
    if run != [] {
      StepKeepsCore(s, run[0]);
      StepKeepsEnds(s, run[0]);
      RunKeepsEnds(Apply(s, run[0]), run[1..]);
    }
  }

  /** The claim's handler threw a non-retryable error. */
  predicate GaveUp(s: State, t: Token) {
    t in s.claims && (s.claims[t].phase == Failing(true) || s.claims[t].phase == Done(true))
  }

  lemma {:induction false} GaveUpForGood(s: State, run: seq<Step>, t: Token)
    requires Legal(s, run) && (GaveUp(s, t) || HandlerThrows(t, true) in run)
    ensures GaveUp(Exec(s, run), t)
    decreases |run|
  {
    hide Apply, Enabled, GaveUp;
    if run != [] {
      GaveUpStays(s, run[0], t);
      GaveUpForGood(Apply(s, run[0]), run[1..], t);
    }
  }

  lemma GaveUpStays(s: State, st: Step, t: Token)
    requires Enabled(s, st)
    ensures GaveUp(s, t) || st == HandlerThrows(t, true) ==> GaveUp(Apply(s, st), t)
  {
    hide ChangeOf, OwedBy;
  }

  /**
   * Over every run: an attempt whose handler threw a non-retryable error is never given back as a
   * retry, whatever attempts are left.
   */
  lemma NonRetryableNeverRetried(run: seq<Step>, t: Token)
    requires Legal(INITIAL, run) && HandlerThrows(t, true) in run
    ensures var s := Exec(INITIAL, run);
            t in s.claims && !EndOf(HistoryOf(s.history, s.claims[t].job), s.claims[t].attempt, Retried)
  {
    hide Legal, Exec;
    RunKeepsEnds(INITIAL, run);
    GaveUpForGood(INITIAL, run, t);
    var s := Exec(INITIAL, run);
    assert EndMatches(s.claims[t], HistoryOf(s.history, s.claims[t].job));
  }

  /** The claim of a failed job's last attempt, and how it ended. */
  lemma LastClaim(s: State, job: JobId) returns (t: Token)
    requires Core(s) && job in s.rows && s.rows[job].status == Failed
    ensures t in s.claims && s.claims[t].job == job && s.claims[t].attempt == s.rows[job].attempts
    ensures s.claims[t].maxAttempts == s.rows[job].maxAttempts && job in s.history
    ensures EndOf(s.history[job], s.rows[job].attempts, FailedByWorker)
         || EndOf(s.history[job], s.rows[job].attempts, RecoveredToFailed)
  {
    hide Core, RowMatches;
    RowOf(s, job);
    var h := s.history[job];
    LastAttempt(s.rows[job], h);
    t := h[|h| - 2].token;
    assert TakenMatches(s.claims, job, h) && h[|h| - 2].Taken?;
    hide TakenMatches;
    ClaimOf(s, t);
  }

  lemma LastAttempt(r: Row, h: seq<Entry>)
    requires RowMatches(r, h) && r.status == Failed
    ensures |h| == 2 * r.attempts && |h| >= 2 && h[|h| - 2].Taken?
    ensures h[|h| - 1] == Released(FailedByWorker) || h[|h| - 1] == Released(RecoveredToFailed)
  {
  }

  /**
   * And a job that failed with attempts left failed because its last attempt threw such an error, or
   * because its handler never started: its type is unknown or its payload invalid.
   */
  lemma EarlyFailureHasReason(run: seq<Step>, job: JobId)
    requires Legal(INITIAL, run) && job in Exec(INITIAL, run).rows
    requires Exec(INITIAL, run).rows[job].status == Failed
    requires Exec(INITIAL, run).rows[job].attempts < Exec(INITIAL, run).rows[job].maxAttempts
    ensures var s := Exec(INITIAL, run);
            exists t :: t in s.claims && s.claims[t].job == job && s.claims[t].attempt == s.rows[job].attempts
                        && (GaveUp(s, t) || !s.claims[t].started)
  {
    hide Legal, Exec;
    RunKeepsEnds(INITIAL, run);
    ReachableInv(run);
    var s := Exec(INITIAL, run);
    var r, h := s.rows[job], s.history[job];
    var t := LastClaim(s, job);
    hide Core, EventsBacked;
    assert EndMatches(s.claims[t], HistoryOf(s.history, job));
  }

  // ---------------------------------------------------------------- recorded errors

  /** A failed job has its error; one given back by recovery lost its lease. */
  predicate ErrorRecorded(r: Row, h: seq<Entry>) {
    && (r.status == Failed ==> r.lastError.Some?)
    && (r.status == Pending && r.attempts > 0 ==> r.lastError.Some?)
    && (h != [] && h[|h| - 1] in {Released(RecoveredToPending), Released(RecoveredToFailed)} ==> r.lastError == Some(LeaseLost))
  }

  predicate ErrorsRecorded(s: State) {
    forall j :: j in s.rows ==> ErrorRecorded(s.rows[j], HistoryOf(s.history, j))
  }

  lemma StepRecordsErrors(s: State, st: Step)
    requires Core(s) && ErrorsRecorded(s) && Enabled(s, st)
    ensures ErrorsRecorded(Apply(s, st))
  {
    hide ErrorRecorded, Extended, Core, ChangeOf, ClaimsAfter, OwedBy, Enabled;
    if ChangeOf(s, st).Some? { ChangeRecordsError(s, st); }
  }

  lemma ChangeRecordsError(s: State, st: Step)
    requires Core(s) && ErrorsRecorded(s) && Enabled(s, st) && ChangeOf(s, st).Some?
    ensures var c := ChangeOf(s, st).value;
            ErrorRecorded(c.row, Extended(s.history, c))
  {
    hide Core, ErrorsRecorded, RowMatches, TakenMatches, ClaimMatches, ClaimsAfter, OwedBy;
    if st.Enqueue? { NoHistory(s, st.id); }
    if st.Renew? {
      RowOf(s, s.claims[st.token].job);
      LastTaken(s.rows[s.claims[st.token].job], s.history[s.claims[st.token].job]);
    }
  }

  lemma LastTaken(r: Row, h: seq<Entry>)
    requires RowMatches(r, h) && r.status == Running
    ensures h != [] && h[|h| - 1].Taken?
  {
  }

  lemma NoHistory(s: State, job: JobId)
    requires Core(s) && job !in s.rows
    ensures HistoryOf(s.history, job) == []
  {
    hide RowMatches, TakenMatches, ClaimMatches;
  }

  /** Over every run, whatever failed or is queued again says why. */
  lemma {:induction false} RunRecordsErrors(s: State, run: seq<Step>)
    requires Core(s) && ErrorsRecorded(s) && Legal(s, run)
    ensures ErrorsRecorded(Exec(s, run))
    decreases |run|
  {
    hide Core, ErrorsRecorded, Apply, Enabled;
    if run != [] {
      StepKeepsCore(s, run[0]);
      StepRecordsErrors(s, run[0]);
      RunRecordsErrors(Apply(s, run[0]), run[1..]);
    }
  }
}
