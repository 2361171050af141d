/** What executing a claim comes to: the last update and its event, decided by what happened to the handler. */
module WorkerOutcomes {
  import opened Common
  import opened JobTable
  import opened LeaseProtocol
  import opened LockRefinement
  import opened Worker
  import opened WorkerConfiguration

  /** The handler ran, and ended in an exception, or its acknowledgement did. */
  predicate EndedInError(i: Inputs) {
    i.known && i.parsed && (i.outcome != Completed || i.reply.Lost?)
  }

  predicate EndedWell(i: Inputs) {
    i.known && i.parsed && i.outcome == Completed && i.reply == Delivered
  }

  /** The error was of the kind that is not retried. */
  predicate NonRetryableError(i: Inputs) {
    i.outcome.ThrewNonRetryable?
  }

  predicate AttemptsLeft(c: ClaimedRow) {
    c.attempts + 1 < c.maxAttempts
  }

  /** The last update is a retry exactly after a retryable error with an attempt left. */
  lemma RetryExactly(c: ClaimedRow, cfg: Config, i: Inputs)
    requires ResolveWorkerConfig(cfg) == Ok(cfg)
    ensures LastOf(Script(c, cfg, i)).ScheduleRetry? <==> EndedInError(i) && !NonRetryableError(i) && AttemptsLeft(c)
    ensures LastOf(Script(c, cfg, i)).Acknowledge? <==> EndedWell(i)
    ensures LastOf(Script(c, cfg, i)).FailTerminal? <==>
              !i.known || !i.parsed || (EndedInError(i) && (NonRetryableError(i) || !AttemptsLeft(c)))
  {
    EndOfScript(c, cfg, i);
    hide Script, BackoffDelay;
  }

  lemma EndOfScript(c: ClaimedRow, cfg: Config, i: Inputs)
    requires ResolveWorkerConfig(cfg) == Ok(cfg)
    ensures Script(c, cfg, i) != []
    ensures i.known && i.parsed ==> LastOf(Script(c, cfg, i)) == LastOf(Ending(c, cfg, i))
    ensures !i.known ==> LastOf(Script(c, cfg, i)) == FailTerminal(c.token, UnknownType, i.finishedAt, i.now)
    ensures i.known && !i.parsed ==> LastOf(Script(c, cfg, i)) == FailTerminal(c.token, PayloadInvalid, i.finishedAt, i.now)
  {
    hide Ending, Renewals;
    if i.known && i.parsed {
      ScriptsEnd(c, cfg, i, [StartHandler(c.token)] + Renewals(c.token, i.renewals, cfg.leaseSeconds * 1000));
    }
  }

  /**
   * What the last update carries. A retry is due the backoff of this attempt after the clock's reading; the
   * code is the error's own if it is non-retryable, else the time-out if there was one, else the handler's error.
   */
  lemma LastUpdateCarries(c: ClaimedRow, cfg: Config, i: Inputs)
    requires ResolveWorkerConfig(cfg) == Ok(cfg)
    ensures var thrown := if i.timedOut then HandlerTimeout else HandlerError;
            match LastOf(Script(c, cfg, i))
            case ScheduleRetry(token, code, clock, delay, now) =>
              token == c.token && code == thrown && clock == i.clock && now == i.now
              && delay == BackoffDelay(c.attempts + 1, cfg, i.random)
              && Min(cfg.backoffCapMs, cfg.backoffBaseMs * Pow2(c.attempts)) <= delay <= cfg.backoffCapMs
            case FailTerminal(token, code, finishedAt, now) =>
              token == c.token && finishedAt == i.finishedAt && now == i.now
              && code == if !i.known then UnknownType
                         else if !i.parsed then PayloadInvalid
                         else if NonRetryableError(i) then i.outcome.code
                         else thrown
            case Acknowledge(token, finishedAt, now, replyLost) =>
              token == c.token && finishedAt == i.finishedAt && now == i.now && !replyLost
            case _ => false
  {
    EndOfScript(c, cfg, i);
    DelayRange(c.attempts + 1, cfg, i.random);
    hide Script, BackoffDelay;
  }

  /** A handler starts exactly for a known type and an accepted payload. */
  lemma {:induction false} HandlerStartsExactly(c: ClaimedRow, cfg: Config, i: Inputs)
    requires ResolveWorkerConfig(cfg) == Ok(cfg)
    ensures StartHandler(c.token) in Script(c, cfg, i) <==> i.known && i.parsed
  {
    hide BackoffDelay;
  }

  /** The lease is renewed once per pair of readings, each time for the configured duration from the first of them. */
  lemma {:induction false} RenewalAt(token: Token, readings: seq<(int, int)>, leaseMs: nat, k: nat)
    requires k < |readings|
    ensures |Renewals(token, readings, leaseMs)| == |readings|
    ensures Renewals(token, readings, leaseMs)[k] == Renew(token, readings[k].0, readings[k].1, leaseMs)
    decreases |readings|
  {
    var last := |readings| - 1;
    if last > 0 { RenewalAt(token, readings[..last], leaseMs, if k < last then k else 0); }
  }

  /**
   * What the publisher is told of an execution: a success and a retry if the update won, a failure in any
   * case; always for the job and the attempt of the claim.
   */
  lemma AnnouncedExactly(c: ClaimedRow, cfg: Config, i: Inputs, won: bool)
    requires ResolveWorkerConfig(cfg) == Ok(cfg)
    ensures Announcement(c, LastOf(Script(c, cfg, i)), won) ==
              if EndedWell(i) then (if won then [Event(JobsSucceeded, c.id, c.attempts + 1, false)] else [])
              else if EndedInError(i) && !NonRetryableError(i) && AttemptsLeft(c)
                then (if won then [Event(JobsRetryScheduled, c.id, c.attempts + 1, false)] else [])
              else [Event(JobsFailed, c.id, c.attempts + 1, false)]
  {
    RetryExactly(c, cfg, i);
    LastUpdateCarries(c, cfg, i);
    hide Script, BackoffDelay;
  }

  // ------------------------------------------------------------- what recovery selects

  /** The rows of the tenant whose lease has run out and that no other transaction has locked. */
  function Recoverable(rows: Rows, tenant: TenantId, now: int, locked: set<JobId>): set<JobId> {
    set k | k in rows && k !in locked && Expired(rows[k], tenant, now)
  }

  function Ids(ids: seq<JobId>): set<JobId> {
    set i | 0 <= i < |ids| :: ids[i]
  }

  lemma {:induction false} IdsCount(ids: seq<JobId>)
    requires forall i, k :: 0 <= i < k < |ids| ==> ids[i] != ids[k]
    ensures |Ids(ids)| == |ids|
  {
    if ids != [] {
      IdsCount(ids[1..]);
      assert Ids(ids) == {ids[0]} + Ids(ids[1..]) by {
        assert forall i :: 0 < i < |ids| ==> ids[i] == ids[1..][i - 1];
      }
    }
  }

  /** A recovery takes as many as the limit allows, and none that is left out has run out before one it takes. */
  lemma RecoveryTakesSoonest(rows: Rows, tenant: TenantId, now: int, limit: nat, locked: set<JobId>, ids: seq<JobId>)
    requires IsExpiredSelection(rows, tenant, now, limit, locked, ids)
    ensures |ids| == Min(limit, |Recoverable(rows, tenant, now, locked)|)
    ensures Ids(ids) <= Recoverable(rows, tenant, now, locked)
    ensures forall id, k :: id in Ids(ids) && k in Recoverable(rows, tenant, now, locked) - Ids(ids) ==>
              rows[id].leaseExpiresAt.value <= rows[k].leaseExpiresAt.value
  {
    var all := Recoverable(rows, tenant, now, locked);
    IdsCount(ids);
    SmallerSet(Ids(ids), all);
    if |ids| < limit {
      forall k | k in all ensures k in Ids(ids) {}
      assert Ids(ids) == all;
    }
  }

  /** There is always such a selection. */
  lemma {:induction false} RecoverySelectionExists(rows: Rows, tenant: TenantId, now: int, limit: nat, locked: set<JobId>)
    returns (ids: seq<JobId>)
    ensures IsExpiredSelection(rows, tenant, now, limit, locked, ids)
    decreases limit
  {
    if limit == 0 {
      ids := [];
    } else {
      var before := RecoverySelectionExists(rows, tenant, now, limit - 1, locked);
      var rest := Recoverable(rows, tenant, now, locked) - Ids(before);
      if rest == {} {
        ids := before;
        forall k | k in rows && k !in locked && Expired(rows[k], tenant, now) ensures k in before {
          assert k in Recoverable(rows, tenant, now, locked);
          assert k !in rest;
        }
      } else {
        var next := SoonestOf(rows, rest);
        ids := before + [next];
        ExtendSelection(rows, tenant, now, limit - 1, locked, before, next);
      }
    }
  }

  lemma {:induction false} SoonestOf(rows: Rows, ids: set<JobId>) returns (soonest: JobId)
    requires ids != {} && forall k :: k in ids ==> k in rows && rows[k].leaseExpiresAt.Some?
    ensures soonest in ids
    ensures forall k :: k in ids ==> rows[soonest].leaseExpiresAt.value <= rows[k].leaseExpiresAt.value
    decreases |ids|
  {
    soonest :| soonest in ids;
    if ids != {soonest} {
      var rest := ids - {soonest};
      assert ids == rest + {soonest};
      var other := SoonestOf(rows, rest);
      if rows[other].leaseExpiresAt.value < rows[soonest].leaseExpiresAt.value { soonest := other; }
    }
  }

  lemma ExtendSelection(rows: Rows, tenant: TenantId, now: int, limit: nat, locked: set<JobId>, ids: seq<JobId>, next: JobId)
    requires IsExpiredSelection(rows, tenant, now, limit, locked, ids)
    requires next in Recoverable(rows, tenant, now, locked) - Ids(ids)
    requires forall k :: k in Recoverable(rows, tenant, now, locked) - Ids(ids) ==>
               rows[next].leaseExpiresAt.value <= rows[k].leaseExpiresAt.value
    ensures IsExpiredSelection(rows, tenant, now, limit + 1, locked, ids + [next])
  {
    assert next !in ids;
    assert |ids| == limit;
    forall k | k in rows && k !in ids + [next] && k !in locked && Expired(rows[k], tenant, now)
      ensures k in Recoverable(rows, tenant, now, locked) - Ids(ids)
    {}
  }
}
