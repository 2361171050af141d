/** When the renewal loop keeps a lease alive, given how late its cycles can run. */
module LeaseTiming {
  import opened Common
  import opened JobTable
  import opened LeaseProtocol
  import opened LeaseInvariants
  import opened LeaseSafety
  import opened LeaseProgress
  import opened WorkerConfiguration

  /** The clock reading a step compares leases with; a renewal computes the new expiry from an earlier one. */
  function Reading(st: Step): Option<int> {
    match st
    case ClaimJob(_, _, _, now, _) => Some(now)
    case Renew(_, _, now, _) => Some(now)
    case Acknowledge(_, _, now, _) => Some(now)
    case ScheduleRetry(_, _, _, _, now) => Some(now)
    case FailTerminal(_, _, _, now) => Some(now)
    case Recover(_, _, now) => Some(now)
    case _ => None
  }

  /** The latest clock reading the holder counted its lease from after a run, `last` being the one before it. */
  function LastReading(run: seq<Step>, token: Token, last: int): int {
    if run == [] then last
    else LastReading(run[1..], token, if run[0].Renew? && run[0].token == token then run[0].clock else last)
  }

  /**
   * All workers read one clock, and the holder of `token`, still in its handler,
   * renews in time: when any step reads the clock, at most `gap` has passed
   * since the reading the holder last counted its lease from. The renewal loop
   * sleeps first and reads the clock once for the expiry and once for the fence,
   * so `gap` is the renewal interval plus whatever the rest of the cycle takes.
   */
  predicate Punctual(run: seq<Step>, token: Token, leaseMs: nat, gap: nat, last: int) {
    run == [] ||
    (var st := run[0];
     && (Reading(st).Some? ==> Reading(st).value <= last + gap)
     && (Actor(st) == Some(token) ==> st.Renew? && st.leaseMs == leaseMs)
     && Punctual(run[1..], token, leaseMs, gap, if st.Renew? && st.token == token then st.clock else last))
  }

  /** The job is held under a lease counted from the reading `last`. */
  predicate Leased(s: State, job: JobId, token: Token, leaseMs: nat, last: int) {
    && HeldBy(s, job, token)
    && s.rows[job].leaseExpiresAt == Some(last + leaseMs)
    && s.rows[job].tenant == s.claims[token].tenant
  }

  lemma LeasedByRow(s: State, job: JobId, token: Token, leaseMs: nat, last: int)
    requires Core(s) && job in s.rows && s.rows[job].status == Running && s.rows[job].token == Some(token)
    requires s.rows[job].leaseExpiresAt == Some(last + leaseMs)
    ensures Leased(s, job, token, leaseMs, last)
  {
    HolderIsLatest(s, job, token);
    assert RowMatches(s.rows[job], s.history[job]);
    assert ClaimMatches(s.claims[token], token, s.rows, s.history);
  }

  lemma RenewalKeepsLease(s: State, job: JobId, token: Token, leaseMs: nat, last: int, clock: int, now: int)
    requires Core(s) && Leased(s, job, token, leaseMs, last) && now < last + leaseMs
    requires Enabled(s, Renew(token, clock, now, leaseMs))
    ensures Leased(Apply(s, Renew(token, clock, now, leaseMs)), job, token, leaseMs, clock)
  {
    var st := Renew(token, clock, now, leaseMs);
    hide Apply, ClaimMatches, TakenMatches, RowMatches;
    StepKeepsCore(s, st);
    RenewEffect(s, token, clock, now, leaseMs);
    assert Fenced(s.rows[job], s.claims[token].tenant, token, now);
    hide Core;
    LeasedByRow(Apply(s, st), job, token, leaseMs, clock);
  }

  lemma OthersKeepLease(s: State, st: Step, job: JobId, token: Token, leaseMs: nat, last: int)
    requires Inv(s) && Enabled(s, st) && Leased(s, job, token, leaseMs, last)
    requires Actor(st) != Some(token) && (Reading(st).Some? ==> Reading(st).value < last + leaseMs)
    ensures Leased(Apply(s, st), job, token, leaseMs, last)
  {
    var s' := Apply(s, st);
    if s'.rows[job] != s.rows[job] { OnlyLatestClaimActs(s, st, job); }
    StepKeepsCore(s, st);
    hide Core, Apply, Enabled, EventsBacked;
    LeasedByRow(s', job, token, leaseMs, last);
  }

  lemma {:induction false} RunKeepsLease(
    s: State, run: seq<Step>, job: JobId, token: Token, leaseMs: nat, gap: nat, last: int)
    requires Inv(s) && Legal(s, run) && Leased(s, job, token, leaseMs, last) && gap < leaseMs
    requires Punctual(run, token, leaseMs, gap, last)
    ensures Leased(Exec(s, run), job, token, leaseMs, LastReading(run, token, last))
    decreases |run|
  {
    hide Apply, Enabled, Core, EventsBacked, Leased;
    if run != [] {
      var next := if run[0].Renew? && run[0].token == token then run[0].clock else last;
      if next != last || Actor(run[0]) == Some(token) {
        RenewalKeepsLease(s, job, token, leaseMs, last, run[0].clock, run[0].now);
      } else {
        OthersKeepLease(s, run[0], job, token, leaseMs, last);
      }
      StepKeepsCore(s, run[0]);
      StepKeepsEvents(s, run[0]);
      RunKeepsLease(Apply(s, run[0]), run[1..], job, token, leaseMs, gap, next);
    }
  }

  /** A run that starts with the job leased and keeps to the renewal schedule. */
  predicate OnSchedule(s: State, run: seq<Step>, job: JobId, token: Token, leaseMs: nat, gap: nat, last: int) {
    Inv(s) && Legal(s, run) && Leased(s, job, token, leaseMs, last) && Punctual(run, token, leaseMs, gap, last)
  }

  /** An update under the token wins whenever it comes in time, so the claim can still be acknowledged. */
  ghost predicate CanStillEnd(s: State, token: Token, deadline: int) {
    token in s.claims && forall now :: now <= deadline ==> Wins(s, token, now)
  }

  ghost predicate LeaseSurvives(leaseMs: nat, gap: nat) {
    forall s: State, run: seq<Step>, job: JobId, token: Token, last: int ::
      OnSchedule(s, run, job, token, leaseMs, gap, last)
      ==> CanStillEnd(Exec(s, run), token, LastReading(run, token, last) + gap)
  }

  /** A job claimed at time 0. */
  lemma FreshLease(leaseMs: nat) returns (s: State)
    ensures Inv(s) && Leased(s, 1, 7, leaseMs, 0)
  {
    var run;
    run, s := FirstClaim([], leaseMs);
    hide Apply, Enabled, Legal, Exec;
    RunKeepsInv(INITIAL, run);
    LeasedByRow(s, 1, 7, leaseMs, 0);
  }

  lemma SurvivesBelow(leaseMs: nat, gap: nat)
    requires gap < leaseMs
    ensures LeaseSurvives(leaseMs, gap)
  {
    hide Apply, Enabled, Core, EventsBacked;
    forall s: State, run: seq<Step>, job: JobId, token: Token, last: int |
      OnSchedule(s, run, job, token, leaseMs, gap, last)
      ensures CanStillEnd(Exec(s, run), token, LastReading(run, token, last) + gap)
    {
      RunKeepsLease(s, run, job, token, leaseMs, gap, last);
    }
  }

  /** The bound is tight: the lease survives every punctual run exactly when the gap stays below it. */
  lemma LeaseSurvivesExactlyBelow(leaseMs: nat, gap: nat)
    ensures LeaseSurvives(leaseMs, gap) <==> gap < leaseMs
  {
    hide Core, EventsBacked;
    if gap < leaseMs {
      SurvivesBelow(leaseMs, gap);
    } else {
      var s := FreshLease(leaseMs);
      assert Legal(s, []) && Exec(s, []) == s;
      assert OnSchedule(s, [], 1, 7, leaseMs, gap, 0) && LastReading([], 7, 0) == 0;
      assert !Wins(s, 7, gap);
    }
  }

  /**
   * For an accepted configuration whose cycles take at most `slackMs` beyond the
   * sleep: leases survive if and only if renewal interval plus slack is below
   * the lease. The check also accepts renewalSeconds == leaseSeconds, where no
   * slack at all is too little.
   */
  lemma AcceptedConfigKeepsLease(c: Config, slackMs: nat)
    requires ResolveWorkerConfig(c) == Ok(c)
    ensures LeaseSurvives(c.leaseSeconds * 1000, c.renewalSeconds * 1000 + slackMs)
       <==> c.renewalSeconds * 1000 + slackMs < c.leaseSeconds * 1000
    ensures c.renewalSeconds == c.leaseSeconds ==>
              !LeaseSurvives(c.leaseSeconds * 1000, c.renewalSeconds * 1000 + slackMs)
  {
    LeaseSurvivesExactlyBelow(c.leaseSeconds * 1000, c.renewalSeconds * 1000 + slackMs);
  }

  lemma EqualIntervalsAreAccepted(seconds: int)
    requires 1 <= seconds <= 3600
    ensures var c := DEFAULT_WORKER_CONFIG.(leaseSeconds := seconds, renewalSeconds := seconds);
            ResolveWorkerConfig(c) == Ok(c) && !LeaseSurvives(c.leaseSeconds * 1000, c.renewalSeconds * 1000)
  {
    LeaseSurvivesExactlyBelow(seconds * 1000, seconds * 1000);
  }

  /** The default configuration is accepted, and keeps leases while each cycle is less than 40 seconds late. */
  lemma DefaultsKeepLease(slackMs: nat)
    ensures ResolveWorkerConfig(DEFAULT_WORKER_CONFIG) == Ok(DEFAULT_WORKER_CONFIG)
    ensures LeaseSurvives(60_000, DEFAULT_WORKER_CONFIG.renewalSeconds * 1000 + slackMs) <==> slackMs < 40_000
    ensures DEFAULT_WORKER_CONFIG.leaseSeconds * 1000 == 60_000
  {
    LeaseSurvivesExactlyBelow(60_000, 20_000 + slackMs);
  }
}
