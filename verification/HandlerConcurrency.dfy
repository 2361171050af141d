/**
 * What bounds the handlers that run at once, and what does not: a lost renewal
 * stops no handler, and the polling loop does not count the jobs in flight.
 */
module HandlerConcurrency {
  import opened Common
  import opened JobTable
  import opened LeaseProtocol
  import opened LeaseInvariants
  import opened LeaseSafety
  import opened LeaseProgress

  // --------------------------------------------------------------- lost renewals

  /** A renewal that lost its lease changes nothing, its own worker's claim included: the handler goes on. */
  lemma LostRenewalIsIgnored(s: State, token: Token, clock: int, now: int, leaseMs: nat)
    requires Enabled(s, Renew(token, clock, now, leaseMs)) && !Wins(s, token, now)
    ensures Apply(s, Renew(token, clock, now, leaseMs)) == s
    ensures Enabled(Apply(s, Renew(token, clock, now, leaseMs)), Renew(token, clock, now, leaseMs))
  {
    hide Wins;
  }

  lemma StartEffect(s: State, token: Token)
    requires Enabled(s, StartHandler(token))
    ensures var s' := Apply(s, StartHandler(token));
            s'.rows == s.rows && s'.claims == s.claims[token := s.claims[token].(started := true, phase := Handling)]
  {
  }

  /** Job 1 and the claims made so far. */
  predicate Is(s: State, r: Row, claims: map<Token, Claim>) {
    1 in s.rows && s.rows[1] == r && s.claims == claims
  }

  function ClaimAt(attempt: nat, phase: Phase): Claim {
    Claim(1, 1, attempt, 3, phase != Holding, phase)
  }

  /** The first attempt handled, its lease run out and recovered. */
  lemma FirstHandlerLeftBehind(kind: JobType) returns (run: seq<Step>, s: State)
    ensures Legal(INITIAL, run) && Exec(INITIAL, run) == s
    ensures Is(s, RecoverColumns(FirstAttempt(kind, 1000), 1000), map[7 := ClaimAt(1, Handling)])
  {
    hide Legal, Exec, Apply;
    var s0;
    run, s0 := FirstEnqueue(kind);
    var claim, start, recover := ClaimJob(1, 1, 7, 0, 1000), StartHandler(7), Recover(1, 1, 1000);
    ClaimEffect(s0, 1, 1, 7, 0, 1000);
    var s1 := Apply(s0, claim);
    assert Is(s1, FirstAttempt(kind, 1000), map[7 := ClaimAt(1, Holding)]);
    StartEffect(s1, 7);
    var s2 := Apply(s1, start);
    assert Is(s2, FirstAttempt(kind, 1000), map[7 := ClaimAt(1, Handling)]);
    RecoverEffect(s2, 1, 1, 1000);
    s := Apply(s2, recover);
    Then(INITIAL, run, claim);
    Then(INITIAL, run + [claim], start);
    Then(INITIAL, run + [claim] + [start], recover);
    run := run + [claim] + [start] + [recover];
  }

  /**
   * So two handlers of one job can run at once: the first goes on after its lease was recovered and
   * the job claimed again, and the renewal it loses changes nothing about that.
   */
  lemma TwoHandlersAtOnce(kind: JobType) returns (run: seq<Step>)
    ensures Legal(INITIAL, run)
    ensures var s := Exec(INITIAL, run);
            7 in s.claims && 8 in s.claims && s.claims[7].job == s.claims[8].job
            && s.claims[7].phase == Handling && s.claims[8].phase == Handling && !Wins(s, 7, 1001)
            && Enabled(s, Renew(7, 1001, 1001, 1000)) && Apply(s, Renew(7, 1001, 1001, 1000)) == s
  {
    hide Legal, Exec, Apply;
    var s0;
    run, s0 := FirstHandlerLeftBehind(kind);
    var claim, start := ClaimJob(1, 1, 8, 1000, 1000), StartHandler(8);
    ClaimEffect(s0, 1, 1, 8, 1000, 1000);
    var s1 := Apply(s0, claim);
    StartEffect(s1, 8);
    var s := Apply(s1, start);
    Then(INITIAL, run, claim);
    Then(INITIAL, run + [claim], start);
    run := run + [claim] + [start];
    LostRenewalIsIgnored(s, 7, 1001, 1001, 1000);
  }

  // ------------------------------------------------------------- the polling loop

  /** The polling loop between two cycles: the jobs it would claim, in claim order, and those it is executing. */
  datatype Polling = Polling(due: seq<JobId>, inFlight: set<JobId>)

  function Claimable(due: seq<JobId>, slots: nat): nat {
    if |due| < slots then |due| else slots
  }

  /** One cycle: a claim for each of `concurrency` slots while there is a due job, whatever is still in flight. */
  function Cycle(p: Polling, concurrency: nat): Polling {
    var k := Claimable(p.due, concurrency);
    Polling(p.due[k..], p.inFlight + Members(p.due[..k]))
  }

  function Members(ids: seq<JobId>): set<JobId> {
    set i | 0 <= i < |ids| :: ids[i]
  }

  function Cycles(p: Polling, concurrency: nat, n: nat): Polling
    decreases n
  {
    if n == 0 then p else Cycles(Cycle(p, concurrency), concurrency, n - 1)
  }

  /** Due jobs are pending, so none of them is in flight, and each is due once. */
  predicate Apart(p: Polling) {
    (forall i, k :: 0 <= i < k < |p.due| ==> p.due[i] != p.due[k]) &&
    forall i :: 0 <= i < |p.due| ==> p.due[i] !in p.inFlight
  }

  lemma {:induction false} MembersCount(ids: seq<JobId>)
    requires forall i, k :: 0 <= i < k < |ids| ==> ids[i] != ids[k]
    ensures |Members(ids)| == |ids|
  {
    if ids != [] {
      MembersCount(ids[1..]);
      assert Members(ids) == {ids[0]} + Members(ids[1..]) by {
        assert forall i :: 0 < i < |ids| ==> ids[i] == ids[1..][i - 1];
      }
    }
  }

  lemma CycleClaims(p: Polling, concurrency: nat)
    requires Apart(p)
    ensures Apart(Cycle(p, concurrency))
    ensures |Cycle(p, concurrency).inFlight| == |p.inFlight| + Claimable(p.due, concurrency)
  {
    var k := Claimable(p.due, concurrency);
    MembersCount(p.due[..k]);
    assert p.inFlight !! Members(p.due[..k]);
  }

  /** `concurrency` bounds the jobs in flight after a cycle exactly when those left over and those it can claim fit. */
  lemma CycleKeepsBoundExactly(p: Polling, concurrency: nat)
    requires Apart(p)
    ensures |Cycle(p, concurrency).inFlight| <= concurrency <==> |p.inFlight| + Claimable(p.due, concurrency) <= concurrency
  {
    CycleClaims(p, concurrency);
  }

  /** While no handler ends, every cycle adds as many as it can: n cycles have up to n times `concurrency` in flight. */
  lemma {:induction false} SlowHandlersPileUp(p: Polling, concurrency: nat, n: nat)
    requires Apart(p)
    ensures |Cycles(p, concurrency, n).inFlight| == |p.inFlight| + Claimable(p.due, n * concurrency)
    decreases n
  {
    hide Cycle, Apart;
    if n > 0 {
      hide Claimable;
      CycleClaims(p, concurrency);
      SlowHandlersPileUp(Cycle(p, concurrency), concurrency, n - 1);
      OneCycleMore(p, concurrency, (n - 1) * concurrency);
      assert n * concurrency == (n - 1) * concurrency + concurrency;
    }
  }

  lemma OneCycleMore(p: Polling, concurrency: nat, more: nat)
    ensures Claimable(p.due, concurrency) + Claimable(Cycle(p, concurrency).due, more)
         == Claimable(p.due, more + concurrency)
  {
  }
}
