/** Safety of the lease protocol over every run of any number of workers with unrelated clocks. */
module LeaseSafety {
  import opened Common
  import opened JobTable
  import opened LeaseProtocol
  import opened LeaseInvariants

  lemma ReachableInv(run: seq<Step>)
    requires Legal(INITIAL, run)
    ensures Inv(Exec(INITIAL, run))
  {
    RunKeepsInv(INITIAL, run);
  }

  // ----------------------------------------------------------------- fencing

  /** The token a step acts under, when it acts under one. */
  function Actor(st: Step): Option<Token> {
    match st
    case StartHandler(token) => Some(token)
    case HandlerThrows(token, _) => Some(token)
    case Renew(token, _, _, _) => Some(token)
    case Acknowledge(token, _, _, _) => Some(token)
    case ScheduleRetry(token, _, _, _, _) => Some(token)
    case FailTerminal(token, _, _, _) => Some(token)
    case _ => None
  }

  /** The job is held by this claim, which is the last one in its history. */
  predicate HeldBy(s: State, job: JobId, token: Token) {
    && job in s.rows && job in s.history && token in s.claims
    && s.rows[job].status == Running && s.rows[job].token == Some(token)
    && s.history[job] != [] && s.history[job][|s.history[job]| - 1] == Taken(token)
    && s.claims[token].job == job && s.claims[token].attempt == s.rows[job].attempts
  }

  /**
   * Fencing: a step changes an existing row only as a claim of a pending row,
   * as the recovery of an expired lease, or on behalf of the row's latest claim
   * while that claim's lease is unexpired; and it changes one row at most.
   */
  lemma OnlyLatestClaimActs(s: State, st: Step, job: JobId)
    requires Inv(s) && Enabled(s, st) && job in s.rows
    requires Apply(s, st).rows[job] != s.rows[job]
    ensures
      || (st.ClaimJob? && st.id == job && s.rows[job].status == Pending)
      || (st.Recover? && st.id == job && Expired(s.rows[job], st.tenant, st.now))
      || (Actor(st).Some? && HeldBy(s, job, Actor(st).value)
          && (st.Renew? || st.Acknowledge? || st.ScheduleRetry? || st.FailTerminal?)
          && Fenced(s.rows[job], s.claims[Actor(st).value].tenant, Actor(st).value, st.now))
    ensures forall k :: k in s.rows && k != job ==> Apply(s, st).rows[k] == s.rows[k]
  {
    hide Apply, ClaimsAfter, OwedBy, HistoryAfter, EventsBacked, Core, HeldBy;
    RowsEffect(s, st);
    if Actor(st).Some? { HolderHolds(s, job, Actor(st).value); }
  }

  lemma HolderHolds(s: State, job: JobId, token: Token)
    requires Core(s) && job in s.rows && s.rows[job].status == Running && s.rows[job].token == Some(token)
    ensures HeldBy(s, job, token)
  {
    HolderIsLatest(s, job, token);
    assert RowMatches(s.rows[job], s.history[job]);
  }

  /** A token that was issued and that no row carries any more. */
  predicate Spent(s: State, token: Token) {
    token in s.claims && forall j :: j in s.rows ==> s.rows[j].token != Some(token)
  }

  /** Whoever takes a lease away from a claim, by recovery or release, spends its token. */
  lemma LosingTheLeaseSpends(s: State, st: Step, job: JobId, token: Token)
    requires Inv(s) && Enabled(s, st) && job in s.rows && s.rows[job].token == Some(token)
    requires Apply(s, st).rows[job].token != Some(token)
    ensures Spent(Apply(s, st), token)
  {
    assert RowMatches(s.rows[job], s.history[job]);
    HolderIsLatest(s, job, token);
    var s' := Apply(s, st);
    OnlyLatestClaimActs(s, st, job);
    forall j | j in s'.rows ensures s'.rows[j].token != Some(token) {
      if j in s.rows && j != job && s.rows[j].token == Some(token) {
        assert RowMatches(s.rows[j], s.history[j]);
        HolderIsLatest(s, j, token);
        assert false;
      }
    }
  }

  /** Does some step of the run that acts under `token` change the table? */
  predicate Touches(s: State, run: seq<Step>, token: Token)
    requires Legal(s, run)
    decreases |run|
  {
    run != [] &&
    ((Actor(run[0]) == Some(token) && Apply(s, run[0]).rows != s.rows)
     || Touches(Apply(s, run[0]), run[1..], token))
  }

  lemma StepKeepsSpent(s: State, st: Step, token: Token)
    requires Enabled(s, st) && Spent(s, token)
    ensures Spent(Apply(s, st), token)
    ensures Actor(st) == Some(token) ==> Apply(s, st).rows == s.rows
  {
    var s' := Apply(s, st);
    if Actor(st) == Some(token) {
      assert forall now :: !Wins(s, token, now);
    } else {
      forall j | j in s'.rows ensures s'.rows[j].token != Some(token) {
        if j in s.rows && s'.rows[j] != s.rows[j] {
          assert s.rows[j].token != Some(token);
        }
      }
    }
  }

  /** A spent token never changes any row again, whatever its worker and all others go on to do. */
  lemma {:induction false} SpentTokenIsDead(s: State, run: seq<Step>, token: Token)
    requires Inv(s) && Legal(s, run) && Spent(s, token)
    ensures !Touches(s, run, token) && Spent(Exec(s, run), token)
    decreases |run|
  {
    hide Apply, Enabled, Core, EventsBacked, Spent;
    if run != [] {
      StepKeepsSpent(s, run[0], token);
      StepKeepsCore(s, run[0]);
      StepKeepsEvents(s, run[0]);
      SpentTokenIsDead(Apply(s, run[0]), run[1..], token);
    }
  }

  /** Terminal rows never change. */
  lemma {:induction false} TerminalForever(s: State, run: seq<Step>, job: JobId)
    requires Inv(s) && Legal(s, run) && job in s.rows && s.rows[job].Terminal()
    ensures job in Exec(s, run).rows && Exec(s, run).rows[job] == s.rows[job]
    decreases |run|
  {
    if run != [] {
      TerminalStep(s, run[0], job);
      hide Apply, Enabled, Core, EventsBacked;
      StepKeepsCore(s, run[0]);
      StepKeepsEvents(s, run[0]);
      TerminalForever(Apply(s, run[0]), run[1..], job);
    }
  }

  lemma TerminalStep(s: State, st: Step, job: JobId)
    requires Inv(s) && Enabled(s, st) && job in s.rows && s.rows[job].Terminal()
    ensures job in Apply(s, st).rows && Apply(s, st).rows[job] == s.rows[job]
  {
    hide Apply, ClaimsAfter, OwedBy, HistoryAfter, Inv;
    RowsEffect(s, st);
  }

  /** A worker bound to one tenant never changes a row of another. */
  lemma StepsStayInTenant(s: State, st: Step, job: JobId)
    requires Enabled(s, st) && job in s.rows
    requires st.ClaimJob? || st.Recover? ==> st.tenant != s.rows[job].tenant
    requires Actor(st).Some? && Actor(st).value in s.claims ==> s.claims[Actor(st).value].tenant != s.rows[job].tenant
    ensures Apply(s, st).rows[job] == s.rows[job]
  {
    hide Apply, ClaimsAfter, OwedBy, HistoryAfter;
    RowsEffect(s, st);
  }

  // ---------------------------------------------------------- attempt budget

  function StartedClaims(s: State, job: JobId): set<Token> {
    set t | t in s.claims && s.claims[t].job == job && s.claims[t].started
  }

  /** The claim whose handler this step starts, when it is a claim of the job. */
  function StartOf(s: State, st: Step, job: JobId): set<Token> {
    if st.StartHandler? && st.token in s.claims && s.claims[st.token].job == job then {st.token} else {}
  }

  /** How often a run starts a handler for the job. */
  function HandlerStarts(s: State, run: seq<Step>, job: JobId): nat
    requires Legal(s, run)
    decreases |run|
  {
    if run == [] then 0 else |StartOf(s, run[0], job)| + HandlerStarts(Apply(s, run[0]), run[1..], job)
  }

  lemma StepStartsOne(s: State, st: Step, job: JobId, t: Token)
    requires Core(s) && Enabled(s, st)
    ensures t in StartedClaims(Apply(s, st), job) <==> t in StartedClaims(s, job) || t in StartOf(s, st, job)
    ensures !(t in StartedClaims(s, job) && t in StartOf(s, st, job))
  {
    if t in s.claims {
      assert ClaimMatches(s.claims[t], t, s.rows, s.history);
      ClaimsEvolve(s, st, t);
    }
  }

  lemma StepStarts(s: State, st: Step, job: JobId)
    requires Core(s) && Enabled(s, st)
    ensures |StartedClaims(Apply(s, st), job)| == |StartedClaims(s, job)| + |StartOf(s, st, job)|
  {
    hide *;
    var before, after, more := StartedClaims(s, job), StartedClaims(Apply(s, st), job), StartOf(s, st, job);
    forall t ensures (t in after <==> t in before || t in more) && !(t in before && t in more) {
      StepStartsOne(s, st, job, t);
    }
    assert after == before + more && before !! more;
  }

  lemma {:induction false} StartsAreClaims(s: State, run: seq<Step>, job: JobId)
    requires Core(s) && Legal(s, run)
    ensures HandlerStarts(s, run, job) + |StartedClaims(s, job)| == |StartedClaims(Exec(s, run), job)|
    decreases |run|
  {
    hide Apply, Enabled, Core, StartedClaims, StartOf;
    if run != [] {
      StepStarts(s, run[0], job);
      StepKeepsCore(s, run[0]);
      StartsAreClaims(Apply(s, run[0]), run[1..], job);
    }
  }

  /** Claims of one job have distinct attempt numbers between 1 and n, so there are at most n of them. */
  lemma {:induction false} DistinctAttempts(claims: map<Token, Claim>, tokens: set<Token>, n: nat)
    requires forall t :: t in tokens ==> t in claims && 1 <= claims[t].attempt <= n
    requires forall t, u :: t in tokens && u in tokens && claims[t].attempt == claims[u].attempt ==> t == u
    ensures |tokens| <= n
    decreases n
  {
    if n == 0 {
      assert tokens == {};
    } else if t :| t in tokens && claims[t].attempt == n {
      DistinctAttempts(claims, tokens - {t}, n - 1);
    } else {
      DistinctAttempts(claims, tokens, n - 1);
    }
  }

  lemma StartedWithinAttempts(s: State, job: JobId)
    requires Core(s) && job in s.rows
    ensures |StartedClaims(s, job)| <= s.rows[job].attempts
  {
    var tokens := StartedClaims(s, job);
    forall t | t in tokens
      ensures 1 <= s.claims[t].attempt <= s.rows[job].attempts
      ensures s.history[job][2 * s.claims[t].attempt - 2] == Taken(t)
    {
      assert ClaimMatches(s.claims[t], t, s.rows, s.history);
    }
    DistinctAttempts(s.claims, tokens, s.rows[job].attempts);
  }

  /**
   * The attempt budget: no claim tests it, yet in every run from the empty table
   * a pending job has an attempt left, no job exceeds its budget, and its
   * handler starts at most `maxAttempts` (so at most ten) times.
   */
  lemma AttemptBudget(run: seq<Step>, job: JobId)
    requires Legal(INITIAL, run) && job in Exec(INITIAL, run).rows
    ensures var r := Exec(INITIAL, run).rows[job];
      && HandlerStarts(INITIAL, run, job) <= r.attempts <= r.maxAttempts <= 10
      && (r.status == Pending ==> r.attempts < r.maxAttempts)
  {
    ReachableInv(run);
    var s := Exec(INITIAL, run);
    assert RowMatches(s.rows[job], s.history[job]);
    StartsAreClaims(INITIAL, run, job);
    StartedWithinAttempts(s, job);
    assert StartedClaims(INITIAL, job) == {};
  }

  // --------------------------------------------------------- history and events

  function Releases(h: seq<Entry>, how: Release): nat {
    if h == [] then 0
    else Releases(h[..|h| - 1], how) + (if h[|h| - 1] == Released(how) then 1 else 0)
  }

  /** While no release is final, every second entry is a retry or a recovery to pending. */
  lemma {:induction false} OpenHistory(h: seq<Entry>)
    requires forall i :: 0 <= i < |h| ==> (h[i].Taken? <==> i % 2 == 0)
    requires forall i :: 0 <= i < |h| && h[i].Released? ==> !Final(h[i].how)
    ensures Releases(h, Retried) + Releases(h, RecoveredToPending) == |h| / 2
    ensures Releases(h, Acked) == Releases(h, FailedByWorker) == Releases(h, RecoveredToFailed) == 0
  {
    if h != [] { OpenHistory(h[..|h| - 1]); }
  }

  /**
   * Conservation: the attempts of a job are its retries plus its recoveries to
   * pending, plus one unless it is pending; a succeeded job was acknowledged
   * once, a failed one was failed once, and no other job was either.
   */
  lemma HistoryConservation(s: State, job: JobId)
    requires Inv(s) && job in s.rows
    ensures var r, h := s.rows[job], s.history[job];
      && r.attempts == Releases(h, Retried) + Releases(h, RecoveredToPending) + (if r.status == Pending then 0 else 1)
      && Releases(h, Acked) == (if r.status == Succeeded then 1 else 0)
      && Releases(h, FailedByWorker) + Releases(h, RecoveredToFailed) == (if r.status == Failed then 1 else 0)
      && (r.token.Some? <==> r.status == Running) && (r.leaseExpiresAt.Some? <==> r.status == Running)
      && (r.finishedAt.Some? <==> r.Terminal())
  {
    var r, h := s.rows[job], s.history[job];
    assert RowMatches(r, h);
    hide Inv, Core, Consistent, EventsBacked;
    RowConservation(r, h);
  }

  lemma RowConservation(r: Row, h: seq<Entry>)
    requires RowMatches(r, h)
    ensures r.attempts == Releases(h, Retried) + Releases(h, RecoveredToPending) + (if r.status == Pending then 0 else 1)
    ensures Releases(h, Acked) == (if r.status == Succeeded then 1 else 0)
    ensures Releases(h, FailedByWorker) + Releases(h, RecoveredToFailed) == (if r.status == Failed then 1 else 0)
  {
    if r.Terminal() { OpenHistory(h[..|h| - 1]); } else { OpenHistory(h); }
  }

  /**
   * Event soundness: a published success belongs to a succeeded job and to its
   * last attempt, and there is exactly one; a published retry, and a failure
   * published by recovery, each stand for one commit of that attempt.
   */
  lemma EventSoundness(run: seq<Step>, e: Event)
    requires Legal(INITIAL, run) && e in Exec(INITIAL, run).published && Backed(e)
    ensures var s := Exec(INITIAL, run);
      && s.published[e] == 1 && Committed(s, e)
      && (e.name == JobsSucceeded ==>
            e.job in s.rows && s.rows[e.job].status == Succeeded && s.rows[e.job].attempts == e.attempt)
      && (e.name == JobsFailed ==>
            e.job in s.rows && s.rows[e.job].status == Failed && s.rows[e.job].attempts == e.attempt)
      && (forall f :: f in s.published && Backed(f) && f.job == e.job && f.attempt == e.attempt ==> f == e)
      && (e.name == JobsSucceeded ==>
            forall f :: f in s.published && Backed(f) && f.job == e.job && f.name != JobsRetryScheduled ==> f == e)
  {
    ReachableInv(run);
    var s := Exec(INITIAL, run);
    assert e in Announced(s) && Announced(s)[e] == s.owed[e] + s.published[e];
    AnnouncedRow(s, e);
    forall f | f in s.published && Backed(f) && f.job == e.job
      ensures f.attempt == e.attempt ==> f == e
      ensures e.name == JobsSucceeded && f.name != JobsRetryScheduled ==> f == e
    {
      assert f in Announced(s);
      AnnouncedRow(s, f);
      if f.attempt == e.attempt { SameCommit(s, e, f); }
      if e.name == JobsSucceeded && f.name == JobsSucceeded { SameCommit(s, e, f); }
    }
  }

  lemma AnnouncedRow(s: State, e: Event)
    requires Inv(s) && e in Announced(s) && Backed(e)
    ensures Committed(s, e) && e.job in s.rows
    ensures e.name == JobsSucceeded ==> s.rows[e.job].status == Succeeded && s.rows[e.job].attempts == e.attempt
    ensures e.name == JobsFailed ==> s.rows[e.job].status == Failed && s.rows[e.job].attempts == e.attempt
  {
    assert Committed(s, e);
    assert RowMatches(s.rows[e.job], s.history[e.job]);
  }

  lemma SameCommit(s: State, e: Event, f: Event)
    requires Committed(s, e) && Committed(s, f) && e.job == f.job && e.attempt == f.attempt
    requires Backed(e) && Backed(f)
    ensures e == f
  {
    assert CommitOf(e) == CommitOf(f);
  }
}
