/**
 * The worker itself, over a table it shares with any number of others. Each
 * database call is one atomic step on the table (for the two-statement
 * transactions see LockRefinement); between its calls `Interference` stands for
 * whatever the other workers do. Clock readings, lease tokens, handler outcomes,
 * jitter draws and the answers of the selects are inputs.
 */
module Worker {
  import opened Common
  import opened JobTable
  import opened LeaseProtocol
  import opened LeaseInvariants
  import opened LeaseSafety
  import opened LeaseProgress
  import opened LockRefinement
  import opened WorkerConfiguration

  // -------------------------------------------------------- runs of one worker

  /** The steps of a run taken under one token. */
  function OwnSteps(run: seq<Step>, token: Token): seq<Step> {
    if run == [] then []
    else (if Actor(run[0]) == Some(token) then [run[0]] else []) + OwnSteps(run[1..], token)
  }

  lemma {:induction false} OwnStepsConcat(a: seq<Step>, b: seq<Step>, token: Token)
    ensures OwnSteps(a + b, token) == OwnSteps(a, token) + OwnSteps(b, token)
  {
    if a == [] {
      assert a + b == b;
    } else {
      OwnStepsConcat(a[1..], b, token);
      assert (a + b)[0] == a[0] && (a + b)[1..] == a[1..] + b;
      var first := if Actor(a[0]) == Some(token) then [a[0]] else [];
      hide Actor;
      assert first + (OwnSteps(a[1..], token) + OwnSteps(b, token))
          == (first + OwnSteps(a[1..], token)) + OwnSteps(b, token);
    }
  }

  /** The run leads from one state to the other. */
  predicate Ran(s: State, run: seq<Step>, s': State) {
    Legal(s, run) && Exec(s, run) == s'
  }

  /** What others do never touches a worker's own copy of its claim. */
  lemma {:induction false} OthersKeepClaim(s: State, run: seq<Step>, s': State, token: Token)
    requires Ran(s, run, s') && OwnSteps(run, token) == [] && token in s.claims
    ensures token in s'.claims && s'.claims[token] == s.claims[token]
    decreases |run|
  {
    if run != [] {
      OtherKeepsClaim(s, run[0], token);
      hide Apply, Enabled;
      OthersKeepClaim(Apply(s, run[0]), run[1..], s', token);
    }
  }

  lemma OtherKeepsClaim(s: State, st: Step, token: Token)
    requires Enabled(s, st) && Actor(st) != Some(token) && token in s.claims
    ensures token in Apply(s, st).claims && Apply(s, st).claims[token] == s.claims[token]
  {
  }

  /** The row a claim's select returns, with the lease the claim stamps on it. */
  datatype ClaimedRow = ClaimedRow(id: JobId, kind: JobType, attempts: nat, maxAttempts: nat, token: Token)

  function RowClaimed(rows: Rows, id: JobId, token: Token): ClaimedRow
    requires id in rows
  {
    ClaimedRow(id, rows[id].kind, rows[id].attempts, rows[id].maxAttempts, token)
  }

  /** The claim as the protocol records it, at the given phase. */
  predicate Owns(s: State, tenant: TenantId, c: ClaimedRow, phase: Phase) {
    && c.token in s.claims
    && var claim := s.claims[c.token];
       claim == Claim(tenant, c.id, c.attempts + 1, c.maxAttempts, claim.started, phase)
  }

  /** An answer of the claim's select under the given locks. */
  predicate IsDueSelection(rows: Rows, tenant: TenantId, now: int, locked: set<JobId>, picked: Option<JobId>) {
    match picked
    case Some(id) => IsOldestDue(rows, tenant, now, locked, id)
    case None => forall k :: k in rows && k !in locked ==> !Due(rows[k], tenant, now)
  }

  lemma {:induction false} OldestOf(rows: Rows, ids: set<JobId>) returns (oldest: JobId)
    requires ids != {} && ids <= rows.Keys
    ensures oldest in ids && forall k :: k in ids && k != oldest ==> Before(rows, oldest, k)
  {
    oldest :| oldest in ids;
    if ids != {oldest} {
      var rest := ids - {oldest};
      assert ids == rest + {oldest};
      var other := OldestOf(rows, rest);
      if Before(rows, other, oldest) { oldest := other; }
    }
  }

  /** The claim's select has exactly one answer, whatever is in the table and whatever is locked. */
  lemma SelectionExists(rows: Rows, tenant: TenantId, now: int, locked: set<JobId>) returns (picked: Option<JobId>)
    ensures IsDueSelection(rows, tenant, now, locked, picked)
    ensures forall other :: IsDueSelection(rows, tenant, now, locked, other) ==> other == picked
  {
    var due := set k | k in rows && k !in locked && Due(rows[k], tenant, now);
    if due == {} {
      assert forall k :: k in rows && k !in locked && Due(rows[k], tenant, now) ==> k in due;
      picked := None;
    } else {
      var oldest := OldestOf(rows, due);
      picked := Some(oldest);
    }
    forall other | IsDueSelection(rows, tenant, now, locked, other) ensures other == picked {
      SelectionUnique(rows, tenant, now, locked, other, picked);
    }
  }

  lemma SelectionUnique(rows: Rows, tenant: TenantId, now: int, locked: set<JobId>, a: Option<JobId>, b: Option<JobId>)
    requires IsDueSelection(rows, tenant, now, locked, a) && IsDueSelection(rows, tenant, now, locked, b)
    ensures a == b
  {
  }

  // ------------------------------------------------------- a worker's own steps

  datatype Outcome = Completed | ThrewNonRetryable(code: ErrorCode) | ThrewOther

  function ClassifyFailure(o: Outcome, timedOut: bool): ErrorCode {
    match o
    case ThrewNonRetryable(code) => code
    case _ => if timedOut then HandlerTimeout else HandlerError
  }

  /** How the acknowledgement's reply comes back: as a value, or as a database error that hides whether it committed. */
  datatype Reply = Delivered | Lost(committed: bool)

  /** Everything one execution takes from outside. */
  datatype Inputs = Inputs(
    known: bool,            // the registry declares the type
    parsed: bool,           // the definition accepts the payload
    outcome: Outcome,
    timedOut: bool,
    renewals: seq<(int, int)>,  // clock readings of each renewal: for the expiry, then for the fence
    reply: Reply,
    finishedAt: int,        // clock reading stored as finished_at
    clock: int,             // clock reading a retry is scheduled from
    random: Draw,
    now: int)               // clock reading the final update is fenced with

  /** The handler ran and threw a non-retryable error. */
  predicate EndedNonRetryable(i: Inputs) {
    i.known && i.parsed && i.outcome.ThrewNonRetryable?
  }

  function Renewals(token: Token, readings: seq<(int, int)>, leaseMs: nat): seq<Step> {
    if readings == [] then []
    else
      var (clock, now) := readings[|readings| - 1];
      Renewals(token, readings[..|readings| - 1], leaseMs) + [Renew(token, clock, now, leaseMs)]
  }

  predicate Retryable(c: ClaimedRow, o: Outcome) {
    !o.ThrewNonRetryable? && c.attempts + 1 < c.maxAttempts
  }

  function RetryDelay(c: ClaimedRow, cfg: Config, random: Draw): nat
    requires ResolveWorkerConfig(cfg) == Ok(cfg)
  {
    DelayNonNegative(c.attempts + 1, cfg, random);
    BackoffDelay(c.attempts + 1, cfg, random)
  }

  lemma DelayNonNegative(attempt: int, cfg: Config, random: Draw)
    requires ResolveWorkerConfig(cfg) == Ok(cfg) && attempt >= 1
    ensures BackoffDelay(attempt, cfg, random) >= 0
  {
    DelayRange(attempt, cfg, random);
    Pow2Positive(attempt - 1);
    assert cfg.backoffBaseMs * Pow2(attempt - 1) >= 0;
  }

  /** The step of the catch branch. */
  function Caught(c: ClaimedRow, cfg: Config, o: Outcome, i: Inputs): Step
    requires ResolveWorkerConfig(cfg) == Ok(cfg)
  {
    var code := ClassifyFailure(o, i.timedOut);
    if Retryable(c, o) then ScheduleRetry(c.token, code, i.clock, RetryDelay(c, cfg, i.random), i.now)
    else FailTerminal(c.token, code, i.finishedAt, i.now)
  }

  function Ending(c: ClaimedRow, cfg: Config, i: Inputs): seq<Step>
    requires ResolveWorkerConfig(cfg) == Ok(cfg)
  {
    if i.outcome != Completed then [HandlerThrows(c.token, i.outcome.ThrewNonRetryable?), Caught(c, cfg, i.outcome, i)]
    else if i.reply == Delivered then [Acknowledge(c.token, i.finishedAt, i.now, false)]
    else if i.reply.committed then [Acknowledge(c.token, i.finishedAt, i.now, true), Caught(c, cfg, ThrewOther, i)]
    else [HandlerThrows(c.token, false), Caught(c, cfg, ThrewOther, i)]
  }

  /** The whole execution of a claim, as the protocol steps it takes in order. */
  function Script(c: ClaimedRow, cfg: Config, i: Inputs): seq<Step>
    requires ResolveWorkerConfig(cfg) == Ok(cfg)
  {
    if !i.known then [FailTerminal(c.token, UnknownType, i.finishedAt, i.now)]
    else if !i.parsed then [FailTerminal(c.token, PayloadInvalid, i.finishedAt, i.now)]
    else [StartHandler(c.token)] + Renewals(c.token, i.renewals, cfg.leaseSeconds * 1000) + Ending(c, cfg, i)
  }

  /** The event announced for the last step of a script, given whether its update won. */
  function Announcement(c: ClaimedRow, last: Step, won: bool): seq<Event> {
    match last
    case Acknowledge(_, _, _, replyLost) => if won && !replyLost then [Event(JobsSucceeded, c.id, c.attempts + 1, false)] else []
    case ScheduleRetry(_, _, _, _, _) => if won then [Event(JobsRetryScheduled, c.id, c.attempts + 1, false)] else []
    case FailTerminal(_, _, _, _) => [Event(JobsFailed, c.id, c.attempts + 1, false)]
    case _ => []
  }

  function LastOf<T>(s: seq<T>): T
    requires s != []
  {
    s[|s| - 1]
  }

  lemma ScriptsEnd(c: ClaimedRow, cfg: Config, i: Inputs, before: seq<Step>)
    requires ResolveWorkerConfig(cfg) == Ok(cfg)
    ensures LastOf(before + Ending(c, cfg, i)) == LastOf(Ending(c, cfg, i))
  {
  }

  /** The event of a recovered row, decided from the row as selected. */
  function RecoveryEvent(rows: Rows, id: JobId): Event
    requires id in rows
  {
    Event(if Exhausted(rows[id]) then JobsFailed else JobsRetryScheduled, id, rows[id].attempts, true)
  }

  lemma ClaimStands(s: State, tenant: TenantId, token: Token, now: int, leaseMs: nat, id: JobId, locked: set<JobId>)
    requires IsOldestDue(s.rows, tenant, now, locked, id) && token !in s.claims
    ensures var st := ClaimJob(id, tenant, token, now, leaseMs);
            var r := s.rows[id];
      && Enabled(s, st) && Apply(s, st).published == s.published
      && Apply(s, st).rows == s.rows[id := ClaimColumns(r, token, now + leaseMs)]
      && Owns(Apply(s, st), tenant, ClaimedRow(id, r.kind, r.attempts, r.maxAttempts, token), Holding)
  {
    assert Due(s.rows[id], tenant, now);
    hide Apply, IsOldestDue;
    ClaimEffect(s, id, tenant, token, now, leaseMs);
  }

  predicate InTable(rows: Rows, ids: seq<JobId>) {
    forall i :: 0 <= i < |ids| ==> ids[i] in rows
  }

  function RecoveryEvents(rows: Rows, ids: seq<JobId>): seq<Event>
    requires InTable(rows, ids)
  {
    seq(|ids|, i requires 0 <= i < |ids| => RecoveryEvent(rows, ids[i]))
  }

  /** The table after the given rows were recovered. */
  predicate Recovered(rows: Rows, rows': Rows, ids: seq<JobId>, now: int) {
    && rows'.Keys == rows.Keys
    && forall j :: j in rows ==> rows'[j] == if j in ids then RecoverColumns(rows[j], now) else rows[j]
  }

  lemma EventsSnoc(rows: Rows, ids: seq<JobId>, k: nat)
    requires k < |ids| && InTable(rows, ids)
    ensures InTable(rows, ids[..k]) && InTable(rows, ids[..k + 1])
    ensures RecoveryEvents(rows, ids[..k + 1]) == RecoveryEvents(rows, ids[..k]) + [RecoveryEvent(rows, ids[k])]
  {
  }

  /** How far a recovery has come: the first k selected rows are given back, their events owed. */
  predicate RecoveredTo(rows: Rows, rows': Rows, owed: multiset<Event>, ids: seq<JobId>, k: nat, events: seq<Event>, now: int) {
    && k <= |ids| && InTable(rows, ids[..k]) && Recovered(rows, rows', ids[..k], now)
    && events == RecoveryEvents(rows, ids[..k]) && multiset(events) <= owed
  }

  lemma RecoverySelected(rows: Rows, ids: seq<JobId>, k: nat, tenant: TenantId, now: int, limit: nat, locked: set<JobId>)
    requires IsExpiredSelection(rows, tenant, now, limit, locked, ids) && k < |ids|
    ensures InTable(rows, ids) && ids[k] !in ids[..k] && ids[k] in rows && Expired(rows[ids[k]], tenant, now)
  {
  }

  lemma NextToRecover(rows: Rows, rows': Rows, owed: multiset<Event>, ids: seq<JobId>, k: nat, events: seq<Event>, now: int)
    requires RecoveredTo(rows, rows', owed, ids, k, events, now) && k < |ids| && InTable(rows, ids)
    requires ids[k] !in ids[..k]
    ensures var id, e := ids[k], RecoveryEvent(rows, ids[k]);
      && id in rows' && rows'[id] == rows[id]
      && RecoveredTo(rows, rows'[id := RecoverColumns(rows[id], now)], owed + multiset{e}, ids, k + 1, events + [e], now)
  {
    hide RecoverColumns, RecoveryEvent;
    EventsSnoc(rows, ids, k);
    hide RecoveryEvents;
    assert ids[..k + 1] == ids[..k] + [ids[k]];
  }

  lemma RecoveredAll(rows: Rows, rows': Rows, owed: multiset<Event>, ids: seq<JobId>, events: seq<Event>, now: int)
    requires RecoveredTo(rows, rows', owed, ids, |ids|, events, now)
    ensures Recovered(rows, rows', ids, now) && InTable(rows, ids)
    ensures events == RecoveryEvents(rows, ids) && multiset(events) <= owed
  {
    assert ids[..|ids|] == ids;
  }

  lemma HeadAndRest(events: seq<Event>, k: nat)
    requires k < |events|
    ensures multiset(events[k..]) == multiset{events[k]} + multiset(events[k + 1..])
    ensures events[..k + 1] == events[..k] + [events[k]]
  {
    assert events[k..] == [events[k]] + events[k + 1..];
  }

  /** A local move of a worker, on its claim. */
  lemma MoveEffect(s: State, st: Step)
    requires Enabled(s, st) && (st.StartHandler? || st.HandlerThrows?)
    ensures ChangeOf(s, st) == None && st.token in Apply(s, st).claims
    ensures var c := s.claims[st.token];
            Apply(s, st).claims[st.token]
            == c.(started := c.started || st.StartHandler?, phase := if st.StartHandler? then Handling else Failing(st.nonRetryable))
  {
  }

  // ------------------------------------------------------------------ the table

  lemma StepKeepsInv(s: State, st: Step)
    requires Inv(s) && Enabled(s, st)
    ensures Inv(Apply(s, st)) && Apply(s, st).rows == RowsAfter(s.rows, ChangeOf(s, st))
  {
    hide Core, EventsBacked, ChangeOf, Apply, Enabled;
    StepKeepsCore(s, st);
    StepKeepsEvents(s, st);
    RowsEffect(s, st);
  }

  /** The fenced update a step makes, when it makes one. */
  datatype Update = Update(now: int, transition: Transition, entry: Option<Entry>)

  function UpdateOf(st: Step): Option<Update> {
    match st
    case Renew(_, clock, now, leaseMs) => Some(Update(now, Renewal(clock + leaseMs), None))
    case Acknowledge(_, finishedAt, now, _) => Some(Update(now, Success(finishedAt), Some(Released(Acked))))
    case ScheduleRetry(_, code, clock, delay, now) =>
      Some(Update(now, Reschedule(clock + delay, code), Some(Released(Retried))))
    case FailTerminal(_, code, finishedAt, now) =>
      Some(Update(now, TerminalFailure(finishedAt, code), Some(Released(FailedByWorker))))
    case _ => None
  }

  /** On the table, such a step is the fenced update and nothing else. */
  lemma FencedRows(s: State, st: Step)
    requires Enabled(s, st) && UpdateOf(st).Some?
    ensures var c, u := s.claims[st.token], UpdateOf(st).value;
            (RowsAfter(s.rows, ChangeOf(s, st)), Wins(s, st.token, u.now))
            == TransitionWhileLeased(s.rows, c.tenant, c.job, st.token, u.now, u.transition)
  {
    var u := UpdateOf(st).value;
    assert ChangeOf(s, st) == FencedChange(s, st.token, u.now, u.transition, u.entry);
    hide ChangeOf, Enabled, UpdateOf;
  }

  /** Whether a worker can take a step under its token depends on its own claim only. */
  lemma EnabledByClaim(s: State, s': State, st: Step)
    requires Actor(st).Some? && Enabled(s, st)
    requires Actor(st).value in s'.claims && s'.claims[Actor(st).value] == s.claims[Actor(st).value]
    ensures Enabled(s', st)
  {
  }

  /** What an update leaves of the claim it is made under. */
  lemma ClaimAfterUpdate(s: State, st: Step)
    requires Enabled(s, st) && UpdateOf(st).Some?
    ensures st.token in Apply(s, st).claims
    ensures Apply(s, st).claims[st.token] == s.claims[st.token].(phase := PhaseAfter(st, s.claims[st.token].phase))
  {
    hide ChangeOf, OwedBy;
  }

  /** A worker's update after the interference before it, as a run. */
  lemma UpdateRun(s: State, others: seq<Step>, before: State, st: Step, tenant: TenantId, c: ClaimedRow, phase: Phase)
    requires Ran(s, others, before) && OwnSteps(others, c.token) == []
    requires Enabled(before, st) && UpdateOf(st).Some? && Actor(st) == Some(c.token) && Owns(before, tenant, c, phase)
    ensures Ran(s, others + [st], Apply(before, st)) && OwnSteps(others + [st], c.token) == [st]
    ensures Verdict(s, others + [st], c.token) == Some(Wins(before, c.token, UpdateOf(st).value.now))
    ensures Owns(Apply(before, st), tenant, c, PhaseAfter(st, phase))
    ensures var events := Announcement(c, st, Wins(before, c.token, UpdateOf(st).value.now));
            events != [] ==> events[0] in Apply(before, st).owed
  {
    assert st.token == c.token;
    hide Enabled, Apply, Ran, OwnSteps, UpdateOf, Wins, Actor, Announcement;
    RanStep(before, st, c.token);
    Compose(s, others, before, [st], Apply(before, st), c.token);
    ClaimAfterUpdate(before, st);
    if Announcement(c, st, Wins(before, c.token, UpdateOf(st).value.now)) != [] { AnnouncementOwed(before, st, c); }
  }

  function PhaseAfter(st: Step, phase: Phase): Phase {
    if st.Renew? then phase
    else if st.Acknowledge? && st.replyLost then Failing(false)
    else Done(st.FailTerminal? && phase.Failing? && phase.nonRetryable)
  }

  /** The announcement of an update is owed once the update is made. */
  lemma AnnouncementOwed(s: State, st: Step, c: ClaimedRow)
    requires Enabled(s, st) && UpdateOf(st).Some?
    requires s.claims[st.token].job == c.id && s.claims[st.token].attempt == c.attempts + 1
    requires Announcement(c, st, Wins(s, st.token, UpdateOf(st).value.now)) != []
    ensures Announcement(c, st, Wins(s, st.token, UpdateOf(st).value.now))[0] in Apply(s, st).owed
  {
    assert st.token in s.claims;
    hide ClaimsAfter, ChangeOf, Apply, Wins, Enabled;
    assert OwedBy(s, st) == Some(Announcement(c, st, Wins(s, st.token, UpdateOf(st).value.now))[0]);
    hide OwedBy, Announcement, UpdateOf;
    OwedAfter(s, st);
  }

  lemma OwedAfter(s: State, st: Step)
    requires Enabled(s, st) && OwedBy(s, st).Some?
    ensures OwedBy(s, st).value in Apply(s, st).owed
  {
    assert !st.Publish? && !st.LoseEvent?;
    hide OwedBy, ChangeOf, ClaimsAfter, Enabled;
  }

  /** Whether the last update that a run makes under the token won; None when it makes none. */
  function Verdict(s: State, run: seq<Step>, token: Token): Option<bool>
    requires Legal(s, run)
    decreases |run|
  {
    if run == [] then None
    else
      var later := Verdict(Apply(s, run[0]), run[1..], token);
      if later.Some? then later else VerdictOf(s, run[0], token)
  }

  function VerdictOf(s: State, st: Step, token: Token): Option<bool> {
    if Actor(st) == Some(token) && UpdateOf(st).Some? && token in s.claims
    then Some(Wins(s, token, UpdateOf(st).value.now)) else None
  }

  function Later(a: Option<bool>, b: Option<bool>): Option<bool> {
    if b.Some? then b else a
  }

  lemma {:induction false} VerdictConcat(s: State, a: seq<Step>, b: seq<Step>, token: Token)
    requires Legal(s, a) && Legal(Exec(s, a), b) && Legal(s, a + b)
    ensures Verdict(s, a + b, token) == Later(Verdict(s, a, token), Verdict(Exec(s, a), b, token))
    decreases |a|
  {
    hide Apply, Enabled, VerdictOf;
    if a == [] {
      assert a + b == b;
    } else {
      assert (a + b)[1..] == a[1..] + b;
      VerdictConcat(Apply(s, a[0]), a[1..], b, token);
    }
  }

  /** A run without steps under the token makes no update under it. */
  lemma {:induction false} QuietVerdict(s: State, run: seq<Step>, s': State, token: Token)
    requires Ran(s, run, s') && OwnSteps(run, token) == []
    ensures Verdict(s, run, token) == None
    decreases |run|
  {
    hide Apply, Enabled;
    if run != [] { QuietVerdict(Apply(s, run[0]), run[1..], s', token); }
  }

  lemma Compose(s: State, a: seq<Step>, s1: State, b: seq<Step>, s2: State, token: Token)
    requires Ran(s, a, s1) && Ran(s1, b, s2)
    ensures Ran(s, a + b, s2) && OwnSteps(a + b, token) == OwnSteps(a, token) + OwnSteps(b, token)
    ensures Verdict(s, a + b, token) == Later(Verdict(s, a, token), Verdict(s1, b, token))
  {
    hide Legal, Exec, Verdict;
    ExecConcat(s, a, b);
    OwnStepsConcat(a, b, token);
    VerdictConcat(s, a, b, token);
  }

  lemma RanNothing(s: State, token: Token)
    ensures Ran(s, [], s) && OwnSteps([], token) == [] && Verdict(s, [], token) == None
  {
  }

  /** Nothing takes a published event back. */
  lemma {:induction false} PublishedGrows(s: State, run: seq<Step>, s': State)
    requires Ran(s, run, s')
    ensures s.published <= s'.published
    decreases |run|
  {
    hide Enabled, ChangeOf, ClaimsAfter, OwedBy;
    if run != [] { PublishedGrows(Apply(s, run[0]), run[1..], s'); }
  }

  lemma UpdatePublishesNothing(s: State, st: Step)
    requires Enabled(s, st) && UpdateOf(st).Some?
    ensures Apply(s, st).published == s.published
  {
  }

  /** What a worker has published for a commit stands for that commit, and is published once. */
  lemma LoggedEventsAreCommitted(s: State, log: seq<Event>, i: nat)
    requires Inv(s) && Logged(log, s) && i < |log| && Backed(log[i])
    ensures Committed(s, log[i])
    ensures forall k :: 0 <= k < |log| && k != i ==> log[k] != log[i]
  {
    hide Core, Committed;
    assert log[i] in multiset(log);
    assert Announced(s)[log[i]] == 1;
    forall k | 0 <= k < |log| && k != i ensures log[k] != log[i] {
      if log[k] == log[i] { TwiceInLog(log, i, k); }
    }
  }

  lemma TwiceInLog(log: seq<Event>, i: nat, k: nat)
    requires i < |log| && k < |log| && i != k && log[i] == log[k]
    ensures multiset(log)[log[i]] >= 2
  {
    var a, b := if i < k then i else k, if i < k then k else i;
    assert log == log[..a] + [log[a]] + log[a + 1..b] + [log[b]] + log[b + 1..];
  }

  lemma RanStep(s: State, st: Step, token: Token)
    requires Enabled(s, st)
    ensures Ran(s, [st], Apply(s, st))
    ensures OwnSteps([st], token) == if Actor(st) == Some(token) then [st] else []
    ensures Verdict(s, [st], token) == VerdictOf(s, st, token)
  {
    SingleStep(s, st);
    hide Exec, Apply, Enabled, VerdictOf;
    assert [st][1..] == [] && OwnSteps([], token) == [] && Verdict(Apply(s, st), [], token) == None;
  }

  class JobDatabase {
    var rows: Rows
    ghost var protocol: State

    ghost predicate Valid()
      reads this
    {
      protocol.rows == rows && Inv(protocol)
    }

    constructor ()
      ensures Valid() && rows == map[] && protocol == INITIAL
    {
      rows := map[];
      protocol := INITIAL;
    }

    /**
     * Any number of steps of other workers, enqueuers and events, none under
     * `token`. A caller knows of them only what is promised here, so its proof
     * covers every interleaving. Tokens are fresh: nobody else draws this one.
     */
    method Interference(ghost token: Token) returns (ghost others: seq<Step>)
      requires Valid()
      modifies this
      ensures Valid() && Ran(old(protocol), others, protocol) && OwnSteps(others, token) == []
      ensures token !in old(protocol.claims) ==> token !in protocol.claims
    {
      others := [];
    }

    /** One fenced update statement, made as the protocol step `st`. */
    method UpdateWhileLeased(tenant: TenantId, job: JobId, token: Token, now: int, t: Transition, ghost st: Step)
      returns (acked: bool)
      requires Valid() && Enabled(protocol, st) && Actor(st) == Some(token)
      requires protocol.claims[token].job == job && protocol.claims[token].tenant == tenant
      requires UpdateOf(st).Some? && UpdateOf(st).value.now == now && UpdateOf(st).value.transition == t
      modifies this
      ensures Valid() && protocol == Apply(old(protocol), st)
      ensures (rows, acked) == TransitionWhileLeased(old(rows), tenant, job, token, now, t)
      ensures acked == Wins(old(protocol), token, now)
    {
      hide Inv, Apply, Enabled, ChangeOf, RowsAfter, Wins, SetColumns;
      assert st.token == token;
      hide Actor, UpdateOf;
      StepKeepsInv(protocol, st);
      FencedRows(protocol, st);
      acked := false;
      if job in rows && Fenced(rows[job], tenant, token, now) {
        rows := rows[job := SetColumns(rows[job], t)];
        acked := true;
      }
      protocol := Apply(protocol, st);
    }

    /** The two statements of a claim, in one transaction. */
    method Claim(tenant: TenantId, token: Token, now: int, leaseMs: nat, picked: Option<JobId>, ghost locked: set<JobId>)
      returns (claimed: Option<ClaimedRow>)
      requires Valid() && IsDueSelection(rows, tenant, now, locked, picked) && token !in protocol.claims
      modifies this
      ensures Valid()
      ensures picked == None ==> claimed == None && rows == old(rows) && protocol == old(protocol)
      ensures picked.Some? ==>
        && picked.value in old(rows)
        && claimed == Some(RowClaimed(old(rows), picked.value, token))
        && rows == old(rows)[picked.value := ClaimColumns(old(rows)[picked.value], token, now + leaseMs)]
        && Enabled(old(protocol), ClaimJob(picked.value, tenant, token, now, leaseMs))
        && protocol == Apply(old(protocol), ClaimJob(picked.value, tenant, token, now, leaseMs))
        && protocol.published == old(protocol.published)
        && Owns(protocol, tenant, claimed.value, Holding)
    {
      if picked == None { return None; }
      var id := picked.value;
      var r := rows[id];
      claimed := Some(ClaimedRow(id, r.kind, r.attempts, r.maxAttempts, token));
      rows := rows[id := ClaimColumns(r, token, now + leaseMs)];
      ghost var st := ClaimJob(id, tenant, token, now, leaseMs);
      hide Inv, Apply, Enabled, Owns, ClaimColumns;
      ClaimStands(protocol, tenant, token, now, leaseMs, id, locked);
      StepKeepsInv(protocol, st);
      protocol := Apply(protocol, st);
    }

    /** One row of a recovery: the update by id, within the recovery's transaction. */
    method RecoverRow(tenant: TenantId, id: JobId, now: int)
      requires Valid() && id in rows && Expired(rows[id], tenant, now)
      modifies this
      ensures Valid() && rows == old(rows)[id := RecoverColumns(old(rows)[id], now)]
      ensures protocol == Apply(old(protocol), Recover(id, tenant, now))
      ensures protocol.claims == old(protocol.claims)
      ensures protocol.owed == old(protocol.owed) + multiset{RecoveryEvent(old(rows), id)}
      ensures protocol.published == old(protocol.published)
    {
      StepKeepsInv(protocol, Recover(id, tenant, now));
      hide Inv, Apply;
      RecoverEffect(protocol, id, tenant, now);
      rows := rows[id := RecoverColumns(rows[id], now)];
      protocol := Apply(protocol, Recover(id, tenant, now));
    }

    /** A move of a worker that touches no row, or the end of an event. */
    ghost method Note(st: Step)
      requires Valid() && Enabled(protocol, st) && ChangeOf(protocol, st) == None
      modifies this`protocol
      ensures Valid() && protocol == Apply(old(protocol), st)
    {
      StepKeepsInv(protocol, st);
      hide Inv, Apply, ChangeOf, Enabled;
      protocol := Apply(protocol, st);
    }
  }

  // ----------------------------------------------------------------- the worker

  /** Every call of this worker's publisher is an event the protocol has published. */
  predicate Logged(log: seq<Event>, s: State) {
    multiset(log) <= s.published
  }

  /** The events a cycle publishes for the claim it executed. */
  function ExecutionEvents(claimed: Option<ClaimedRow>, s: State, run: seq<Step>, cfg: Config, i: Inputs): seq<Event>
    requires Legal(s, run) && ResolveWorkerConfig(cfg) == Ok(cfg)
  {
    match claimed
    case None => []
    case Some(c) => Announcement(c, LastOf(Script(c, cfg, i)), Verdict(s, run, c.token) == Some(true))
  }

  lemma StillLogged(log: seq<Event>, s: State, run: seq<Step>, s': State)
    requires Logged(log, s) && Ran(s, run, s')
    ensures Logged(log, s')
  {
    PublishedGrows(s, run, s');
  }

  class JobWorker {
    const tenant: TenantId
    const config: Config
    const hasPublisher: bool
    const db: JobDatabase
    var stopped: bool
    var published: seq<Event>  // the publisher's calls, oldest first

    ghost predicate Valid()
      reads this, db
    {
      db.Valid() && ResolveWorkerConfig(config) == Ok(config) && Logged(published, db.protocol)
    }

    constructor (tenant: TenantId, config: Config, hasPublisher: bool, db: JobDatabase)
      requires db.Valid() && ResolveWorkerConfig(config) == Ok(config)
      ensures Valid() && this.tenant == tenant && this.config == config && this.hasPublisher == hasPublisher
      ensures this.db == db && !stopped && published == []
    {
      this.tenant, this.config, this.hasPublisher, this.db := tenant, config, hasPublisher, db;
      stopped, published := false, [];
    }

    /** Hands one owed event to the publisher, if there is one. */
    method PublishEvent(e: Event, ghost token: Token) returns (ghost run: seq<Step>)
      requires Valid() && e in db.protocol.owed
      modifies db`protocol, this`published
      ensures Valid() && Ran(old(db.protocol), run, db.protocol) && OwnSteps(run, token) == []
      ensures published == old(published) + (if hasPublisher then [e] else [])
      ensures db.protocol.claims == old(db.protocol.claims)
      ensures db.protocol.owed == old(db.protocol.owed) - multiset{e}
    {
      hide Inv, Ran, OwnSteps, Verdict;
      ghost var st := if hasPublisher then Publish(e) else LoseEvent(e);
      if hasPublisher { published := published + [e]; }
      run := [st];
      RanStep(db.protocol, st, token);
      db.Note(st);
    }

    /**
     * A fenced update of this worker, whatever others did since its last one;
     * every update it makes for a claim goes through here.
     */
    method TransitionWhileLeased(c: ClaimedRow, t: Transition, now: int, ghost st: Step, ghost phase: Phase)
      returns (acked: bool, ghost others: seq<Step>, ghost before: State)
      requires Valid() && Owns(db.protocol, tenant, c, phase)
      requires Actor(st) == Some(c.token) && Enabled(db.protocol, st)
      requires UpdateOf(st).Some? && UpdateOf(st).value.now == now && UpdateOf(st).value.transition == t
      modifies db
      ensures Valid() && Ran(old(db.protocol), others, before) && OwnSteps(others, c.token) == []
      ensures Owns(before, tenant, c, phase) && Enabled(before, st)
      ensures db.protocol == Apply(before, st) && acked == Wins(before, c.token, now)
    {
      hide Enabled, Apply, Ran, OwnSteps, UpdateOf, Inv, Wins, Actor;
      ghost var s0 := db.protocol;
      others := db.Interference(c.token);
      before := db.protocol;
      OthersKeepClaim(s0, others, before, c.token);
      EnabledByClaim(s0, before, st);
      acked := db.UpdateWhileLeased(tenant, c.id, c.token, now, t, st);
      PublishedGrows(s0, others, before);
      UpdatePublishesNothing(before, st);
    }

    /** A final update and the event that goes with it, published when the update won or `always`. */
    method End(c: ClaimedRow, t: Transition, now: int, name: EventName, always: bool, ghost st: Step, ghost phase: Phase)
      returns (won: bool, ghost run: seq<Step>)
      requires Valid() && Owns(db.protocol, tenant, c, phase)
      requires Actor(st) == Some(c.token) && Enabled(db.protocol, st)
      requires UpdateOf(st).Some? && UpdateOf(st).value.now == now && UpdateOf(st).value.transition == t
      requires forall w :: Announcement(c, st, w) == if w || always then [Event(name, c.id, c.attempts + 1, false)] else []
      modifies db, this`published
      ensures Valid() && Ran(old(db.protocol), run, db.protocol) && OwnSteps(run, c.token) == [st]
      ensures Owns(db.protocol, tenant, c, PhaseAfter(st, phase))
      ensures Verdict(old(db.protocol), run, c.token) == Some(won)
      ensures published == old(published) + (if hasPublisher then Announcement(c, st, won) else [])
    {
      hide Enabled, Apply, Ran, OwnSteps, Verdict, UpdateOf, Announcement, Inv, Wins, Actor;
      ghost var s0 := db.protocol;
      ghost var others, before;
      won, others, before := TransitionWhileLeased(c, t, now, st, phase);
      run := others + [st];
      UpdateRun(s0, others, before, st, tenant, c, phase);
      if won || always {
        var e := Event(name, c.id, c.attempts + 1, false);
        ghost var s1 := db.protocol;
        ghost var more;
        more := PublishEvent(e, c.token);
        QuietVerdict(s1, more, db.protocol, c.token);
        Compose(s0, run, s1, more, db.protocol, c.token);
        run := run + more;
      }
    }

    /** The renewal loop: sleep, renew, until the handler has settled. */
    method RenewWhileHandling(c: ClaimedRow, readings: seq<(int, int)>) returns (ghost run: seq<Step>)
      requires Valid() && Owns(db.protocol, tenant, c, Handling)
      modifies db
      ensures Valid() && Ran(old(db.protocol), run, db.protocol) && Owns(db.protocol, tenant, c, Handling)
      ensures OwnSteps(run, c.token) == Renewals(c.token, readings, config.leaseSeconds * 1000)
    {
      var k := 0;
      run := [];
      hide Apply, Ran, OwnSteps, Verdict, Inv, Wins, Announcement;
      RanNothing(db.protocol, c.token);
      while k < |readings|
        invariant 0 <= k <= |readings| && Valid()
        invariant Ran(old(db.protocol), run, db.protocol) && Owns(db.protocol, tenant, c, Handling)
        invariant OwnSteps(run, c.token) == Renewals(c.token, readings[..k], config.leaseSeconds * 1000)
      {
        ghost var s1 := db.protocol;
        var (clock, now) := readings[k];
        ghost var st := Renew(c.token, clock, now, config.leaseSeconds * 1000);
        var renewed;
        ghost var others, before;
        renewed, others, before :=
          TransitionWhileLeased(c, Renewal(clock + config.leaseSeconds * 1000), now, st, Handling);
        UpdateRun(s1, others, before, st, tenant, c, Handling);
        Compose(old(db.protocol), run, s1, others + [st], db.protocol, c.token);
        run := run + (others + [st]);
        assert readings[..k + 1][..k] == readings[..k];
        k := k + 1;
      }
      assert readings[..k] == readings;
    }

    /** The catch branch: a retry while an attempt is left, a terminal failure otherwise. */
    method Catch(c: ClaimedRow, o: Outcome, i: Inputs) returns (won: bool, ghost run: seq<Step>)
      requires Valid() && Owns(db.protocol, tenant, c, Failing(o.ThrewNonRetryable?)) && o != Completed
      modifies db, this`published
      ensures Valid() && Ran(old(db.protocol), run, db.protocol) && OwnSteps(run, c.token) == [Caught(c, config, o, i)]
      ensures Owns(db.protocol, tenant, c, Done(o.ThrewNonRetryable?)) && Verdict(old(db.protocol), run, c.token) == Some(won)
      ensures published == old(published)
                           + (if hasPublisher then Announcement(c, Caught(c, config, o, i), won) else [])
    {
      var code := ClassifyFailure(o, i.timedOut);
      ghost var st := Caught(c, config, o, i);
      hide Apply, Ran, OwnSteps, Verdict, Inv, BackoffDelay, ClassifyFailure;
      if Retryable(c, o) {
        var delay := RetryDelay(c, config, i.random);
        won, run := End(c, Reschedule(i.clock + delay, code), i.now, JobsRetryScheduled, false, st, Failing(false));
      } else {
        won, run := End(c, TerminalFailure(i.finishedAt, code), i.now, JobsFailed, true, st, Failing(o.ThrewNonRetryable?));
      }
    }

    /** An acknowledgement whose reply is a database error, whether or not it committed; the catch branch follows. */
    method AcknowledgeUnheard(c: ClaimedRow, i: Inputs) returns (ghost run: seq<Step>)
      requires Valid() && Owns(db.protocol, tenant, c, Handling) && i.reply.Lost?
      modifies db
      ensures Valid() && Ran(old(db.protocol), run, db.protocol) && Owns(db.protocol, tenant, c, Failing(false))
      ensures OwnSteps(run, c.token) ==
                [if i.reply.committed then Acknowledge(c.token, i.finishedAt, i.now, true) else HandlerThrows(c.token, false)]
    {
      hide Apply, Ran, OwnSteps, Verdict, Inv, Wins, Announcement;
      ghost var s0 := db.protocol;
      if i.reply.committed {
        ghost var st := Acknowledge(c.token, i.finishedAt, i.now, true);
        var acked;
        ghost var others, before;
        acked, others, before := TransitionWhileLeased(c, Success(i.finishedAt), i.now, st, Handling);
        UpdateRun(s0, others, before, st, tenant, c, Handling);
        run := others + [st];
      } else {
        run := LocalMove(c, HandlerThrows(c.token, false), Handling, Failing(false));
      }
    }

    /** A move of this worker between two database calls. */
    ghost method LocalMove(c: ClaimedRow, st: Step, from: Phase, to: Phase) returns (run: seq<Step>)
      requires Valid() && Owns(db.protocol, tenant, c, from)
      requires (st == StartHandler(c.token) && from == Holding && to == Handling)
               || (st.HandlerThrows? && st.token == c.token && from == Handling && to == Failing(st.nonRetryable))
      modifies db`protocol
      ensures Valid() && Ran(old(db.protocol), run, db.protocol) && Owns(db.protocol, tenant, c, to)
      ensures OwnSteps(run, c.token) == [st]
    {
      hide Ran, OwnSteps, Verdict, Inv;
      run := [st];
      RanStep(db.protocol, st, c.token);
      MoveEffect(db.protocol, st);
      hide Apply;
      db.Note(st);
    }

    /** Handler and renewals done, the last update and its event. */
    method Settle(c: ClaimedRow, i: Inputs) returns (won: bool, ghost run: seq<Step>)
      requires Valid() && Owns(db.protocol, tenant, c, Handling)
      modifies db, this`published
      ensures Valid() && Ran(old(db.protocol), run, db.protocol) && OwnSteps(run, c.token) == Ending(c, config, i)
      ensures Owns(db.protocol, tenant, c, Done(i.outcome.ThrewNonRetryable?)) && Verdict(old(db.protocol), run, c.token) == Some(won)
      ensures published == old(published)
                           + (if hasPublisher then Announcement(c, LastOf(Ending(c, config, i)), won) else [])
    {
      hide Apply, Ran, OwnSteps, Verdict, Inv, Wins, Caught;
      ghost var s0 := db.protocol;
      if i.outcome == Completed && i.reply == Delivered {
        won, run := End(c, Success(i.finishedAt), i.now, JobsSucceeded, false,
                        Acknowledge(c.token, i.finishedAt, i.now, false), Handling);
      } else {
        hide Announcement;
        if i.outcome == Completed {
          run := AcknowledgeUnheard(c, i);
        } else {
          run := LocalMove(c, HandlerThrows(c.token, i.outcome.ThrewNonRetryable?), Handling,
                           Failing(i.outcome.ThrewNonRetryable?));
        }
        ghost var s1 := db.protocol;
        ghost var more;
        won, more := Catch(c, if i.outcome == Completed then ThrewOther else i.outcome, i);
        Compose(s0, run, s1, more, db.protocol, c.token);
        run := run + more;
      }
    }

    /**
     * Executes a claim. Interleaved with whatever the others do, the steps taken
     * under its token are exactly its script; at the end the claim is done, and
     * the publisher was called for the last update: for a success or a retry
     * only if that update won, for a terminal failure in any case.
     */
    method ExecuteClaimed(c: ClaimedRow, i: Inputs) returns (won: bool, ghost run: seq<Step>)
      requires Valid() && Owns(db.protocol, tenant, c, Holding)
      modifies db, this`published
      ensures Valid() && Ran(old(db.protocol), run, db.protocol) && OwnSteps(run, c.token) == Script(c, config, i)
      ensures Owns(db.protocol, tenant, c, Done(EndedNonRetryable(i))) && Verdict(old(db.protocol), run, c.token) == Some(won)
      ensures published == old(published)
                           + (if hasPublisher then Announcement(c, LastOf(Script(c, config, i)), won) else [])
    {
      hide Apply, Ran, OwnSteps, Verdict, Inv, Wins, Renewals, Ending;
      ghost var s0 := db.protocol;
      if !i.known {
        won, run := End(c, TerminalFailure(i.finishedAt, UnknownType), i.now, JobsFailed, true,
                        FailTerminal(c.token, UnknownType, i.finishedAt, i.now), Holding);
      } else if !i.parsed {
        won, run := End(c, TerminalFailure(i.finishedAt, PayloadInvalid), i.now, JobsFailed, true,
                        FailTerminal(c.token, PayloadInvalid, i.finishedAt, i.now), Holding);
      } else {
        hide Announcement;
        run := LocalMove(c, StartHandler(c.token), Holding, Handling);
        ghost var s1 := db.protocol;
        ghost var renewing, settling;
        renewing := RenewWhileHandling(c, i.renewals);
        Compose(s0, run, s1, renewing, db.protocol, c.token);
        ghost var s2 := db.protocol;
        won, settling := Settle(c, i);
        Compose(s0, run + renewing, s2, settling, db.protocol, c.token);
        run := run + renewing + settling;
        ScriptsEnd(c, config, i, [StartHandler(c.token)] + Renewals(c.token, i.renewals, config.leaseSeconds * 1000));
      }
    }

    /** One row of a recovery, after the run so far. */
    method RecoverNext(id: JobId, now: int, ghost s0: State, ghost before: seq<Step>, ghost token: Token)
      returns (e: Event, ghost run: seq<Step>)
      requires Valid() && id in db.rows && Expired(db.rows[id], tenant, now)
      requires Ran(s0, before, db.protocol) && OwnSteps(before, token) == []
      modifies db
      ensures Valid() && Ran(s0, run, db.protocol) && OwnSteps(run, token) == []
      ensures db.rows == old(db.rows)[id := RecoverColumns(old(db.rows)[id], now)]
      ensures e == RecoveryEvent(old(db.rows), id)
      ensures db.protocol.owed == old(db.protocol.owed) + multiset{e} && db.protocol.claims == old(db.protocol.claims)
    {
      hide Apply, Inv, Ran, OwnSteps, Verdict, RecoverColumns;
      ghost var s1, st := db.protocol, Recover(id, tenant, now);
      e := RecoveryEvent(db.rows, id);
      db.RecoverRow(tenant, id, now);
      RanStep(s1, st, token);
      Compose(s0, before, s1, [st], db.protocol, token);
      run := before + [st];
    }

    /** The transaction of a recovery: the selected rows are given back one by one. */
    method RecoverRows(now: int, ids: seq<JobId>, ghost locked: set<JobId>, ghost token: Token)
      returns (events: seq<Event>, ghost run: seq<Step>)
      requires Valid() && IsExpiredSelection(db.rows, tenant, now, config.concurrency, locked, ids)
      modifies db
      ensures Valid() && Ran(old(db.protocol), run, db.protocol) && OwnSteps(run, token) == []
      ensures Recovered(old(db.rows), db.rows, ids, now) && InTable(old(db.rows), ids)
      ensures events == RecoveryEvents(old(db.rows), ids) && multiset(events) <= db.protocol.owed
      ensures db.protocol.claims == old(db.protocol.claims)
    {
      ghost var s0 := db.protocol;
      ghost var rows0 := db.rows;
      events, run := [], [];
      assert RecoveredTo(rows0, db.rows, db.protocol.owed, ids, 0, events, now);
      hide Apply, Inv, Ran, OwnSteps, Verdict, RecoveredTo, RecoveryEvent, RecoverColumns, Expired, IsExpiredSelection, InTable;
      RanNothing(s0, token);
      var k := 0;
      while k < |ids|
        invariant 0 <= k <= |ids| && Valid() && db.protocol.claims == s0.claims
        invariant RecoveredTo(rows0, db.rows, db.protocol.owed, ids, k, events, now)
        invariant Ran(s0, run, db.protocol) && OwnSteps(run, token) == []
      {
        RecoverySelected(rows0, ids, k, tenant, now, config.concurrency, locked);
        NextToRecover(rows0, db.rows, db.protocol.owed, ids, k, events, now);
        var e;
        e, run := RecoverNext(ids[k], now, s0, run, token);
        events, k := events + [e], k + 1;
      }
      RecoveredAll(rows0, db.rows, db.protocol.owed, ids, events, now);
    }

    /** Publishes owed events in order. */
    method PublishAll(events: seq<Event>, ghost token: Token) returns (ghost run: seq<Step>)
      requires Valid() && multiset(events) <= db.protocol.owed
      modifies db`protocol, this`published
      ensures Valid() && Ran(old(db.protocol), run, db.protocol) && OwnSteps(run, token) == []
      ensures published == old(published) + (if hasPublisher then events else [])
      ensures db.protocol.claims == old(db.protocol.claims)
    {
      hide Apply, Inv, Ran, OwnSteps, Verdict, Logged;
      ghost var s0 := db.protocol;
      run := [];
      RanNothing(s0, token);
      var k := 0;
      while k < |events|
        invariant 0 <= k <= |events| && Valid()
        invariant Ran(s0, run, db.protocol) && OwnSteps(run, token) == []
        invariant published == old(published) + (if hasPublisher then events[..k] else [])
        invariant multiset(events[k..]) <= db.protocol.owed && db.protocol.claims == s0.claims
      {
        ghost var s1 := db.protocol;
        HeadAndRest(events, k);
        ghost var more;
        more := PublishEvent(events[k], token);
        Compose(s0, run, s1, more, db.protocol, token);
        run, k := run + more, k + 1;
      }
      assert events[..k] == events;
    }

    /**
     * Recovery: every selected row goes back to the queue, or to failed when it
     * has no attempt left, and no other row changes; the events are published
     * after the commit in the order of the rows.
     */
    method RecoverExpiredLeases(now: int, ids: seq<JobId>, ghost locked: set<JobId>, ghost token: Token)
      returns (ghost run: seq<Step>)
      requires Valid() && IsExpiredSelection(db.rows, tenant, now, config.concurrency, locked, ids)
      modifies db, this`published
      ensures Valid() && Ran(old(db.protocol), run, db.protocol) && OwnSteps(run, token) == []
      ensures Recovered(old(db.rows), db.rows, ids, now)
      ensures published == old(published) + (if hasPublisher then RecoveryEvents(old(db.rows), ids) else [])
      ensures db.protocol.claims == old(db.protocol.claims)
    {
      hide Apply, Inv, Ran, OwnSteps, Verdict, IsExpiredSelection, RecoveryEvents, Recovered;
      ghost var s0 := db.protocol;
      var events;
      events, run := RecoverRows(now, ids, locked, token);
      ghost var s1 := db.protocol;
      ghost var more;
      more := PublishAll(events, token);
      Compose(s0, run, s1, more, db.protocol, token);
      run := run + more;
    }

    /**
     * One cycle: recover, then claim and execute at most one job; a stopped
     * worker does nothing. The claim's select sees the table as others have left
     * it (`at`, after the steps `sofar`), so its answer is given as a function of
     * the rows. The publisher gets the events of the recovery, then that of the
     * execution: for a success or a retry only if the last update won.
     */
    method RunOnce(recoverAt: int, ids: seq<JobId>, ghost locked: set<JobId>,
                   claimAt: int, token: Token, select: Rows -> Option<JobId>, ghost claimLocked: set<JobId>, i: Inputs)
      returns (claimed: Option<ClaimedRow>, ghost run: seq<Step>, ghost sofar: seq<Step>, ghost at: State)
      requires Valid() && IsExpiredSelection(db.rows, tenant, recoverAt, config.concurrency, locked, ids)
      requires forall rows :: IsDueSelection(rows, tenant, claimAt, claimLocked, select(rows))
      requires token !in db.protocol.claims
      modifies db, this`published
      ensures Valid() && Ran(old(db.protocol), run, db.protocol)
      ensures stopped ==> run == [] && claimed == None && published == old(published) && db.rows == old(db.rows)
      ensures !stopped ==> Ran(old(db.protocol), sofar, at) && sofar <= run && OwnSteps(sofar, token) == []
      ensures !stopped ==>
                match select(at.rows)
                case None => claimed == None && run == sofar
                case Some(id) =>
                  && id in at.rows && claimed == Some(RowClaimed(at.rows, id, token))
                  && sofar + [ClaimJob(id, tenant, token, claimAt, config.leaseSeconds * 1000)] <= run
                  && Owns(db.protocol, tenant, claimed.value, Done(EndedNonRetryable(i)))
      ensures OwnSteps(run, token) == if claimed.Some? then Script(claimed.value, config, i) else []
      ensures !stopped && hasPublisher ==>
                published == old(published) + RecoveryEvents(old(db.rows), ids) + ExecutionEvents(claimed, old(db.protocol), run, config, i)
      ensures !hasPublisher ==> published == old(published)
    {
      hide Apply, Inv, Ran, OwnSteps, Verdict, IsExpiredSelection, IsDueSelection, Script, RecoveryEvents, Recovered,
           Enabled, Logged, Announcement;
      ghost var s0 := db.protocol;
      claimed, run, sofar, at := None, [], [], s0;
      RanNothing(s0, token);
      if stopped { return; }
      run := RecoverExpiredLeases(recoverAt, ids, locked, token);
      ghost var s1 := db.protocol;
      ghost var others;
      others := db.Interference(token);
      StillLogged(published, s1, others, db.protocol);
      Compose(s0, run, s1, others, db.protocol, token);
      run := run + others;
      sofar, at := run, db.protocol;
      var picked := select(db.rows);
      claimed := db.Claim(tenant, token, claimAt, config.leaseSeconds * 1000, picked, claimLocked);
      if claimed == None { return; }
      ghost var st := ClaimJob(picked.value, tenant, token, claimAt, config.leaseSeconds * 1000);
      RanStep(at, st, token);
      StillLogged(published, at, [st], db.protocol);
      Compose(s0, run, at, [st], db.protocol, token);
      run := run + [st];
      ghost var s3 := db.protocol;
      var won;
      ghost var executing;
      won, executing := ExecuteClaimed(claimed.value, i);
      Compose(s0, run, s3, executing, db.protocol, token);
      run := run + executing;
    }
  }
}
