/** What every step, and so every run, of the lease protocol keeps. */
module LeaseInvariants {
  import opened Common
  import opened JobTable
  import opened LeaseProtocol

  /** A release of a running row extends its history by one non-taken entry. */
  lemma ReleaseKeepsRow(r: Row, h: seq<Entry>, r': Row, how: Release)
    requires RowMatches(r, h) && r.status == Running
    requires r'.maxAttempts == r.maxAttempts && r'.attempts == r.attempts
    requires r'.token == None && r'.leaseExpiresAt == None
    requires r'.status == match how
                          case Acked => Succeeded
                          case Retried => Pending
                          case FailedByWorker => Failed
                          case RecoveredToPending => Pending
                          case RecoveredToFailed => Failed
    requires r'.finishedAt.Some? <==> r'.Terminal()
    requires r'.status == Pending ==> r.attempts < r.maxAttempts
    ensures RowMatches(r', h + [Released(how)])
  {
    var h' := h + [Released(how)];
    assert |h| == 2 * r.attempts - 1;
    assert h[|h| - 1].Taken?;
    forall i | 0 <= i < |h'| ensures h'[i].Taken? <==> i % 2 == 0 {
      if i < |h| { assert h'[i] == h[i]; }
    }
    forall i | 0 <= i < |h'| - 1 && h'[i].Released? ensures !Final(h'[i].how) {
      assert h'[i] == h[i];
    }
  }

  /** The one entry of the history that a running row's token stands for. */
  lemma HolderIsLatest(s: State, job: JobId, token: Token)
    requires Core(s) && job in s.rows && s.rows[job].status == Running && s.rows[job].token == Some(token)
    ensures token in s.claims && s.claims[token].job == job && s.claims[token].attempt == s.rows[job].attempts
    ensures s.claims[token].maxAttempts == s.rows[job].maxAttempts
  {
    var h := s.history[job];
    assert RowMatches(s.rows[job], h) && TakenMatches(s.claims, job, h);
    assert h[|h| - 1] == Taken(token);
    assert ClaimMatches(s.claims[token], token, s.rows, s.history);
  }

  lemma ClaimKeepsRow(r: Row, h: seq<Entry>, token: Token, expiresAt: int)
    requires RowMatches(r, h) && r.status == Pending
    ensures RowMatches(ClaimColumns(r, token, expiresAt), h + [Taken(token)])
  {
    var h' := h + [Taken(token)];
    forall i | 0 <= i < |h'| - 1 && h'[i].Released? ensures !Final(h'[i].how) {
      assert h'[i] == h[i];
    }
  }

  lemma FencedChangeKeepsRow(s: State, token: Token, now: int, t: Transition, entry: Option<Entry>)
    requires Core(s) && token in s.claims && Wins(s, token, now)
    requires match t
             case Renewal(_) => entry == None
             case Success(_) => entry == Some(Released(Acked))
             case TerminalFailure(_, _) => entry == Some(Released(FailedByWorker))
             case Reschedule(_, _) =>
               entry == Some(Released(Retried)) && s.claims[token].attempt < s.claims[token].maxAttempts
    ensures var c := FencedChange(s, token, now, t, entry).value;
            RowMatches(c.row, Extended(s.history, c))
  {
    var job := s.claims[token].job;
    var r, h := s.rows[job], s.history[job];
    HolderIsLatest(s, job, token);
    if t.Renewal? {
      assert h + [] == h;
    } else {
      ReleaseKeepsRow(r, h, SetColumns(r, t), entry.value.how);
    }
  }

  lemma NewRowMatches(tenant: TenantId, kind: JobType, maxAttempts: nat, availableAt: int)
    requires 1 <= maxAttempts <= 10
    ensures RowMatches(NewRow(tenant, kind, maxAttempts, availableAt), [])
  {
  }

  /** Every change leaves its row and the extended history in agreement. */
  lemma ChangeKeepsRow(s: State, st: Step)
    requires Core(s) && Enabled(s, st) && ChangeOf(s, st).Some?
    ensures var c := ChangeOf(s, st).value;
            RowMatches(c.row, Extended(s.history, c))
  {
    hide RowMatches, TakenMatches, ClaimMatches;
    match st
    case Enqueue(id, tenant, kind, maxAttempts, availableAt) =>
      NewRowMatches(tenant, kind, maxAttempts, availableAt);
    case ClaimJob(id, _, token, now, leaseMs) => ClaimKeepsRow(s.rows[id], s.history[id], token, now + leaseMs);
    case Renew(token, clock, now, leaseMs) => FencedChangeKeepsRow(s, token, now, Renewal(clock + leaseMs), None);
    case Acknowledge(token, finishedAt, now, _) =>
      FencedChangeKeepsRow(s, token, now, Success(finishedAt), Some(Released(Acked)));
    case ScheduleRetry(token, code, clock, delay, now) =>
      FencedChangeKeepsRow(s, token, now, Reschedule(clock + delay, code), Some(Released(Retried)));
    case FailTerminal(token, code, finishedAt, now) =>
      FencedChangeKeepsRow(s, token, now, TerminalFailure(finishedAt, code), Some(Released(FailedByWorker)));
    case Recover(id, _, now) =>
      ReleaseKeepsRow(s.rows[id], s.history[id], RecoverColumns(s.rows[id], now), RecoveryRelease(s.rows[id]));
  }

  /** A worker's copy of its claim keeps its identity. */
  predicate SameClaim(c: Claim, c': Claim) {
    c' == c.(started := c'.started, phase := c'.phase) && (StartRecorded(c) ==> StartRecorded(c'))
  }

  /** What a change does to its row and its history, seen from outside. */
  predicate Fits(rows: Rows, claims': map<Token, Claim>, history: map<JobId, seq<Entry>>, c: Change) {
    && RowMatches(c.row, Extended(history, c))
    && (c.job in rows ==>
          c.row.tenant == rows[c.job].tenant && c.row.maxAttempts == rows[c.job].maxAttempts
          && rows[c.job].attempts <= c.row.attempts)
    && (c.entry.Some? && c.entry.value.Taken? ==>
          var t := c.entry.value.token;
          t in claims' && claims'[t].job == c.job && claims'[t].attempt == |HistoryOf(history, c.job)| / 2 + 1)
  }

  lemma TakenAfter(rows: Rows, claims: map<Token, Claim>, claims': map<Token, Claim>,
                   history: map<JobId, seq<Entry>>, c: Change)
    requires Fits(rows, claims', history, c)
    requires forall t :: t in claims ==> t in claims' && SameClaim(claims[t], claims'[t])
    requires TakenMatches(claims, c.job, HistoryOf(history, c.job))
    ensures TakenMatches(claims', c.job, Extended(history, c))
  {
    var h, h' := HistoryOf(history, c.job), Extended(history, c);
    hide RowMatches;
    forall i | 0 <= i < |h'| && h'[i].Taken?
      ensures h'[i].token in claims' && claims'[h'[i].token].job == c.job
           && claims'[h'[i].token].attempt == i / 2 + 1
    {
      if i < |h| {
        assert h'[i] == h[i] && SameClaim(claims[h[i].token], claims'[h[i].token]);
      } else {
        hide TakenMatches;
      }
    }
  }

  lemma ClaimStaysMatched(rows: Rows, claims: map<Token, Claim>, claims': map<Token, Claim>,
                          history: map<JobId, seq<Entry>>, c: Option<Change>, t: Token)
    requires Consistent(rows, claims, history) && (c.Some? ==> Fits(rows, claims', history, c.value))
    requires t in claims && t in claims' && SameClaim(claims[t], claims'[t])
    ensures ClaimMatches(claims'[t], t, RowsAfter(rows, c), HistoryAfter(history, c))
  {
    hide RowMatches, TakenMatches;
    assert ClaimMatches(claims[t], t, rows, history);
    hide Consistent;
  }

  lemma TakenStaysMatched(rows: Rows, claims: map<Token, Claim>, claims': map<Token, Claim>,
                          history: map<JobId, seq<Entry>>, c: Option<Change>, j: JobId)
    requires Consistent(rows, claims, history) && (c.Some? ==> Fits(rows, claims', history, c.value))
    requires forall t :: t in claims ==> t in claims' && SameClaim(claims[t], claims'[t])
    requires j in RowsAfter(rows, c)
    ensures j in HistoryAfter(history, c)
    ensures RowMatches(RowsAfter(rows, c)[j], HistoryAfter(history, c)[j])
    ensures TakenMatches(claims', j, HistoryAfter(history, c)[j])
  {
    assert j in rows ==> RowMatches(rows[j], history[j]) && TakenMatches(claims, j, history[j]);
    assert j in rows <==> j in history;
    hide Consistent, RowMatches;
    if c.Some? && c.value.job == j {
      TakenAfter(rows, claims, claims', history, c.value);
    } else {
      assert forall t :: t in claims ==> SameClaim(claims[t], claims'[t]);
    }
  }

  lemma ConsistentAfter(rows: Rows, claims: map<Token, Claim>, claims': map<Token, Claim>,
                        history: map<JobId, seq<Entry>>, c: Option<Change>)
    requires Consistent(rows, claims, history)
    requires c.Some? ==> Fits(rows, claims', history, c.value)
    requires forall t :: t in claims ==> t in claims' && SameClaim(claims[t], claims'[t])
    requires forall t :: t in claims' && t !in claims ==>
                           ClaimMatches(claims'[t], t, RowsAfter(rows, c), HistoryAfter(history, c))
    ensures Consistent(RowsAfter(rows, c), claims', HistoryAfter(history, c))
  {
    var rows', history' := RowsAfter(rows, c), HistoryAfter(history, c);
    assert history.Keys == rows.Keys;
    hide RowMatches, Consistent;
    forall t | t in claims' ensures ClaimMatches(claims'[t], t, rows', history') {
      if t in claims { ClaimStaysMatched(rows, claims, claims', history, c, t); }
    }
    forall j | j in rows' ensures RowMatches(rows'[j], history'[j]) && TakenMatches(claims', j, history'[j]) {
      TakenStaysMatched(rows, claims, claims', history, c, j);
    }
    ConsistentKeys(rows, claims, claims', history, c);
  }

  lemma ConsistentKeys(rows: Rows, claims: map<Token, Claim>, claims': map<Token, Claim>,
                       history: map<JobId, seq<Entry>>, c: Option<Change>)
    requires history.Keys == rows.Keys
    requires forall j :: j in RowsAfter(rows, c) ==> j in HistoryAfter(history, c)
    requires forall j :: j in RowsAfter(rows, c) ==> RowMatches(RowsAfter(rows, c)[j], HistoryAfter(history, c)[j])
    requires forall j :: j in RowsAfter(rows, c) ==> TakenMatches(claims', j, HistoryAfter(history, c)[j])
    requires forall t :: t in claims' ==> ClaimMatches(claims'[t], t, RowsAfter(rows, c), HistoryAfter(history, c))
    ensures Consistent(RowsAfter(rows, c), claims', HistoryAfter(history, c))
  {
    hide RowMatches, TakenMatches, ClaimMatches;
  }

  lemma ClaimsEvolve(s: State, st: Step, t: Token)
    requires Enabled(s, st) && t in s.claims
    ensures t in ClaimsAfter(s, st) && SameClaim(s.claims[t], ClaimsAfter(s, st)[t])
    ensures StartRecorded(s.claims[t]) ==>
              (ClaimsAfter(s, st)[t].started <==> s.claims[t].started || st == StartHandler(t))
              && (st == StartHandler(t) ==> !s.claims[t].started)
  {
  }

  lemma ChangeFits(s: State, st: Step)
    requires Core(s) && Enabled(s, st) && ChangeOf(s, st).Some?
    ensures Fits(s.rows, ClaimsAfter(s, st), s.history, ChangeOf(s, st).value)
  {
    ChangeKeepsRow(s, st);
    if st.ClaimJob? { assert RowMatches(s.rows[st.id], s.history[st.id]); }
    hide RowMatches, Core;
    ChangeKeepsIdentity(s, st);
  }

  lemma ChangeKeepsIdentity(s: State, st: Step)
    requires Enabled(s, st) && ChangeOf(s, st).Some?
    ensures var c := ChangeOf(s, st).value;
      && (c.job in s.rows ==>
            c.row.tenant == s.rows[c.job].tenant && c.row.maxAttempts == s.rows[c.job].maxAttempts
            && s.rows[c.job].attempts <= c.row.attempts)
      && (c.entry.Some? && c.entry.value.Taken? ==> st.ClaimJob? && c.entry.value.token == st.token && c.job == st.id)
  {
  }

  lemma NewClaimMatches(s: State, st: Step, t: Token)
    requires Core(s) && Enabled(s, st) && t in ClaimsAfter(s, st) && t !in s.claims
    ensures ClaimMatches(ClaimsAfter(s, st)[t], t, Apply(s, st).rows, Apply(s, st).history)
  {
    assert st.ClaimJob? && st.token == t;
    assert RowMatches(s.rows[st.id], s.history[st.id]);
  }

  lemma StepKeepsCore(s: State, st: Step)
    requires Core(s) && Enabled(s, st)
    ensures Core(Apply(s, st))
  {
    if ChangeOf(s, st).Some? { ChangeFits(s, st); }
    forall t | t in s.claims
      ensures t in ClaimsAfter(s, st) && SameClaim(s.claims[t], ClaimsAfter(s, st)[t])
    {
      ClaimsEvolve(s, st, t);
    }
    forall t | t in ClaimsAfter(s, st) && t !in s.claims
      ensures ClaimMatches(ClaimsAfter(s, st)[t], t, Apply(s, st).rows, Apply(s, st).history)
    {
      NewClaimMatches(s, st, t);
    }
    hide Consistent, ClaimMatches, Fits, ChangeOf, ClaimsAfter, Enabled, SameClaim;
    ConsistentAfter(s.rows, s.claims, ClaimsAfter(s, st), s.history, ChangeOf(s, st));
  }

  // ------------------------------------------------------------------ events

  predicate HistoryGrows(s: State, s': State) {
    forall j :: j in s.history ==> j in s'.history && s.history[j] <= s'.history[j]
  }

  lemma StepGrowsHistory(s: State, st: Step)
    requires Enabled(s, st)
    ensures HistoryGrows(s, Apply(s, st))
  {
    hide ChangeOf, ClaimsAfter, OwedBy;
  }

  lemma BackedAfter(s: State, s': State, more: Option<Event>)
    requires EventsBacked(s) && HistoryGrows(s, s')
    requires more.Some? ==> !Backed(more.value)
    requires Announced(s') <= Announced(s) + (if more.Some? then multiset{more.value} else multiset{})
    ensures EventsBacked(s')
  {
    var bound := Announced(s) + (if more.Some? then multiset{more.value} else multiset{});
    assert forall e :: Announced(s')[e] <= bound[e];
    forall e | e in Announced(s') && Backed(e) ensures Committed(s', e) && Announced(s')[e] == 1 {
      assert e in Announced(s);
      assert s.history[e.job] <= s'.history[e.job];
    }
  }

  /** The event owed for a commit was never announced before that commit. */
  lemma BackedAfterCommit(s: State, s': State, e: Event)
    requires EventsBacked(s) && HistoryGrows(s, s') && Committed(s', e) && !Committed(s, e) && Backed(e)
    requires Announced(s') <= Announced(s) + multiset{e}
    ensures EventsBacked(s')
  {
    assert Announced(s)[e] == 0;
    var bound := Announced(s) + multiset{e};
    assert forall f :: Announced(s')[f] <= bound[f];
    forall f | f in Announced(s') && Backed(f) ensures Committed(s', f) && Announced(s')[f] == 1 {
      if f != e {
        assert f in Announced(s) && s.history[f.job] <= s'.history[f.job];
      }
    }
  }

  lemma AnnouncedAfter(s: State, st: Step)
    requires Enabled(s, st)
    ensures var announced := Announced(s) + (if OwedBy(s, st).Some? then multiset{OwedBy(s, st).value} else multiset{});
            Announced(Apply(s, st)) <= announced
  {
    if st.Publish? || st.LoseEvent? {
      assert OwedBy(s, st) == None;
      assert multiset{st.event} <= s.owed;
    }
    hide ChangeOf, ClaimsAfter, OwedBy, Enabled;
  }

  /** An event owed by a step, other than a worker's `jobs.failed`, is owed for the change of that step. */
  lemma OwedForCommit(s: State, st: Step)
    requires Core(s) && Enabled(s, st) && OwedBy(s, st).Some? && Backed(OwedBy(s, st).value)
    ensures var e := OwedBy(s, st).value;
            !Committed(s, e) && Committed(Apply(s, st), e)
  {
    var c := ChangeOf(s, st).value;
    if !st.Recover? { HolderIsLatest(s, c.job, st.token); }
    assert RowMatches(s.rows[c.job], s.history[c.job]);
    hide RowMatches, TakenMatches, ClaimMatches, ClaimsAfter;
    assert |Extended(s.history, c)| == 2 * s.rows[c.job].attempts;
  }

  lemma StepKeepsEvents(s: State, st: Step)
    requires Inv(s) && Enabled(s, st)
    ensures EventsBacked(Apply(s, st))
  {
    var e := OwedBy(s, st);
    hide Core, EventsBacked, ChangeOf, OwedBy, ClaimsAfter, Apply, Enabled, HistoryGrows, Announced;
    var s' := Apply(s, st);
    StepGrowsHistory(s, st);
    AnnouncedAfter(s, st);
    if e.Some? && Backed(e.value) {
      OwedForCommit(s, st);
      BackedAfterCommit(s, s', e.value);
    } else {
      BackedAfter(s, s', e);
    }
  }

  lemma {:induction false} RunKeepsInv(s: State, run: seq<Step>)
    requires Inv(s) && Legal(s, run)
    ensures Inv(Exec(s, run))
    decreases |run|
  {
    hide Apply, Enabled, Core, EventsBacked;
    if run != [] {
      StepKeepsCore(s, run[0]);
      StepKeepsEvents(s, run[0]);
      RunKeepsInv(Apply(s, run[0]), run[1..]);
    }
  }
}
