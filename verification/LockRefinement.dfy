/**
 * Claims and recoveries as the two-statement transactions they are: a
 * `select ... for update skip locked`, then plain updates by id, then commit or
 * abort, with any number of transactions open at once. A transaction's writes
 * become visible when it commits; the rows it selected stay locked until then.
 * A fenced update is a statement of its own and waits for the lock of the row
 * it would change. What a transaction writes and returns is computed from what
 * it read; that this is still current is what the locks are for.
 */
module LockRefinement {
  import opened Common
  import opened JobTable
  import opened LeaseProtocol
  import opened LeaseProgress

  type TxnId = nat

  datatype Txn =
    | Claiming(tenant: TenantId, token: Token, now: int, leaseMs: nat, id: JobId, selected: Row, update: Option<Row>)
    | Recovering(tenant: TenantId, now: int, ids: seq<JobId>, read: Rows, written: Rows, done: nat)
  {
    function Locks(): set<JobId> {
      if Claiming? then {id} else set i | 0 <= i < |ids| :: ids[i]
    }
  }

  /** The committed state, the open transactions, and every token generated so far. */
  datatype Db = Db(committed: State, txns: map<TxnId, Txn>, issued: set<Token>)

  const EMPTY := Db(INITIAL, map[], {})

  function Locked(d: Db): set<JobId> {
    set x, id | x in d.txns && id in d.txns[x].Locks() :: id
  }

  datatype Action =
    | SelectDue(x: TxnId, tenant: TenantId, token: Token, now: int, leaseMs: nat, id: JobId)
    | UpdateClaimed(x: TxnId)
    | CommitClaim(x: TxnId)
    | SelectExpired(x: TxnId, tenant: TenantId, now: int, limit: nat, ids: seq<JobId>)
    | UpdateRecovered(x: TxnId)
    | CommitRecovery(x: TxnId)
    | Abort(x: TxnId)
    | Statement(st: Step)

  /** An answer of the recovery's select: expired, unlocked, distinct, soonest expiry first, as many as the limit lets. */
  predicate IsExpiredSelection(rows: Rows, tenant: TenantId, now: int, limit: nat, locked: set<JobId>, ids: seq<JobId>) {
    && |ids| <= limit
    && (forall i :: 0 <= i < |ids| ==> ids[i] in rows && ids[i] !in locked && Expired(rows[ids[i]], tenant, now))
    && (forall i, k :: 0 <= i < k < |ids| ==>
          ids[i] != ids[k] && rows[ids[i]].leaseExpiresAt.value <= rows[ids[k]].leaseExpiresAt.value)
    && (forall k :: k in rows && k !in ids && k !in locked && Expired(rows[k], tenant, now) ==>
          |ids| == limit
          && forall i :: 0 <= i < |ids| ==> rows[ids[i]].leaseExpiresAt.value <= rows[k].leaseExpiresAt.value)
  }

  predicate CanDo(d: Db, a: Action) {
    match a
    case SelectDue(x, tenant, token, now, leaseMs, id) =>
      x !in d.txns && token !in d.issued && IsOldestDue(d.committed.rows, tenant, now, Locked(d), id)
    case UpdateClaimed(x) =>
      x in d.txns && d.txns[x].Claiming? && d.txns[x].id in d.committed.rows && d.txns[x].update == None
    case CommitClaim(x) => x in d.txns && d.txns[x].Claiming? && d.txns[x].update.Some?
    case SelectExpired(x, tenant, now, limit, ids) =>
      x !in d.txns && IsExpiredSelection(d.committed.rows, tenant, now, limit, Locked(d), ids)
    case UpdateRecovered(x) =>
      x in d.txns && d.txns[x].Recovering? && d.txns[x].done < |d.txns[x].ids|
      && d.txns[x].ids[d.txns[x].done] in d.committed.rows && d.txns[x].ids[d.txns[x].done] in d.txns[x].read
    case CommitRecovery(x) => x in d.txns && d.txns[x].Recovering? && d.txns[x].done == |d.txns[x].ids|
    case Abort(x) => x in d.txns
    case Statement(st) =>
      !st.ClaimJob? && !st.Recover? && Enabled(d.committed, st)
      && (ChangeOf(d.committed, st).Some? ==> ChangeOf(d.committed, st).value.job !in Locked(d))
  }

  /** The recovery's update by id: the outcome was decided from the row as selected. */
  function WriteRecovered(current: Row, selected: Row, now: int): Row {
    current.(status := if Exhausted(selected) then Failed else Pending,
             finishedAt := if Exhausted(selected) then Some(now) else None,
             availableAt := now, token := None, leaseExpiresAt := None, lastError := Some(LeaseLost))
  }

  /** What committing a claim makes visible: its write, and the row its select returned to the worker. */
  function PublishClaim(s: State, t: Txn): State
    requires t.Claiming? && t.update.Some?
  {
    s.(rows := s.rows[t.id := t.update.value],
       history := s.history[t.id := HistoryOf(s.history, t.id) + [Taken(t.token)]],
       claims := s.claims[t.token := Claim(t.tenant, t.id, t.selected.attempts + 1, t.selected.maxAttempts, false, Holding)])
  }

  /** What committing a recovery makes visible, row by row in the order of the select. */
  function PublishRecovery(s: State, ids: seq<JobId>, read: Rows, written: Rows): State
    decreases |ids|
  {
    if ids == [] || ids[0] !in read || ids[0] !in written then s
    else
      var id, r := ids[0], read[ids[0]];
      var s1 := s.(
        rows := s.rows[id := written[id]],
        history := s.history[id := HistoryOf(s.history, id) + [Released(RecoveryRelease(r))]],
        owed := s.owed + multiset{Event(if Exhausted(r) then JobsFailed else JobsRetryScheduled, id, r.attempts, true)});
      PublishRecovery(s1, ids[1..], read, written)
  }

  function Do(d: Db, a: Action): Db
    requires CanDo(d, a)
  {
    match a
    case SelectDue(x, tenant, token, now, leaseMs, id) =>
      d.(txns := d.txns[x := Claiming(tenant, token, now, leaseMs, id, d.committed.rows[id], None)],
         issued := d.issued + {token})
    case UpdateClaimed(x) =>
      var t := d.txns[x];
      d.(txns := d.txns[x := t.(update := Some(ClaimColumns(d.committed.rows[t.id], t.token, t.now + t.leaseMs)))])
    case CommitClaim(x) => d.(committed := PublishClaim(d.committed, d.txns[x]), txns := d.txns - {x})
    case SelectExpired(x, tenant, now, _, ids) =>
      var read := map id | id in ids && id in d.committed.rows :: d.committed.rows[id];
      d.(txns := d.txns[x := Recovering(tenant, now, ids, read, map[], 0)])
    case UpdateRecovered(x) =>
      var t := d.txns[x];
      var id := t.ids[t.done];
      d.(txns := d.txns[x := t.(written := t.written[id := WriteRecovered(d.committed.rows[id], t.read[id], t.now)],
                                done := t.done + 1)])
    case CommitRecovery(x) =>
      var t := d.txns[x];
      d.(committed := PublishRecovery(d.committed, t.ids, t.read, t.written), txns := d.txns - {x})
    case Abort(x) => d.(txns := d.txns - {x})
    case Statement(st) => d.(committed := Apply(d.committed, st))
  }

  // ------------------------------------------------------------- the invariant

  /** A transaction's view is current, and its writes are those of the atomic steps. */
  predicate Current(s: State, t: Txn) {
    match t
    case Claiming(tenant, token, now, leaseMs, id, selected, update) =>
      && id in s.rows && selected == s.rows[id] && Due(selected, tenant, now) && token !in s.claims
      && (update.Some? ==> update.value == ClaimColumns(selected, token, now + leaseMs))
    case Recovering(tenant, now, ids, read, written, done) =>
      && done <= |ids|
      && (forall i, k :: 0 <= i < k < |ids| ==> ids[i] != ids[k])
      && (forall i :: 0 <= i < |ids| ==>
            ids[i] in s.rows && ids[i] in read && read[ids[i]] == s.rows[ids[i]] && Expired(s.rows[ids[i]], tenant, now))
      && (forall i :: 0 <= i < done ==> ids[i] in written && written[ids[i]] == RecoverColumns(s.rows[ids[i]], now))
  }

  predicate Excluded(t: Txn, u: Txn) {
    t.Locks() !! u.Locks() && (t.Claiming? && u.Claiming? ==> t.token != u.token)
  }

  predicate LockInv(d: Db) {
    && d.committed.claims.Keys <= d.issued
    && (forall x :: x in d.txns ==> Current(d.committed, d.txns[x]))
    && (forall x :: x in d.txns && d.txns[x].Claiming? ==> d.txns[x].token in d.issued)
    && (forall x, y :: x in d.txns && y in d.txns && x != y ==> Excluded(d.txns[x], d.txns[y]))
  }

  /** The atomic steps an action stands for: a transaction acts when it commits. */
  function Atomic(d: Db, a: Action): seq<Step>
    requires CanDo(d, a)
  {
    match a
    case CommitClaim(x) =>
      var t := d.txns[x];
      [ClaimJob(t.id, t.tenant, t.token, t.now, t.leaseMs)]
    case CommitRecovery(x) => Recoveries(d.txns[x].ids, d.txns[x].tenant, d.txns[x].now)
    case Statement(st) => [st]
    case _ => []
  }

  function Recoveries(ids: seq<JobId>, tenant: TenantId, now: int): (r: seq<Step>)
  {
    if ids == [] then [] else [Recover(ids[0], tenant, now)] + Recoveries(ids[1..], tenant, now)
  }

  // ------------------------------------------------------------------- proofs

  /** A change to rows outside the locks of a transaction leaves its view current. */
  lemma StaysCurrent(s: State, s': State, t: Txn)
    requires Current(s, t)
    requires forall j :: j in s.rows && j in t.Locks() ==> j in s'.rows && s'.rows[j] == s.rows[j]
    requires t.Claiming? ==> t.token !in s'.claims
    ensures Current(s', t)
  {
    if t.Recovering? {
      forall i | 0 <= i < |t.ids| ensures t.ids[i] in t.Locks() {}
    }
  }

  lemma SingleStep(s: State, st: Step)
    requires Enabled(s, st)
    ensures Legal(s, [st]) && Exec(s, [st]) == Apply(s, st)
  {
    hide Enabled, Apply;
    assert [st][1..] == [];
    assert Legal(Apply(s, st), []);
  }

  lemma ClaimRefines(s: State, t: Txn)
    requires t.Claiming? && Current(s, t) && t.update.Some?
    ensures var st := ClaimJob(t.id, t.tenant, t.token, t.now, t.leaseMs);
            Enabled(s, st) && PublishClaim(s, t) == Apply(s, st)
  {
    hide Apply;
    ClaimEffect(s, t.id, t.tenant, t.token, t.now, t.leaseMs);
  }

  /** Publishing the first row of a recovery is the atomic recovery of that row. */
  lemma FirstRecoverRefines(s: State, tenant: TenantId, now: int, ids: seq<JobId>, read: Rows, written: Rows)
    requires ids != [] && Current(s, Recovering(tenant, now, ids, read, written, |ids|))
    ensures var st := Recover(ids[0], tenant, now);
      && Enabled(s, st)
      && PublishRecovery(s, ids, read, written) == PublishRecovery(Apply(s, st), ids[1..], read, written)
      && Current(Apply(s, st), Recovering(tenant, now, ids[1..], read, written, |ids[1..]|))
      && Apply(s, st).claims == s.claims
      && (forall j :: j in s.rows && j != ids[0] ==> j in Apply(s, st).rows && Apply(s, st).rows[j] == s.rows[j])
  {
    hide Apply;
    RecoverEffect(s, ids[0], tenant, now);
    forall i | 0 <= i < |ids[1..]| ensures ids[1..][i] == ids[i + 1] && ids[i + 1] != ids[0] {}
  }

  lemma {:induction false} RecoveryRefines(s: State, tenant: TenantId, now: int, ids: seq<JobId>, read: Rows, written: Rows)
    requires Current(s, Recovering(tenant, now, ids, read, written, |ids|))
    ensures Legal(s, Recoveries(ids, tenant, now))
    ensures var s' := PublishRecovery(s, ids, read, written);
      && s' == Exec(s, Recoveries(ids, tenant, now))
      && s'.claims == s.claims
      && (forall j :: j in s.rows && j !in ids ==> j in s'.rows && s'.rows[j] == s.rows[j])
    decreases |ids|
  {
    if ids != [] {
      hide Current, Enabled, Apply;
      FirstRecoverRefines(s, tenant, now, ids, read, written);
      RecoveryRefines(Apply(s, Recover(ids[0], tenant, now)), tenant, now, ids[1..], read, written);
      assert Recoveries(ids, tenant, now)[1..] == Recoveries(ids[1..], tenant, now);
    }
  }

  /** Any action is a stutter or the atomic steps it stands for. */
  lemma ActionRefines(d: Db, a: Action)
    requires LockInv(d) && CanDo(d, a)
    ensures Legal(d.committed, Atomic(d, a)) && Do(d, a).committed == Exec(d.committed, Atomic(d, a))
  {
    match a
    case CommitClaim(x) =>
      ClaimRefines(d.committed, d.txns[x]);
      var t := d.txns[x];
      hide Current, Apply, Enabled, Excluded;
      SingleStep(d.committed, ClaimJob(t.id, t.tenant, t.token, t.now, t.leaseMs));
    case CommitRecovery(x) =>
      var t := d.txns[x];
      hide Apply, Enabled, Excluded;
      RecoveryRefines(d.committed, t.tenant, t.now, t.ids, t.read, t.written);
    case Statement(st) =>
      hide Apply, Enabled, Current, Excluded;
      SingleStep(d.committed, st);
    case _ =>
  }

  // ------------------------------------------------- what every action keeps

  lemma CommitClaimKeepsLocks(d: Db, x: TxnId)
    requires LockInv(d) && CanDo(d, CommitClaim(x))
    ensures LockInv(Do(d, CommitClaim(x)))
  {
    var d' := Do(d, CommitClaim(x));
    var t := d.txns[x];
    forall y | y in d'.txns ensures Current(d'.committed, d'.txns[y]) {
      assert Excluded(t, d.txns[y]);
      assert t.id in t.Locks();
      StaysCurrent(d.committed, d'.committed, d.txns[y]);
    }
  }

  lemma CommitRecoveryKeepsLocks(d: Db, x: TxnId)
    requires LockInv(d) && CanDo(d, CommitRecovery(x))
    ensures LockInv(Do(d, CommitRecovery(x)))
  {
    var d' := Do(d, CommitRecovery(x));
    var t := d.txns[x];
    RecoveryRefines(d.committed, t.tenant, t.now, t.ids, t.read, t.written);
    forall y | y in d'.txns ensures Current(d'.committed, d'.txns[y]) {
      assert Excluded(t, d.txns[y]);
      assert forall i :: 0 <= i < |t.ids| ==> t.ids[i] in t.Locks();
      StaysCurrent(d.committed, d'.committed, d.txns[y]);
    }
  }

  lemma StatementKeepsLocks(d: Db, st: Step)
    requires LockInv(d) && CanDo(d, Statement(st))
    ensures LockInv(Do(d, Statement(st)))
  {
    var d' := Do(d, Statement(st));
    assert d'.committed.claims.Keys == d.committed.claims.Keys;
    hide Enabled, ClaimsAfter, ChangeOf, OwedBy;
    forall y | y in d'.txns ensures Current(d'.committed, d'.txns[y]) {
      forall j | j in d.committed.rows && j in d.txns[y].Locks()
        ensures j in d'.committed.rows && d'.committed.rows[j] == d.committed.rows[j]
      {
        assert j in Locked(d);
      }
      StaysCurrent(d.committed, d'.committed, d.txns[y]);
    }
  }

  lemma SelectedIsCurrent(d: Db, a: Action)
    requires LockInv(d) && CanDo(d, a) && (a.SelectDue? || a.SelectExpired?)
    ensures var d' := Do(d, a);
      && a.x !in d.txns && d'.committed == d.committed && a.x in d'.txns && d'.txns == d.txns[a.x := d'.txns[a.x]]
      && Current(d.committed, d'.txns[a.x]) && d'.txns[a.x].Locks() !! Locked(d)
      && d'.issued == (if a.SelectDue? then d.issued + {a.token} else d.issued)
      && d'.txns[a.x].Claiming? == a.SelectDue? && (a.SelectDue? ==> d'.txns[a.x].token == a.token && a.token !in d.issued)
  {
    hide Excluded;
  }

  lemma SelectKeepsLocks(d: Db, a: Action)
    requires LockInv(d) && CanDo(d, a) && (a.SelectDue? || a.SelectExpired?)
    ensures LockInv(Do(d, a))
  {
    hide Current, CanDo, Do;
    SelectedIsCurrent(d, a);
    var t := Do(d, a).txns[a.x];
    forall y | y in d.txns ensures Excluded(t, d.txns[y]) && Excluded(d.txns[y], t) {
      assert forall j :: j in d.txns[y].Locks() ==> j in Locked(d);
    }
  }

  lemma UpdatedIsCurrent(d: Db, a: Action)
    requires LockInv(d) && CanDo(d, a) && (a.UpdateClaimed? || a.UpdateRecovered?)
    ensures var d' := Do(d, a);
      && a.x in d.txns && a.x in d'.txns && d' == d.(txns := d.txns[a.x := d'.txns[a.x]])
      && Current(d.committed, d'.txns[a.x]) && d'.txns[a.x].Locks() == d.txns[a.x].Locks()
      && d'.txns[a.x].Claiming? == d.txns[a.x].Claiming?
      && (d.txns[a.x].Claiming? ==> d'.txns[a.x].token == d.txns[a.x].token)
  {
    hide Excluded;
    assert Current(d.committed, d.txns[a.x]);
  }

  lemma UpdateKeepsLocks(d: Db, a: Action)
    requires LockInv(d) && CanDo(d, a) && (a.UpdateClaimed? || a.UpdateRecovered?)
    ensures LockInv(Do(d, a))
  {
    hide Current, CanDo, Do;
    UpdatedIsCurrent(d, a);
    var t := Do(d, a).txns[a.x];
    forall y | y in d.txns && y != a.x ensures Excluded(t, d.txns[y]) && Excluded(d.txns[y], t) {
      assert Excluded(d.txns[a.x], d.txns[y]) && Excluded(d.txns[y], d.txns[a.x]);
    }
  }

  lemma ActionKeepsLocks(d: Db, a: Action)
    requires LockInv(d) && CanDo(d, a)
    ensures LockInv(Do(d, a))
  {
    match a
    case SelectDue(_, _, _, _, _, _) => SelectKeepsLocks(d, a);
    case SelectExpired(_, _, _, _, _) => SelectKeepsLocks(d, a);
    case UpdateClaimed(_) => UpdateKeepsLocks(d, a);
    case UpdateRecovered(_) => UpdateKeepsLocks(d, a);
    case CommitClaim(x) => CommitClaimKeepsLocks(d, x);
    case CommitRecovery(x) => CommitRecoveryKeepsLocks(d, x);
    case Statement(st) => StatementKeepsLocks(d, st);
    case Abort(_) => hide Current, Excluded;
  }

  // --------------------------------------------------------------------- runs

  predicate Possible(d: Db, run: seq<Action>)
    decreases |run|
  {
    run == [] || (CanDo(d, run[0]) && Possible(Do(d, run[0]), run[1..]))
  }

  function DoAll(d: Db, run: seq<Action>): Db
    requires Possible(d, run)
    decreases |run|
  {
    if run == [] then d else DoAll(Do(d, run[0]), run[1..])
  }

  function AtomicRun(d: Db, run: seq<Action>): seq<Step>
    requires Possible(d, run)
    decreases |run|
  {
    if run == [] then [] else Atomic(d, run[0]) + AtomicRun(Do(d, run[0]), run[1..])
  }

  /**
   * Refinement: every interleaving of open transactions and single statements
   * commits exactly what some run of the atomic protocol does.
   */
  lemma {:induction false} InterleavingRefines(d: Db, run: seq<Action>)
    requires LockInv(d) && Possible(d, run)
    ensures Legal(d.committed, AtomicRun(d, run))
    ensures DoAll(d, run).committed == Exec(d.committed, AtomicRun(d, run))
    ensures LockInv(DoAll(d, run))
    decreases |run|
  {
    hide Do, CanDo, Apply, Enabled, LockInv, Atomic;
    if run != [] {
      ActionRefines(d, run[0]);
      ActionKeepsLocks(d, run[0]);
      InterleavingRefines(Do(d, run[0]), run[1..]);
      ExecConcat(d.committed, Atomic(d, run[0]), AtomicRun(Do(d, run[0]), run[1..]));
    }
  }

  /** In every reachable state no row is selected by two open transactions, and what each read is still current. */
  lemma NoDoubleSelect(run: seq<Action>, x: TxnId, y: TxnId)
    requires Possible(EMPTY, run)
    requires x in DoAll(EMPTY, run).txns && y in DoAll(EMPTY, run).txns && x != y
    ensures DoAll(EMPTY, run).txns[x].Locks() !! DoAll(EMPTY, run).txns[y].Locks()
    ensures Current(DoAll(EMPTY, run).committed, DoAll(EMPTY, run).txns[x])
  {
    InterleavingRefines(EMPTY, run);
    assert Excluded(DoAll(EMPTY, run).txns[x], DoAll(EMPTY, run).txns[y]);
  }
}
