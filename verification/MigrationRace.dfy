/**
 * Any number of migration runners over one database, statement by statement: open
 * transactions, the unique ledger key that makes a second insert wait, crashes at
 * every point. A crashed runner that is started again is a new runner.
 */
module MigrationRace {
  import opened Common
  import opened MigrationRunner

  type RunnerId = nat

  /** An open transaction: how many statements it has executed, and whether its ledger row is inserted. */
  datatype Txn = Txn(m: Migration, done: nat, inserted: bool)

  datatype Phase = Reading | Running | Returned | Threw | Crashed

  datatype Runner = Runner(
    list: seq<Migration>,
    phase: Phase,
    ledgerIds: set<string>,
    next: nat,
    txn: Option<Txn>,
    applied: seq<string>,
    skipped: seq<string>)

  datatype Commit = Commit(runner: RunnerId, m: Migration)

  /** `commits` remembers who committed what; the database itself does not. */
  datatype System = System(db: Database, runners: map<RunnerId, Runner>, commits: seq<Commit>)

  datatype Step =
    | Start(list: seq<Migration>)      // a pass begins; the ledger table exists from here on
    | ReadLedger
    | Check                            // compare the recorded checksum, skip or throw
    | Begin
    | Statement(ok: bool)
    | Insert                           // the ledger row of the open transaction
    | CommitTxn
    | Return
    | Crash                            // at any point; an open transaction rolls back

  predicate AtMigration(w: Runner) {
    w.phase == Running && w.next < |w.list|
  }

  /** Another open transaction has inserted the same id: an insert must wait for it. */
  predicate Blocked(s: System, r: RunnerId, id: string) {
    exists q :: q in s.runners && q != r && Holds(s.runners[q], id)
  }

  predicate Holds(w: Runner, id: string) {
    w.txn.Some? && w.txn.value.inserted && w.txn.value.m.id == id
  }

  predicate Enabled(s: System, r: RunnerId, step: Step) {
    if step.Start? then r !in s.runners
    else
      r in s.runners &&
      var w := s.runners[r];
      match step
      case ReadLedger => w.phase == Reading
      case Check => AtMigration(w) && w.txn.None? && w.list[w.next].id in w.ledgerIds
      case Begin => AtMigration(w) && w.txn.None? && w.list[w.next].id !in w.ledgerIds
      case Statement(_) => w.txn.Some? && w.txn.value.done < |w.txn.value.m.statements|
      case Insert =>
        w.txn.Some? && w.txn.value.done == |w.txn.value.m.statements| && !w.txn.value.inserted &&
        !Blocked(s, r, w.txn.value.m.id)
      case CommitTxn => w.txn.Some? && w.txn.value.inserted
      case Return => w.phase == Running && w.next == |w.list|
      case Crash => true
      case Start(_) => true
  }

  /** The runner after its step; the database it sees is the one before. */
  function RunnerAfter(db: Database, w: Runner, step: Step): Runner {
    match step
    case Start(list) => Runner(list, Reading, {}, 0, None, [], [])
    case ReadLedger => w.(phase := Running, ledgerIds := db.ledger.Keys)
    case Check =>
      if w.next < |w.list| && Recorded(db, w.list[w.next])
      then w.(skipped := w.skipped + [w.list[w.next].id], next := w.next + 1)
      else w.(phase := Threw)
    case Begin => if w.next < |w.list| then w.(txn := Some(Txn(w.list[w.next], 0, false))) else w
    case Statement(ok) =>
      if w.txn.None? then w
      else if ok then w.(txn := Some(w.txn.value.(done := w.txn.value.done + 1)))
      else w.(phase := Threw, txn := None)
    case Insert =>
      if w.txn.None? then w
      else if w.txn.value.m.id in db.ledger then w.(phase := Threw, txn := None)
      else w.(txn := Some(w.txn.value.(inserted := true)))
    case CommitTxn =>
      if w.txn.None? then w
      else w.(txn := None, applied := w.applied + [w.txn.value.m.id], next := w.next + 1)
    case Return => w.(phase := Returned)
    case Crash => w.(phase := Crashed, txn := None)
  }

  /** The statements a transaction has executed are the first `done` of its migration. */
  function Written(t: Txn): seq<string>
    requires t.done <= |t.m.statements|
  {
    t.m.statements[..t.done]
  }

  function DatabaseAfter(db: Database, w: Runner, step: Step): Database {
    if step.CommitTxn? && w.txn.Some? && w.txn.value.done <= |w.txn.value.m.statements| then
      var t := w.txn.value;
      Database(db.ledger[t.m.id := Record(t.m.name, t.m.checksum)], db.effects + Written(t))
    else db
  }

  const NOBODY: Runner := Runner([], Crashed, {}, 0, None, [], [])

  function RunnerOf(s: System, r: RunnerId): Runner {
    if r in s.runners then s.runners[r] else NOBODY
  }

  function Apply(s: System, r: RunnerId, step: Step): System {
    var w := RunnerOf(s, r);
    System(DatabaseAfter(s.db, w, step), s.runners[r := RunnerAfter(s.db, w, step)],
           if step.CommitTxn? && w.txn.Some? then s.commits + [Commit(r, w.txn.value.m)] else s.commits)
  }

  predicate Legal(s: System, run: seq<(RunnerId, Step)>)
    decreases |run|
  {
    run == [] || (Enabled(s, run[0].0, run[0].1) && Legal(Apply(s, run[0].0, run[0].1), run[1..]))
  }

  function Exec(s: System, run: seq<(RunnerId, Step)>): System
    decreases |run|
  {
    if run == [] then s else Exec(Apply(s, run[0].0, run[0].1), run[1..])
  }

  const EMPTY: System := System(Database(map[], []), map[], [])

  // -------------------------------------------------------------------- invariant

  /** Every committed migration, whole and in commit order. */
  function StatementsOf(commits: seq<Commit>): seq<string>
    decreases |commits|
  {
    if commits == [] then [] else StatementsOf(commits[..|commits| - 1]) + commits[|commits| - 1].m.statements
  }

  function AppliedBy(commits: seq<Commit>, r: RunnerId): seq<string>
    decreases |commits|
  {
    if commits == [] then []
    else
      var before, last := AppliedBy(commits[..|commits| - 1], r), commits[|commits| - 1];
      if last.runner == r then before + [last.m.id] else before
  }

  predicate DistinctCommits(commits: seq<Commit>) {
    forall i, j :: 0 <= i < j < |commits| ==> commits[i].m.id != commits[j].m.id
  }

  predicate Wrote(db: Database, c: Commit) {
    c.m.id in db.ledger && db.ledger[c.m.id] == Record(c.m.name, c.m.checksum)
  }

  predicate Commits(commits: seq<Commit>, id: string) {
    exists i :: 0 <= i < |commits| && commits[i].m.id == id
  }

  /** The ledger records exactly the commits. */
  predicate LedgerExact(db: Database, commits: seq<Commit>) {
    DistinctCommits(commits) &&
    (forall i :: 0 <= i < |commits| ==> Wrote(db, commits[i])) &&
    (forall id :: id in db.ledger ==> Commits(commits, id)) &&
    db.effects == StatementsOf(commits)
  }

  predicate TxnFits(db: Database, w: Runner, t: Txn) {
    AtMigration(w) && t.m == w.list[w.next] && t.m.id !in w.ledgerIds && t.done <= |t.m.statements| &&
    (t.inserted ==> t.done == |t.m.statements| && t.m.id !in db.ledger)
  }

  /** A pass has split the part of its list behind it, and found or put every id of it in the ledger. */
  predicate Tidy(db: Database, w: Runner) {
    w.next <= |w.list| && w.ledgerIds <= db.ledger.Keys &&
    (w.phase == Reading ==> w.next == 0) &&
    (w.phase == Returned ==> w.next == |w.list|) &&
    w.applied == Ids(w.list[..w.next], w.ledgerIds, false) &&
    w.skipped == Ids(w.list[..w.next], w.ledgerIds, true) &&
    (forall i :: 0 <= i < w.next ==> Recorded(db, w.list[i])) &&
    (w.txn.Some? ==> TxnFits(db, w, w.txn.value))
  }

  ghost predicate OneHolder(s: System) {
    forall q, r, id :: q in s.runners && r in s.runners && Holds(s.runners[q], id) && Holds(s.runners[r], id) ==> q == r
  }

  ghost predicate Inv(s: System) {
    LedgerExact(s.db, s.commits) && OneHolder(s) &&
    (forall r :: r in s.runners ==> Tidy(s.db, s.runners[r])) &&
    (forall r :: r in s.runners ==> s.runners[r].applied == AppliedBy(s.commits, r)) &&
    (forall i :: 0 <= i < |s.commits| ==> s.commits[i].runner in s.runners)
  }

  /** A step leaves the database alone, or commits the runner's migration whole. */
  lemma StepIsAtomic(s: System, r: RunnerId, step: Step)
    requires Inv(s) && Enabled(s, r, step)
    ensures !step.CommitTxn? ==> Apply(s, r, step).db == s.db
    ensures step.CommitTxn? ==>
              AtMigration(RunnerOf(s, r)) && Pending(s.db, RunnerOf(s, r).list[RunnerOf(s, r).next]) &&
              Apply(s, r, step).db == Committed(s.db, RunnerOf(s, r).list[RunnerOf(s, r).next])
  {
    hide LedgerExact, OneHolder, AppliedBy, Ids, RunnerAfter;
    if step.CommitTxn? {
      var w := s.runners[r];
      assert Tidy(s.db, w);
      var t := w.txn.value;
      assert TxnFits(s.db, w, t);
      assert t.m.statements[..t.done] == t.m.statements;
    }
  }

  lemma LedgerGrows(db: Database, commits: seq<Commit>, c: Commit)
    requires LedgerExact(db, commits) && Pending(db, c.m)
    ensures LedgerExact(Committed(db, c.m), commits + [c])
  {
    var all := commits + [c];
    var later := Committed(db, c.m);
    assert all[..|commits|] == commits;
    forall i | 0 <= i < |all| ensures Wrote(later, all[i]) && (i < |commits| ==> all[i].m.id != c.m.id) {
      assert i < |commits| ==> Wrote(db, commits[i]);
    }
    forall id | id in later.ledger ensures Commits(all, id) {
      if id == c.m.id { assert all[|commits|].m.id == id; }
      else {
        assert Commits(commits, id);
        var i :| 0 <= i < |commits| && commits[i].m.id == id;
        assert all[i].m.id == id;
      }
    }
  }

  lemma LedgerStep(s: System, r: RunnerId, step: Step)
    requires Inv(s) && Enabled(s, r, step)
    ensures LedgerExact(Apply(s, r, step).db, Apply(s, r, step).commits)
    ensures Extends(s.db, Apply(s, r, step).db)
  {
    hide LedgerExact, OneHolder, AppliedBy, Ids, DatabaseAfter, Wrote;
    StepIsAtomic(s, r, step);
    if step.CommitTxn? {
      assert Tidy(s.db, s.runners[r]);
      LedgerGrows(s.db, s.commits, Commit(r, s.runners[r].txn.value.m));
    }
  }

  lemma HoldsAfter(s: System, r: RunnerId, step: Step, q: RunnerId, id: string)
    requires Inv(s) && Enabled(s, r, step)
    requires q in Apply(s, r, step).runners && Holds(Apply(s, r, step).runners[q], id)
    ensures (q in s.runners && Holds(s.runners[q], id)) || (q == r && step.Insert? && !Blocked(s, r, id))
  {
    hide LedgerExact, AppliedBy, Ids, DatabaseAfter, Tidy, Recorded, OneHolder, Blocked;
  }

  lemma HolderStep(s: System, r: RunnerId, step: Step)
    requires Inv(s) && Enabled(s, r, step)
    ensures OneHolder(Apply(s, r, step))
  {
    hide LedgerExact, AppliedBy, Ids, DatabaseAfter, Tidy, RunnerAfter, Enabled, Holds;
    var after := Apply(s, r, step);
    forall q, p, id | q in after.runners && p in after.runners && Holds(after.runners[q], id) && Holds(after.runners[p], id)
      ensures q == p
    {
      HoldsAfter(s, r, step, q, id);
      HoldsAfter(s, r, step, p, id);
    }
  }

  /** The runner that moves stays tidy. */
  lemma MoverStaysTidy(s: System, r: RunnerId, step: Step)
    requires Inv(s) && Enabled(s, r, step)
    ensures Tidy(Apply(s, r, step).db, Apply(s, r, step).runners[r])
  {
    hide LedgerExact, AppliedBy, Ids, DatabaseAfter, OneHolder;
    StepIsAtomic(s, r, step);
    if !step.Start? {
      var w := s.runners[r];
      assert Tidy(s.db, w);
      if w.next < |w.list| {
        IdsGrow(w.list, w.next, w.ledgerIds, false);
        IdsGrow(w.list, w.next, w.ledgerIds, true);
      }
      NoIds(s.db.ledger.Keys);
      NoIds(w.ledgerIds);
      assert w.list[..0] == [];
    } else {
      NoIds({});
    }
  }

  lemma NoIds(known: set<string>)
    ensures Ids([], known, true) == Ids([], known, false) == []
  {
  }

  /** The others stay tidy: the ledger keeps what they found there, and their inserted rows are not taken. */
  lemma OthersStayTidy(s: System, r: RunnerId, step: Step, q: RunnerId)
    requires Inv(s) && Enabled(s, r, step) && q in s.runners && q != r
    ensures Tidy(Apply(s, r, step).db, s.runners[q])
  {
    hide LedgerExact, AppliedBy, Ids, DatabaseAfter;
    StepIsAtomic(s, r, step);
    var w := s.runners[q];
    assert Tidy(s.db, w);
    if step.CommitTxn? {
      assert Tidy(s.db, s.runners[r]);
      var t := s.runners[r].txn.value;
      assert Holds(s.runners[r], t.m.id) && !Holds(w, t.m.id);
    }
  }

  lemma AppliedStep(s: System, r: RunnerId, step: Step, q: RunnerId)
    requires Inv(s) && Enabled(s, r, step) && (q in s.runners || q == r)
    ensures Apply(s, r, step).runners[q].applied == AppliedBy(Apply(s, r, step).commits, q)
  {
    hide LedgerExact, Ids, DatabaseAfter, OneHolder, Tidy;
    if step.CommitTxn? {
      var all := Apply(s, r, step).commits;
      assert all[..|s.commits|] == s.commits;
    }
    if step.Start? && q == r { NobodyApplied(s.commits, r); }
  }

  lemma {:induction false} NobodyApplied(commits: seq<Commit>, r: RunnerId)
    requires forall i :: 0 <= i < |commits| ==> commits[i].runner != r
    ensures AppliedBy(commits, r) == []
    decreases |commits|
  {
    if commits != [] { NobodyApplied(commits[..|commits| - 1], r); }
  }

  lemma StepKeepsInv(s: System, r: RunnerId, step: Step)
    requires Inv(s) && Enabled(s, r, step)
    ensures Inv(Apply(s, r, step))
  {
    hide LedgerExact, AppliedBy, Ids, DatabaseAfter, OneHolder, Tidy, RunnerAfter, Enabled;
    var after := Apply(s, r, step);
    LedgerStep(s, r, step);
    HolderStep(s, r, step);
    MoverStaysTidy(s, r, step);
    forall q | q in after.runners
      ensures Tidy(after.db, after.runners[q]) && after.runners[q].applied == AppliedBy(after.commits, q)
    {
      AppliedStep(s, r, step, q);
      if q != r { OthersStayTidy(s, r, step, q); }
    }
  }

  lemma {:induction false} RunKeepsInv(s: System, run: seq<(RunnerId, Step)>)
    requires Inv(s) && Legal(s, run)
    ensures Inv(Exec(s, run)) && Extends(s.db, Exec(s, run).db)
    decreases |run|
  {
    hide Inv, Enabled, Apply;
    if run != [] {
      StepKeepsInv(s, run[0].0, run[0].1);
      Growth(s, run[0].0, run[0].1);
      RunKeepsInv(Apply(s, run[0].0, run[0].1), run[1..]);
    }
  }

  lemma Growth(s: System, r: RunnerId, step: Step)
    requires Inv(s) && Enabled(s, r, step)
    ensures Extends(s.db, Apply(s, r, step).db)
  {
    hide *;
    LedgerStep(s, r, step);
  }

  lemma ReachableInv(run: seq<(RunnerId, Step)>)
    requires Legal(EMPTY, run)
    ensures Inv(Exec(EMPTY, run))
  {
    hide Legal, Exec;
    assert Inv(EMPTY);
    RunKeepsInv(EMPTY, run);
  }

  // ------------------------------------------------------------------ what runs keep

  /**
   * Over every run of any number of runners, with crashes and restarts at any point: no id is
   * committed twice, the ledger records exactly the committed migrations, and the statements in
   * effect are exactly those of the committed migrations, each whole.
   */
  lemma EachMigrationCommitsOnce(run: seq<(RunnerId, Step)>)
    requires Legal(EMPTY, run)
    ensures var s := Exec(EMPTY, run);
            DistinctCommits(s.commits) && s.db.effects == StatementsOf(s.commits) &&
            (forall i :: 0 <= i < |s.commits| ==> Wrote(s.db, s.commits[i])) &&
            (forall id :: id in s.db.ledger <==> Commits(s.commits, id))
  {
    hide Legal, Exec;
    ReachableInv(run);
    var s := Exec(EMPTY, run);
    assert LedgerExact(s.db, s.commits);
    forall id | Commits(s.commits, id) ensures id in s.db.ledger {
      var i :| 0 <= i < |s.commits| && s.commits[i].m.id == id;
      assert Wrote(s.db, s.commits[i]);
    }
  }

  /**
   * A pass that returned, and whatever happens after it: every migration of its list is in the ledger
   * with its checksum, and the ids it applied and the ids it skipped are its list split in order.
   */
  lemma ReturnMeansRecorded(run: seq<(RunnerId, Step)>, r: RunnerId)
    requires Legal(EMPTY, run) && r in Exec(EMPTY, run).runners && Exec(EMPTY, run).runners[r].phase == Returned
    ensures var s := Exec(EMPTY, run);
            var w := s.runners[r];
            (forall m :: m in w.list ==> Recorded(s.db, m)) &&
            w.applied == Ids(w.list, w.ledgerIds, false) && w.skipped == Ids(w.list, w.ledgerIds, true) &&
            w.applied == AppliedBy(s.commits, r)
  {
    hide Legal, Exec, LedgerExact, Ids, AppliedBy;
    ReachableInv(run);
    var w := Exec(EMPTY, run).runners[r];
    assert Tidy(Exec(EMPTY, run).db, w);
    assert w.list[..|w.list|] == w.list;
  }

  lemma {:induction false} AppliedIsCommitted(commits: seq<Commit>, r: RunnerId, id: string)
    requires id in AppliedBy(commits, r)
    ensures exists i :: 0 <= i < |commits| && commits[i].runner == r && commits[i].m.id == id
    decreases |commits|
  {
    var last := commits[|commits| - 1];
    if !(last.runner == r && last.m.id == id) { AppliedIsCommitted(commits[..|commits| - 1], r, id); }
  }

  /** Two runners that race never both report the same migration as applied. */
  lemma RacersApplyApart(run: seq<(RunnerId, Step)>, q: RunnerId, r: RunnerId, id: string)
    requires Legal(EMPTY, run) && q in Exec(EMPTY, run).runners && r in Exec(EMPTY, run).runners
    requires id in Exec(EMPTY, run).runners[q].applied && id in Exec(EMPTY, run).runners[r].applied
    ensures q == r
  {
    hide Legal, Exec, Tidy, AppliedBy;
    ReachableInv(run);
    var s := Exec(EMPTY, run);
    assert LedgerExact(s.db, s.commits);
    AppliedIsCommitted(s.commits, q, id);
    AppliedIsCommitted(s.commits, r, id);
  }

  /** A runner throws exactly on a checksum that drifted, a statement that fails, or a ledger row that is there already. */
  lemma ThrowsExactly(s: System, r: RunnerId, step: Step)
    requires Inv(s) && Enabled(s, r, step) && RunnerOf(s, r).phase != Threw
    ensures var w := RunnerOf(s, r);
            var w' := Apply(s, r, step).runners[r];
            w'.phase == Threw <==>
              || (step == Check && Drifted(s.db, w.list[w.next]))
              || step == Statement(false)
              || (step == Insert && w.txn.value.m.id in s.db.ledger)
  {
    hide LedgerExact, OneHolder, AppliedBy, Ids, DatabaseAfter, Wrote;
    if step == Check { KnownStays(s, r); }
  }

  lemma KnownStays(s: System, r: RunnerId)
    requires Inv(s) && r in s.runners && AtMigration(s.runners[r]) && s.runners[r].list[s.runners[r].next].id in s.runners[r].ledgerIds
    ensures s.runners[r].list[s.runners[r].next].id in s.db.ledger
  {
    hide LedgerExact, OneHolder, AppliedBy, Ids;
    assert Tidy(s.db, s.runners[r]);
  }
}
