/**
 * One pass of the migration runner: `MigrationDatabase.RunMigrations` is the pass as
 * it executes, `PassUpTo` the same pass as a function of what the other runners commit
 * and which statements fail.
 */
module MigrationRunner {
  import opened Common

  datatype Migration = Migration(id: string, name: string, statements: seq<string>, checksum: string)

  datatype Record = Record(name: string, checksum: string)

  /** The ledger table, and the committed statements in the order of their commits. */
  datatype Database = Database(ledger: map<string, Record>, effects: seq<string>)

  /** The transaction of a migration: its statements with its ledger row, or, when the id is taken, nothing. */
  function Committed(db: Database, m: Migration): Database {
    if m.id in db.ledger then db
    else Database(db.ledger[m.id := Record(m.name, m.checksum)], db.effects + m.statements)
  }

  function CommittedAll(db: Database, ms: seq<Migration>): Database
    decreases |ms|
  {
    if ms == [] then db else Committed(CommittedAll(db, ms[..|ms| - 1]), ms[|ms| - 1])
  }

  predicate Recorded(db: Database, m: Migration) {
    m.id in db.ledger && db.ledger[m.id].checksum == m.checksum
  }

  /** No entry of the ledger is ever changed or removed. */
  predicate Extends(db: Database, later: Database) {
    forall id :: id in db.ledger ==> id in later.ledger && later.ledger[id] == db.ledger[id]
  }

  // ------------------------------------------------------------------ the pass

  datatype Fault = Drift(id: string) | DuplicateRow(id: string) | StatementFailed(id: string)

  /** How a pass stands: the rest of it is not executed once it has thrown. */
  datatype Pass = Pass(db: Database, applied: seq<string>, skipped: seq<string>, fault: Option<Fault>)

  /** What happens around a pass: the commits of other runners before its k-th migration, and its failing statement. */
  datatype World = World(others: nat -> seq<Migration>, failing: nat -> Option<nat>)

  const QUIET: World := World(k => [], k => None)

  predicate StatementFails(m: Migration, failing: Option<nat>) {
    failing.Some? && failing.value < |m.statements|
  }

  /** One migration of a pass that began with the ids `known` in the ledger. */
  function Iterate(s: Pass, m: Migration, known: set<string>, others: seq<Migration>, failing: Option<nat>): Pass {
    var now := CommittedAll(s.db, others);
    if m.id in known then
      if Recorded(now, m) then Pass(now, s.applied, s.skipped + [m.id], None)
      else s.(db := now, fault := Some(Drift(m.id)))
    else if StatementFails(m, failing) then s.(db := now, fault := Some(StatementFailed(m.id)))
    else if m.id in now.ledger then s.(db := now, fault := Some(DuplicateRow(m.id)))
    else Pass(Committed(now, m), s.applied + [m.id], s.skipped, None)
  }

  /** The pass over the first k migrations. */
  function PassUpTo(ms: seq<Migration>, k: nat, db: Database, world: World): Pass
    requires k <= |ms|
  {
    if k == 0 then Pass(db, [], [], None)
    else
      var s := PassUpTo(ms, k - 1, db, world);
      if s.fault.Some? then s
      else Iterate(s, ms[k - 1], db.ledger.Keys, world.others(k - 1), world.failing(k - 1))
  }

  function FullPass(ms: seq<Migration>, db: Database, world: World): Pass {
    PassUpTo(ms, |ms|, db, world)
  }

  // -------------------------------------------------------- the pass, as written

  class MigrationDatabase {
    var db: Database

    constructor (db: Database)
      ensures this.db == db
    {
      this.db := db;
    }

    /** Other runners commit. */
    method Interference(ms: seq<Migration>)
      modifies this
      ensures db == CommittedAll(old(db), ms)
    {
      var k := 0;
      while k < |ms|
        invariant k <= |ms| && db == CommittedAll(old(db), ms[..k])
      {
        assert ms[..k + 1][..k] == ms[..k];
        db := Committed(db, ms[k]);
        k := k + 1;
      }
      assert ms[..k] == ms;
    }

    /** One transaction. Its statements become visible with its ledger row, or not at all. */
    method Apply(m: Migration, failing: Option<nat>) returns (fault: Option<Fault>)
      modifies this
      ensures fault == if StatementFails(m, failing) then Some(StatementFailed(m.id))
                       else if m.id in old(db).ledger then Some(DuplicateRow(m.id))
                       else None
      ensures db == if fault == None then Committed(old(db), m) else old(db)
    {
      var written := db.effects;
      var k := 0;
      while k < |m.statements|
        invariant k <= |m.statements| && db == old(db) && written == db.effects + m.statements[..k]
        invariant failing.Some? ==> k <= failing.value || |m.statements| <= failing.value
      {
        if failing == Some(k) { return Some(StatementFailed(m.id)); }
        written := written + [m.statements[k]];
        k := k + 1;
      }
      if m.id in db.ledger { return Some(DuplicateRow(m.id)); }
      db := Database(db.ledger[m.id := Record(m.name, m.checksum)], written);
      fault := None;
    }

    method RunMigrations(ms: seq<Migration>, world: World)
      returns (applied: seq<string>, skipped: seq<string>, fault: Option<Fault>)
      modifies this
      ensures Pass(db, applied, skipped, fault) == FullPass(ms, old(db), world)
    {
      var ledgerIds := db.ledger.Keys;
      applied, skipped, fault := [], [], None;
      var k := 0;
      while k < |ms|
        invariant k <= |ms| && fault == None
        invariant Pass(db, applied, skipped, fault) == PassUpTo(ms, k, old(db), world)
      {
        var m := ms[k];
        Interference(world.others(k));
        if m.id in ledgerIds {
          if m.id !in db.ledger || db.ledger[m.id].checksum != m.checksum {
            fault := Some(Drift(m.id));
          } else {
            skipped := skipped + [m.id];
          }
        } else {
          fault := Apply(m, world.failing(k));
          if fault == None { applied := applied + [m.id]; }
        }
        k := k + 1;
        if fault != None {
          ThrownPass(ms, k, |ms|, old(db), world);
          return;
        }
      }
    }
  }

  lemma {:induction false} ThrownPass(ms: seq<Migration>, k: nat, n: nat, db: Database, world: World)
    requires k <= n <= |ms| && PassUpTo(ms, k, db, world).fault.Some?
    ensures PassUpTo(ms, n, db, world) == PassUpTo(ms, k, db, world)
    decreases n
  {
    if k < n { ThrownPass(ms, k, n - 1, db, world); }
  }

  // ---------------------------------------------------------- what a pass promises

  lemma {:induction false} CommittedAllExtends(db: Database, ms: seq<Migration>)
    ensures Extends(db, CommittedAll(db, ms))
    decreases |ms|
  {
    if ms != [] { CommittedAllExtends(db, ms[..|ms| - 1]); }
  }

  /** The ids of those migrations that are known, or are not, in list order. */
  function Ids(ms: seq<Migration>, known: set<string>, which: bool): seq<string>
    decreases |ms|
  {
    if ms == [] then []
    else
      var before, last := Ids(ms[..|ms| - 1], known, which), ms[|ms| - 1].id;
      if (last in known) == which then before + [last] else before
  }

  lemma IdsGrow(ms: seq<Migration>, k: nat, known: set<string>, which: bool)
    requires k < |ms|
    ensures Ids(ms[..k + 1], known, which)
         == if (ms[k].id in known) == which then Ids(ms[..k], known, which) + [ms[k].id] else Ids(ms[..k], known, which)
  {
    assert ms[..k + 1][..k] == ms[..k];
  }

  predicate AllRecorded(db: Database, ms: seq<Migration>, k: nat)
    requires k <= |ms|
  {
    forall i :: 0 <= i < k ==> Recorded(db, ms[i])
  }

  /** The list up to k, split in order into the ids skipped and the ids applied. */
  predicate Split(s: Pass, ms: seq<Migration>, k: nat, known: set<string>)
    requires k <= |ms|
  {
    s.applied == Ids(ms[..k], known, false) && s.skipped == Ids(ms[..k], known, true)
  }

  lemma IterateExtends(s: Pass, m: Migration, known: set<string>, others: seq<Migration>, failing: Option<nat>)
    ensures Extends(s.db, Iterate(s, m, known, others, failing).db)
    ensures Iterate(s, m, known, others, failing).fault.None? ==> Recorded(Iterate(s, m, known, others, failing).db, m)
  {
    hide CommittedAll, StatementFails;
    CommittedAllExtends(s.db, others);
  }

  lemma StillRecorded(db: Database, later: Database, ms: seq<Migration>, k: nat)
    requires k <= |ms| && Extends(db, later) && AllRecorded(db, ms, k)
    ensures AllRecorded(later, ms, k)
  {
  }

  lemma ExtendsTransitive(a: Database, b: Database, c: Database)
    requires Extends(a, b) && Extends(b, c)
    ensures Extends(a, c)
  {
  }

  /**
   * Whatever other runners commit and whatever fails: up to the point it has reached, a pass has
   * split the list in order into the ids it skipped and the ids it applied, and each of
   * them stands in the ledger with its own checksum.
   */
  lemma {:induction false} PassSoFar(ms: seq<Migration>, k: nat, db: Database, world: World)
    requires k <= |ms|
    ensures Extends(db, PassUpTo(ms, k, db, world).db)
    ensures PassUpTo(ms, k, db, world).fault.None? ==>
              Split(PassUpTo(ms, k, db, world), ms, k, db.ledger.Keys) && AllRecorded(PassUpTo(ms, k, db, world).db, ms, k)
    decreases k
  {
    hide Extends, AllRecorded, Recorded, Split, Iterate;
    if k == 0 {
      StartOfPass(ms, db);
    } else {
      PassSoFar(ms, k - 1, db, world);
      var before := PassUpTo(ms, k - 1, db, world);
      if before.fault.None? {
        var m, others, failing := ms[k - 1], world.others(k - 1), world.failing(k - 1);
        var after := Iterate(before, m, db.ledger.Keys, others, failing);
        IterateExtends(before, m, db.ledger.Keys, others, failing);
        ExtendsTransitive(db, before.db, after.db);
        if after.fault.None? {
          SplitStep(before, ms, k - 1, db.ledger.Keys, others, failing);
          StillRecorded(before.db, after.db, ms, k - 1);
          OneMoreRecorded(after.db, ms, k);
        }
      }
    }
  }

  lemma StartOfPass(ms: seq<Migration>, db: Database)
    ensures Extends(db, db) && AllRecorded(db, ms, 0) && Split(Pass(db, [], [], None), ms, 0, db.ledger.Keys)
  {
  }

  lemma OneMoreRecorded(db: Database, ms: seq<Migration>, k: nat)
    requires 0 < k <= |ms| && AllRecorded(db, ms, k - 1) && Recorded(db, ms[k - 1])
    ensures AllRecorded(db, ms, k)
  {
  }

  lemma SplitStep(s: Pass, ms: seq<Migration>, k: nat, known: set<string>, others: seq<Migration>, failing: Option<nat>)
    requires k < |ms| && Split(s, ms, k, known) && Iterate(s, ms[k], known, others, failing).fault.None?
    ensures Split(Iterate(s, ms[k], known, others, failing), ms, k + 1, known)
  {
    hide CommittedAll, StatementFails, Ids, Recorded, Committed;
    IdsGrow(ms, k, known, false);
    IdsGrow(ms, k, known, true);
  }

  /** A normal return: every listed migration is in the ledger with its checksum. */
  lemma ReturnedPass(ms: seq<Migration>, db: Database, world: World)
    requires FullPass(ms, db, world).fault.None?
    ensures forall m :: m in ms ==> Recorded(FullPass(ms, db, world).db, m)
    ensures FullPass(ms, db, world).applied == Ids(ms, db.ledger.Keys, false)
    ensures FullPass(ms, db, world).skipped == Ids(ms, db.ledger.Keys, true)
  {
    hide PassUpTo, Recorded, Ids, Extends;
    PassSoFar(ms, |ms|, db, world);
    assert ms[..|ms|] == ms;
  }

  predicate Drifted(db: Database, m: Migration) {
    m.id in db.ledger && db.ledger[m.id].checksum != m.checksum
  }

  predicate Pending(db: Database, m: Migration) {
    m.id !in db.ledger
  }

  predicate DistinctPending(ms: seq<Migration>, k: nat, db: Database)
    requires k <= |ms|
  {
    forall i, j :: 0 <= i < j < k && Pending(db, ms[i]) ==> ms[i].id != ms[j].id
  }

  predicate NoDrift(ms: seq<Migration>, k: nat, db: Database)
    requires k <= |ms|
  {
    forall i :: 0 <= i < k ==> !Drifted(db, ms[i])
  }

  function PendingOf(ms: seq<Migration>, db: Database): seq<Migration>
    decreases |ms|
  {
    if ms == [] then []
    else
      var before := PendingOf(ms[..|ms| - 1], db);
      if Pending(db, ms[|ms| - 1]) then before + [ms[|ms| - 1]] else before
  }

  function ListedIds(ms: seq<Migration>, k: nat): set<string>
    requires k <= |ms|
  {
    set i | 0 <= i < k :: ms[i].id
  }

  /** The k-th migration of an undisturbed pass that has not thrown before it. */
  lemma AloneStep(s: Pass, m: Migration, db: Database)
    requires Extends(db, s.db) && s.fault.None?
    ensures Iterate(s, m, db.ledger.Keys, [], None)
         == if m.id in db.ledger then
              if Drifted(db, m) then s.(fault := Some(Drift(m.id))) else s.(skipped := s.skipped + [m.id])
            else if m.id in s.db.ledger then s.(fault := Some(DuplicateRow(m.id)))
            else Pass(Committed(s.db, m), s.applied + [m.id], s.skipped, None)
  {
  }

  lemma PassStart(ms: seq<Migration>, db: Database)
    ensures PassUpTo(ms, 0, db, QUIET) == Pass(db, [], [], None)
  {
  }

  lemma PassStep(ms: seq<Migration>, n: nat, db: Database)
    requires 0 < n <= |ms| && PassUpTo(ms, n - 1, db, QUIET).fault.None?
    ensures PassUpTo(ms, n, db, QUIET) == Iterate(PassUpTo(ms, n - 1, db, QUIET), ms[n - 1], db.ledger.Keys, [], None)
  {
  }

  /** An undisturbed pass commits the pending migrations in list order, whether or not it throws later. */
  lemma {:induction false} AloneCommits(ms: seq<Migration>, k: nat, db: Database)
    requires k <= |ms| && PassUpTo(ms, k, db, QUIET).fault.None?
    ensures PassUpTo(ms, k, db, QUIET).db == CommittedAll(db, PendingOf(ms[..k], db))
    ensures PassUpTo(ms, k, db, QUIET).db.ledger.Keys == db.ledger.Keys + ListedIds(ms, k)
    decreases k
  {
    hide Iterate, Extends, Committed, Recorded, Ids, Drifted, PassUpTo, CommittedAll;
    if k == 0 {
      PassStart(ms, db);
      NothingCommitted(db);
    } else {
      Unthrown(ms, k, k - 1, db);
      AloneCommits(ms, k - 1, db);
      PassSoFar(ms, k - 1, db, QUIET);
      assert ms[..k][..k - 1] == ms[..k - 1];
      var m := ms[k - 1];
      PassStep(ms, k, db);
      AloneStep(PassUpTo(ms, k - 1, db, QUIET), m, db);
      AppendCommit(db, PendingOf(ms[..k - 1], db), m);
      AddKey(PassUpTo(ms, k - 1, db, QUIET).db, m);
      assert ListedIds(ms, k) == ListedIds(ms, k - 1) + {m.id};
    }
  }

  lemma Unthrown(ms: seq<Migration>, n: nat, k: nat, db: Database)
    requires k <= n <= |ms| && PassUpTo(ms, n, db, QUIET).fault.None?
    ensures PassUpTo(ms, k, db, QUIET).fault.None?
  {
    hide Iterate, PassUpTo;
    if PassUpTo(ms, k, db, QUIET).fault.Some? { ThrownPass(ms, k, n, db, QUIET); }
  }

  lemma NothingCommitted(db: Database)
    ensures CommittedAll(db, []) == db
  {
  }

  lemma AppendCommit(db: Database, ms: seq<Migration>, m: Migration)
    ensures CommittedAll(db, ms + [m]) == Committed(CommittedAll(db, ms), m)
  {
    assert (ms + [m])[..|ms|] == ms;
  }

  lemma AddKey(db: Database, m: Migration)
    ensures Committed(db, m).ledger.Keys == db.ledger.Keys + {m.id}
  {
  }

  /** An undisturbed pass returns exactly when no listed migration has drifted and no pending id is listed twice. */
  lemma {:induction false} AloneReturnsExactly(ms: seq<Migration>, k: nat, db: Database)
    requires k <= |ms|
    ensures PassUpTo(ms, k, db, QUIET).fault.None? <==> NoDrift(ms, k, db) && DistinctPending(ms, k, db)
    decreases k
  {
    hide Iterate, Extends, Committed, PassUpTo, Recorded, Ids, PendingOf, CommittedAll;
    if k == 0 {
      PassStart(ms, db);
    } else {
      AloneReturnsExactly(ms, k - 1, db);
      if PassUpTo(ms, k - 1, db, QUIET).fault.None? {
        PassStep(ms, k, db);
        PassSoFar(ms, k - 1, db, QUIET);
        AloneCommits(ms, k - 1, db);
        AloneStep(PassUpTo(ms, k - 1, db, QUIET), ms[k - 1], db);
        LastPending(ms, k, db);
      } else {
        ThrownPass(ms, k - 1, k, db, QUIET);
      }
    }
  }

  /** Of a list whose pending ids differ, the next one differs too exactly when it is recorded or new. */
  lemma LastPending(ms: seq<Migration>, k: nat, db: Database)
    requires 0 < k <= |ms| && DistinctPending(ms, k - 1, db)
    ensures DistinctPending(ms, k, db) <==> !Pending(db, ms[k - 1]) || ms[k - 1].id !in ListedIds(ms, k - 1)
  {
    if ms[k - 1].id in ListedIds(ms, k - 1) {
      var i :| 0 <= i < k - 1 && ms[i].id == ms[k - 1].id;
    }
  }

  lemma {:induction false} PassGrows(ms: seq<Migration>, k: nat, n: nat, db: Database)
    requires k <= n <= |ms|
    ensures Extends(PassUpTo(ms, k, db, QUIET).db, PassUpTo(ms, n, db, QUIET).db)
    decreases n
  {
    if k < n { PassGrows(ms, k, n - 1, db); }
  }

  /**
   * A pass cut short after k migrations, by a crash or a failing statement, and then repeated:
   * the repeat returns, with the database that one undisturbed pass would have left.
   */
  lemma {:induction false} CrashThenRerun(ms: seq<Migration>, k: nat, n: nat, db: Database)
    requires k <= |ms| && n <= |ms| && FullPass(ms, db, QUIET).fault.None?
    ensures var cut := PassUpTo(ms, k, db, QUIET);
            var again := PassUpTo(ms, n, cut.db, QUIET);
            again.fault.None? && again.db == PassUpTo(ms, if k < n then n else k, db, QUIET).db
    decreases n
  {
    hide Iterate, Extends, Committed, PassUpTo;
    var cut := PassUpTo(ms, k, db, QUIET).db;
    if n == 0 {
      PassStart(ms, cut);
    } else {
      CrashThenRerun(ms, k, n - 1, db);
      var m := ms[n - 1];
      var again := PassUpTo(ms, n - 1, cut, QUIET);
      PassSoFar(ms, n - 1, cut, QUIET);
      PassStep(ms, n, cut);
      AloneStep(again, m, cut);
      CutLedger(ms, k, n, db);
      if k < n {
        Unthrown(ms, |ms|, n, db);
        Unthrown(ms, |ms|, n - 1, db);
        PassStep(ms, n, db);
        PassSoFar(ms, n - 1, db, QUIET);
        AloneStep(PassUpTo(ms, n - 1, db, QUIET), m, db);
      }
    }
  }

  /** What the ledger left by a cut pass says about the n-th migration. */
  lemma CutLedger(ms: seq<Migration>, k: nat, n: nat, db: Database)
    requires k <= |ms| && 0 < n <= |ms| && FullPass(ms, db, QUIET).fault.None?
    ensures var cut := PassUpTo(ms, k, db, QUIET).db;
            !Drifted(cut, ms[n - 1]) &&
            (n <= k ==> ms[n - 1].id in cut.ledger) &&
            (k < n ==> (ms[n - 1].id in cut.ledger <==> ms[n - 1].id in db.ledger))
  {
    hide Iterate, Committed, PassUpTo;
    Unthrown(ms, |ms|, k, db);
    AloneReturnsExactly(ms, |ms|, db);
    AloneCommits(ms, k, db);
    PassSoFar(ms, |ms|, db, QUIET);
    PassSoFar(ms, k, db, QUIET);
    PassGrows(ms, k, |ms|, db);
    assert Recorded(FullPass(ms, db, QUIET).db, ms[n - 1]);
    if n <= k { assert ms[n - 1].id in ListedIds(ms, k); }
  }

  lemma {:induction false} AllKnown(ms: seq<Migration>, known: set<string>)
    requires forall m :: m in ms ==> m.id in known
    ensures Ids(ms, known, false) == []
    decreases |ms|
  {
    if ms != [] { AllKnown(ms[..|ms| - 1], known); }
  }

  /** After a pass that returned, a repeat applies nothing, skips the whole list and changes nothing. */
  lemma RerunAppliesNothing(ms: seq<Migration>, db: Database)
    requires FullPass(ms, db, QUIET).fault.None?
    ensures var done := FullPass(ms, db, QUIET).db;
            FullPass(ms, done, QUIET).fault.None? && FullPass(ms, done, QUIET).db == done &&
            FullPass(ms, done, QUIET).applied == []
  {
    hide Iterate, PassUpTo, Committed;
    CrashThenRerun(ms, |ms|, |ms|, db);
    var done := FullPass(ms, db, QUIET).db;
    ReturnedPass(ms, db, QUIET);
    ReturnedPass(ms, done, QUIET);
    AllKnown(ms, done.ledger.Keys);
  }

  // -------------------------------------------------------- what a throw leaves behind

  lemma {:induction false} PendingOfNothing(ms: seq<Migration>, db: Database)
    requires forall i :: 0 <= i < |ms| ==> !Pending(db, ms[i])
    ensures PendingOf(ms, db) == []
    decreases |ms|
  {
    if ms != [] { PendingOfNothing(ms[..|ms| - 1], db); }
  }

  /**
   * A pass that meets a drifted migration throws there, having committed every pending migration
   * listed before it: the database is as it was exactly when there was none.
   */
  lemma DriftLeavesDatabaseExactly(ms: seq<Migration>, k: nat, db: Database)
    requires k < |ms| && Drifted(db, ms[k]) && NoDrift(ms, k, db) && DistinctPending(ms, k, db)
    ensures FullPass(ms, db, QUIET).fault == Some(Drift(ms[k].id))
    ensures FullPass(ms, db, QUIET).db == CommittedAll(db, PendingOf(ms[..k], db))
    ensures FullPass(ms, db, QUIET).db == db <==> forall i :: 0 <= i < k ==> !Pending(db, ms[i])
  {
    hide Iterate, PassUpTo, Committed, Extends;
    AloneReturnsExactly(ms, k, db);
    PassSoFar(ms, k, db, QUIET);
    AloneCommits(ms, k, db);
    PassStep(ms, k + 1, db);
    AloneStep(PassUpTo(ms, k, db, QUIET), ms[k], db);
    ThrownPass(ms, k + 1, |ms|, db, QUIET);
    if forall i :: 0 <= i < k ==> !Pending(db, ms[i]) {
      PendingOfNothing(ms[..k], db);
    } else {
      var i :| 0 <= i < k && Pending(db, ms[i]);
      assert ms[i].id in ListedIds(ms, k);
    }
  }

  /** A list whose second file was edited after it was applied: the first, new one is applied all the same. */
  lemma DriftAfterAnApply()
    ensures var db := Database(map["0002" := Record("b", "old")], ["B"]);
            var ms := [Migration("0001", "a", ["A"], "x"), Migration("0002", "b", ["B"], "new")];
            FullPass(ms, db, QUIET).fault == Some(Drift("0002")) && "0001" in FullPass(ms, db, QUIET).db.ledger
  {
    hide Iterate, PassUpTo, Committed, Extends;
    var db := Database(map["0002" := Record("b", "old")], ["B"]);
    var ms := [Migration("0001", "a", ["A"], "x"), Migration("0002", "b", ["B"], "new")];
    DriftLeavesDatabaseExactly(ms, 1, db);
    AloneReturnsExactly(ms, 1, db);
    AloneCommits(ms, 1, db);
    PassStep(ms, 2, db);
    PassSoFar(ms, 1, db, QUIET);
    AloneStep(PassUpTo(ms, 1, db, QUIET), ms[1], db);
    assert ms[0].id in ListedIds(ms, 1);
  }

  /** A pass that nobody disturbs before its k-th migration; then others commit, and a statement may fail. */
  function DisturbedAt(k: nat, others: seq<Migration>, failing: Option<nat>): World {
    World(i => if i == k then others else [], i => if i == k then failing else None)
  }

  lemma {:induction false} UndisturbedBefore(ms: seq<Migration>, k: nat, n: nat, db: Database, others: seq<Migration>,
                                             failing: Option<nat>)
    requires n <= k && n <= |ms|
    ensures PassUpTo(ms, n, db, DisturbedAt(k, others, failing)) == PassUpTo(ms, n, db, QUIET)
    decreases n
  {
    hide Iterate;
    if n > 0 { UndisturbedBefore(ms, k, n - 1, db, others, failing); }
  }

  /** Why the k-th migration of such a pass throws, if it does. */
  function FaultOf(before: Database, m: Migration, db: Database, others: seq<Migration>, failing: Option<nat>): Option<Fault> {
    if Drifted(db, m) then Some(Drift(m.id))
    else if !Pending(db, m) then None
    else if StatementFails(m, failing) then Some(StatementFailed(m.id))
    else if m.id in CommittedAll(before, others).ledger then Some(DuplicateRow(m.id))
    else None
  }

  lemma FaultIs(s: Pass, m: Migration, db: Database, others: seq<Migration>, failing: Option<nat>)
    requires Extends(db, s.db) && s.fault.None? && FaultOf(s.db, m, db, others, failing).Some?
    ensures Iterate(s, m, db.ledger.Keys, others, failing)
         == s.(db := CommittedAll(s.db, others), fault := FaultOf(s.db, m, db, others, failing))
  {
    hide CommittedAll, StatementFails;
    CommittedAllExtends(s.db, others);
  }

  /**
   * Whatever a pass throws on - a drifted checksum, a failing statement, or a ledger row that is
   * there already - it has committed every pending migration listed before: apart from what others
   * committed, the database is as it was exactly when there was none.
   */
  lemma ThrowLeavesEarlierApplied(ms: seq<Migration>, k: nat, db: Database, others: seq<Migration>, failing: Option<nat>)
    requires k < |ms| && NoDrift(ms, k, db) && DistinctPending(ms, k, db)
    requires FaultOf(CommittedAll(db, PendingOf(ms[..k], db)), ms[k], db, others, failing).Some?
    ensures var s := FullPass(ms, db, DisturbedAt(k, others, failing));
            var before := CommittedAll(db, PendingOf(ms[..k], db));
      && s.fault == FaultOf(before, ms[k], db, others, failing)
      && s.db == CommittedAll(before, others)
      && (others == [] ==> (s.db == db <==> forall i :: 0 <= i < k ==> !Pending(db, ms[i])))
  {
    hide Iterate, PassUpTo, Committed, Extends, FaultOf;
    var world := DisturbedAt(k, others, failing);
    UndisturbedBefore(ms, k, k, db, others, failing);
    AloneReturnsExactly(ms, k, db);
    AloneCommits(ms, k, db);
    PassSoFar(ms, k, db, QUIET);
    FaultIs(PassUpTo(ms, k, db, world), ms[k], db, others, failing);
    StepOfPass(ms, k + 1, db, world);
    ThrownPass(ms, k + 1, |ms|, db, world);
    if forall i :: 0 <= i < k ==> !Pending(db, ms[i]) {
      PendingOfNothing(ms[..k], db);
    } else {
      var i :| 0 <= i < k && Pending(db, ms[i]);
      assert ms[i].id in ListedIds(ms, k);
    }
  }

  lemma StepOfPass(ms: seq<Migration>, n: nat, db: Database, world: World)
    requires 0 < n <= |ms| && PassUpTo(ms, n - 1, db, world).fault.None?
    ensures PassUpTo(ms, n, db, world)
         == Iterate(PassUpTo(ms, n - 1, db, world), ms[n - 1], db.ledger.Keys, world.others(n - 1), world.failing(n - 1))
  {
  }

  /** A failing statement rolls its own transaction back, and only that: the migration before it stays applied. */
  lemma FailureAfterAnApply()
    ensures var ms := [Migration("0001", "a", ["A"], "x"), Migration("0002", "b", ["B"], "y")];
            var s := FullPass(ms, Database(map[], []), DisturbedAt(1, [], Some(0)));
            s.fault == Some(StatementFailed("0002")) && "0001" in s.db.ledger && s.db.effects == ["A"]
  {
    hide Iterate, PassUpTo;
    var db := Database(map[], []);
    var ms := [Migration("0001", "a", ["A"], "x"), Migration("0002", "b", ["B"], "y")];
    assert ms[..1] == [ms[0]] && ms[..1][..0] == [];
    assert PendingOf([], db) == [] && PendingOf(ms[..1], db) == [ms[0]];
    AppendCommit(db, [], ms[0]);
    assert [] + [ms[0]] == [ms[0]];
    ThrowLeavesEarlierApplied(ms, 1, db, [], Some(0));
  }
}
