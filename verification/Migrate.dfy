/** The crash-safe schema migration runner. */
module Migrate {
  import opened Collections

  datatype Migration = Migration(version: int, name: string, sql: string, checksum: string)

  /** One row of schema_migrations. */
  datatype Applied = Applied(version: int, checksum: string, adopted: bool)

  /** The database as the runner sees it: whether schema_migrations exists, its rows
      in version order, whether the baseline's probe table exists, and the versions
      whose SQL was committed, in the order of the commits. */
  datatype Db = Db(tracked: bool, history: seq<Applied>, hasBaseline: bool, executed: seq<int>)

  /** Rows need a table. */
  predicate Sane(db: Db) { !db.tracked ==> db.history == [] }

  datatype Error = HistoryCorrupt | SchemaNewer | ChecksumMismatch | Pending | NotInitialized | Failed

  /** What Load returns: versions run from the baseline without gaps. */
  predicate Loaded(ms: seq<Migration>) {
    ms != [] && forall i | 0 <= i < |ms| :: ms[i].version == ms[0].version + i
  }

  predicate RowMatches(row: Applied, m: Migration) { row.version == m.version && row.checksum == m.checksum }

  /** The history is a contiguous, checksum-matching prefix of the list. */
  predicate Prefix(history: seq<Applied>, ms: seq<Migration>) {
    |history| <= |ms| && forall i | 0 <= i < |history| :: RowMatches(history[i], ms[i])
  }

  /** The verdict on row i of a history whose earlier rows match. */
  function RowVerdict(history: seq<Applied>, ms: seq<Migration>, i: nat): Option<Error>
    requires Loaded(ms) && i < |history|
  {
    if history[i].version != ms[0].version + i then Some(HistoryCorrupt)
    else if history[i].version > ms[|ms| - 1].version then Some(SchemaNewer)
    else if history[i].checksum != ms[i].checksum then Some(ChecksumMismatch)
    else None
  }

  /** The history is refused with e at its first bad row. */
  ghost predicate RefusedWith(history: seq<Applied>, ms: seq<Migration>, e: Error)
    requires Loaded(ms)
  {
    exists i | 0 <= i < |history| ::
      RowVerdict(history, ms, i) == Some(e) && forall j | 0 <= j < i :: RowVerdict(history, ms, j).None?
  }

  /** What is wrong with a row behind a matching prefix of length i: its version is not the next
      one, there is no such migration in the list, or its checksum is another. */
  function FirstBad(row: Applied, ms: seq<Migration>, i: nat): Error
    requires Loaded(ms) && i <= |ms|
  {
    if row.version != ms[0].version + i then HistoryCorrupt else if i == |ms| then SchemaNewer else ChecksumMismatch
  }

  lemma RefusalShapes(history: seq<Applied>, ms: seq<Migration>)
    requires Loaded(ms)
    ensures forall e | RefusedWith(history, ms, e) ::
      exists i | 0 <= i < |history| :: i <= |ms| && Prefix(history[..i], ms) && e == FirstBad(history[i], ms, i)
  {
    forall e | RefusedWith(history, ms, e)
      ensures exists i | 0 <= i < |history| :: i <= |ms| && Prefix(history[..i], ms) && e == FirstBad(history[i], ms, i)
    {
      var i :| 0 <= i < |history| && RowVerdict(history, ms, i) == Some(e)
               && forall j | 0 <= j < i :: RowVerdict(history, ms, j).None?;
      GoodRowsMatch(history, ms, i);
      assert i <= |ms| && Prefix(history[..i], ms) && e == FirstBad(history[i], ms, i);
    }
  }

  lemma {:induction false} GoodRowsMatch(history: seq<Applied>, ms: seq<Migration>, i: nat)
    requires Loaded(ms) && i <= |history| && forall j | 0 <= j < i :: RowVerdict(history, ms, j).None?
    ensures i <= |ms| && Prefix(history[..i], ms)
  {
    if i > 0 {
      GoodRowsMatch(history, ms, i - 1);
      assert RowVerdict(history, ms, i - 1).None?;
      assert forall j | 0 <= j < i - 1 :: history[..i][j] == history[..i - 1][j];
    }
  }

  /** pending: validate the history and return the migrations still to apply. */
  method PendingAfter(history: seq<Applied>, ms: seq<Migration>) returns (e: Option<Error>, todo: seq<Migration>)
    requires Loaded(ms)
    ensures e.None? <==> Prefix(history, ms)
    ensures e.None? ==> todo == ms[|history|..]
    ensures e.Some? ==> RefusedWith(history, ms, e.value)
    // by the first row that is bad: out of its place, beyond the list, or of another text
    ensures e.Some? ==>
      exists i | 0 <= i < |history| :: && i <= |ms| && Prefix(history[..i], ms) &&
          e.value == FirstBad(history[i], ms, i)
  {
    RefusalShapes(history, ms);
    var first, latest := ms[0].version, ms[|ms| - 1].version;
    for i := 0 to |history|
      invariant i <= |ms|
      invariant forall j | 0 <= j < i :: RowVerdict(history, ms, j).None? && RowMatches(history[j], ms[j])
    {
      var row := history[i];
      if row.version != first + i {
        assert RowVerdict(history, ms, i) == Some(HistoryCorrupt);
        return Some(HistoryCorrupt), [];
      }
      if row.version > latest {
        assert RowVerdict(history, ms, i) == Some(SchemaNewer);
        return Some(SchemaNewer), [];
      }
      if row.checksum != ms[i].checksum {
        assert RowVerdict(history, ms, i) == Some(ChecksumMismatch);
        return Some(ChecksumMismatch), [];
      }
    }
    return None, ms[|history|..];
  }

  /** A refusal names one error, and only a history that does not match is refused. */
  lemma RefusalIsExact(history: seq<Applied>, ms: seq<Migration>, e: Error, f: Error)
    requires Loaded(ms) && RefusedWith(history, ms, e)
    ensures !Prefix(history, ms)
    ensures RefusedWith(history, ms, f) ==> e == f
  {
    var i :| 0 <= i < |history| && RowVerdict(history, ms, i) == Some(e) && forall j | 0 <= j < i ::
        RowVerdict(history, ms, j).None?;
  }

  function RowsOf(ms: seq<Migration>): seq<Applied> {
    seq(|ms|, i requires 0 <= i < |ms| => Applied(ms[i].version, ms[i].checksum, false))
  }

  function VersionsOf(ms: seq<Migration>): seq<int> {
    seq(|ms|, i requires 0 <= i < |ms| => ms[i].version)
  }

  // ---- what one run can leave behind ----

  /** An existing schema that was never tracked is recorded as the baseline. */
  function Adopted(db: Db, ms: seq<Migration>): Db
    requires ms != []
  {
    if db.history == [] && db.hasBaseline
    then db.(tracked := true, history := [Applied(ms[0].version, ms[0].checksum, true)])
    else db.(tracked := true)
  }

  /** The next k pending migrations, each committed with its row. */
  function Advanced(db: Db, ms: seq<Migration>, k: nat): Db
    requires |db.history| + k <= |ms|
  {
    var now := ms[|db.history|..|db.history| + k];
    db.(history := db.history + RowsOf(now), executed := db.executed + VersionsOf(now),
        hasBaseline := db.hasBaseline || k > 0)
  }

  /** One run, however it ended: nothing but the empty history table, or some of the
      pending migrations after adoption. */
  ghost predicate RunEffect(a: Db, b: Db, ms: seq<Migration>)
    requires Loaded(ms)
  {
    || ((a.tracked ==> b.tracked) && b == a.(tracked := b.tracked))
    || (Prefix(Adopted(a, ms).history, ms) &&
        exists k | 0 <= k <= |ms| - |Adopted(a, ms).history| :: b == Advanced(Adopted(a, ms), ms, k))
  }

  lemma AdvanceNone(db: Db, ms: seq<Migration>)
    requires |db.history| <= |ms|
    ensures Advanced(db, ms, 0) == db
  {
  }

  lemma AdvanceOne(db: Db, ms: seq<Migration>, k: nat)
    requires |db.history| + k < |ms|
    ensures var d := Advanced(db, ms, k);
            var m := ms[|db.history| + k];
            Advanced(db, ms, k + 1) == d.(history := d.history + [Applied(m.version, m.checksum, false)],
                                          executed := d.executed + [m.version], hasBaseline := true)
  {
    var n := |db.history|;
    assert ms[n..n + k + 1] == ms[n..n + k] + [ms[n + k]];
    assert RowsOf(ms[n..n + k + 1]) == RowsOf(ms[n..n + k]) + [Applied(ms[n + k].version, ms[n + k].checksum, false)];
    assert VersionsOf(ms[n..n + k + 1]) == VersionsOf(ms[n..n + k]) + [ms[n + k].version];
  }

  // ---- the runner ----

  /** A connection that may fail: budget statements succeed, then one fails for good.
      tail says whether that one still took effect (a commit whose answer was lost). */
  class Runner {
    var db: Db
    var budget: nat
    var faulty: bool
    const tail: bool

    constructor (db: Db, budget: nat, faulty: bool, tail: bool)
      ensures this.db == db && this.budget == budget && this.faulty == faulty && this.tail == tail
    {
      this.db, this.budget, this.faulty, this.tail := db, budget, faulty, tail;
    }

    /** Whether the next statement succeeds, and whether it takes effect. */
    method Statement() returns (ok: bool, effect: bool)
      modifies this`budget
      ensures !faulty ==> ok
      ensures ok ==> effect
    {
      if faulty && budget == 0 {
        return false, tail;
      }
      if faulty { budget := budget - 1; }
      return true, true;
    }

    /** applyOne: the migration and the row that records it, in one transaction. Its
        statements have no effect unless the commit does. */
    method ApplyOne(m: Migration) returns (ok: bool)
      modifies this`db, this`budget
      ensures !faulty ==> ok
      ensures var done := old(db).(history := old(db).history + [Applied(m.version, m.checksum, false)],
                                   executed := old(db).executed + [m.version], hasBaseline := true);
              if ok then db == done else db == old(db) || db == done
    {
      var begun, _ := Statement();
      if !begun { return false; }
      var ran, _ := Statement();
      if !ran { return false; }
      var recorded, _ := Statement();
      if !recorded { return false; }
      var committed, effect := Statement();
      if effect {
        db := db.(history := db.history + [Applied(m.version, m.checksum, false)],
                  executed := db.executed + [m.version], hasBaseline := true);
      }
      return committed;
    }

    /** apply: create the history table, adopt an untracked baseline, apply what is
        pending. applied lists the versions this call applied. */
    method ApplyAll(ms: seq<Migration>) returns (e: Option<Error>, applied: seq<int>)
      requires Loaded(ms) && Sane(db)
      modifies this`db, this`budget
      ensures RunEffect(old(db), db, ms)
      ensures e.None? ==>
                && Prefix(Adopted(old(db), ms).history, ms)
                && |Adopted(old(db), ms).history| + |applied| == |ms| &&
                    db == Advanced(Adopted(old(db), ms), ms, |applied|)
      ensures !faulty ==> ApplySays(old(db), ms, e, |applied|) && (e.Some? ==> db == Adopted(old(db), ms))
    {
      applied := [];
      var locked, _ := Statement();
      if !locked { return Some(Failed), applied; }
      var created, createdEffect := Statement();
      if createdEffect { db := db.(tracked := true); }
      if !created { return Some(Failed), applied; }
      var read, _ := Statement();
      if !read { return Some(Failed), applied; }
      if db.history == [] {
        var probed, _ := Statement();
        if !probed { return Some(Failed), applied; }
        if db.hasBaseline {
          var recorded, recordedEffect := Statement();
          if recordedEffect { db := db.(history := [Applied(ms[0].version, ms[0].checksum, true)]); }
          AdvanceNone(Adopted(old(db), ms), ms);
          if !recorded { return Some(Failed), applied; }
        }
      }
      assert db == Adopted(old(db), ms);
      var todo: seq<Migration>;
      e, todo := PendingAfter(db.history, ms);
      if e.Some? { return e, applied; }
      e, applied := ApplyPending(ms, todo);
    }

    /** The loop of apply: each pending migration in its own transaction. */
    method ApplyPending(ms: seq<Migration>, todo: seq<Migration>) returns (e: Option<Error>, applied: seq<int>)
      requires |db.history| <= |ms| && todo == ms[|db.history|..]
      modifies this`db, this`budget
      ensures |applied| <= |todo| && (!faulty ==> e.None?)
      ensures e.None? ==> |applied| == |todo| && db == Advanced(old(db), ms, |applied|)
      ensures exists k | 0 <= k <= |todo| :: db == Advanced(old(db), ms, k)
      ensures applied == VersionsOf(todo[..|applied|])
    {
      ghost var base := db;
      AdvanceNone(base, ms);
      applied := [];
      for i := 0 to |todo|
        invariant |applied| == i && applied == VersionsOf(todo[..i])
        invariant db == Advanced(base, ms, i)
      {
        AdvanceOne(base, ms, i);
        var ok := ApplyOne(todo[i]);
        if !ok { return Some(Failed), applied; }
        assert todo[..i + 1] == todo[..i] + [todo[i]];
        applied := applied + [todo[i].version];
      }
      e := None;
    }

    /** check: inspect without writing. */
    method Check(ms: seq<Migration>) returns (e: Option<Error>, version: int)
      requires Loaded(ms) && Sane(db)
      ensures db == old(db)
      ensures CheckSays(db, ms, e)
      ensures e == Some(NotInitialized) <==> (!db.tracked || db.history == []) && !db.hasBaseline
      ensures e.None? || e == Some(Pending) ==>
          Known(db, ms) != [] && version == Known(db, ms)[|Known(db, ms)| - 1].version
    {
      var history := if db.tracked then db.history else [];
      version := 0;
      if history == [] {
        if !db.hasBaseline {
          return Some(NotInitialized), version;
        }
        history := [Applied(ms[0].version, ms[0].checksum, false)];
      }
      var todo: seq<Migration>;
      e, todo := PendingAfter(history, ms);
      if e.Some? { return; }
      version := history[|history| - 1].version;
      if |todo| > 0 {
        return Some(Pending), version;
      }
    }
  }

  /** The rows a reader finds: none if the table does not exist. */
  function Visible(db: Db): seq<Applied> { if db.tracked then db.history else [] }

  /** The history check works with: an untracked baseline counts as version one. */
  function Known(db: Db, ms: seq<Migration>): seq<Applied>
    requires ms != []
  {
    if Visible(db) == [] && db.hasBaseline then [Applied(ms[0].version, ms[0].checksum, false)] else Visible(db)
  }

  /** What check reports. */
  ghost predicate CheckSays(db: Db, ms: seq<Migration>, e: Option<Error>)
    requires Loaded(ms)
  {
    if Visible(db) == [] && !db.hasBaseline then e == Some(NotInitialized)
    else if Prefix(Known(db, ms), ms) then e == (if |Known(db, ms)| < |ms| then Some(Pending) else None)
    else e.Some? && RefusedWith(Known(db, ms), ms, e.value)
  }

  /** What apply reports when nothing fails: the error, or how many migrations it ran. */
  ghost predicate ApplySays(db: Db, ms: seq<Migration>, e: Option<Error>, n: nat)
    requires Loaded(ms)
  {
    if Prefix(Adopted(db, ms).history, ms) then e.None? && n == |ms| - |Adopted(db, ms).history|
    else e.Some? && RefusedWith(Adopted(db, ms).history, ms, e.value)
  }
}

/** What the migration runner guarantees over any sequence of runs. */
module MigrateRuns {
  import opened Collections
  import opened Migrate

  /** The refusals that are about the database and not about the work left. */
  predicate Refusal(e: Option<Error>) {
    e.Some? && (e.value.HistoryCorrupt? || e.value.SchemaNewer? || e.value.ChecksumMismatch?)
  }

  /** Check mode agrees with auto mode on every database: it succeeds exactly if auto
      would run nothing, reports work exactly if auto would run something, and both
      refuse with the same error. */
  lemma CheckAgreesWithApply(db: Db, ms: seq<Migration>, c: Option<Error>, a: Option<Error>, n: nat)
    requires Loaded(ms) && Sane(db) && CheckSays(db, ms, c) && ApplySays(db, ms, a, n)
    ensures c.None? <==> a.None? && n == 0
    ensures c == Some(Pending) || c == Some(NotInitialized) <==> a.None? && n > 0
    ensures a.Some? <==> Refusal(c)
    ensures a.Some? ==> c == a
  {
    var known, adopted := Known(db, ms), Adopted(db, ms).history;
    SameRowsSameVerdict(known, adopted, ms);
    if a.Some? { RefusalIsExact(adopted, ms, a.value, c.value); }
  }

  /** Whether a history is accepted, and how it is refused, ignores how its rows came about. */
  lemma SameRowsSameVerdict(h1: seq<Applied>, h2: seq<Applied>, ms: seq<Migration>)
    requires Loaded(ms) && |h1| == |h2|
    requires forall i | 0 <= i < |h1| :: h1[i].version == h2[i].version && h1[i].checksum == h2[i].checksum
    ensures Prefix(h1, ms) <==> Prefix(h2, ms)
    ensures forall e :: RefusedWith(h1, ms, e) ==> RefusedWith(h2, ms, e)
  {
    forall e | RefusedWith(h1, ms, e) ensures RefusedWith(h2, ms, e) {
      var i :| 0 <= i < |h1| && RowVerdict(h1, ms, i) == Some(e) && forall j | 0 <= j < i ::
          RowVerdict(h1, ms, j).None?;
      assert RowVerdict(h2, ms, i) == Some(e);
      assert forall j | 0 <= j < i :: RowVerdict(h2, ms, j) == RowVerdict(h1, ms, j);
    }
    if Prefix(h1, ms) { forall i | 0 <= i < |h2| ensures RowMatches(h2[i], ms[i]) { assert RowMatches(h1[i], ms[i]); } }
    if Prefix(h2, ms) { forall i | 0 <= i < |h1| ensures RowMatches(h1[i], ms[i]) { assert RowMatches(h2[i], ms[i]); } }
  }

  /** The position of the first migration whose SQL the runner itself executed. */
  function FirstExecuted(db: Db): nat { if db.history != [] && db.history[0].adopted then 1 else 0 }

  /** The history is a contiguous matching prefix of the list, and exactly its rows
      that were not adopted were executed, once each and in order. */
  ghost predicate Good(db: Db, master: seq<Migration>) {
    && Sane(db) && Prefix(db.history, master)
    && (forall i | 1 <= i < |db.history| :: !db.history[i].adopted)
    && (db.history != [] ==> db.hasBaseline)
    && db.executed == VersionsOf(master[FirstExecuted(db)..|db.history|])
  }

  /** An empty database, or one whose baseline was loaded before versions were tracked. */
  lemma UntrackedIsGood(master: seq<Migration>, tracked: bool, hasBaseline: bool)
    ensures Good(Db(tracked, [], hasBaseline, []), master)
  {
  }

  lemma AdoptedIsGood(db: Db, ms: seq<Migration>, master: seq<Migration>)
    requires Good(db, master) && ms != [] && ms <= master
    ensures Good(Adopted(db, ms), master) && db.executed == Adopted(db, ms).executed &&
        db.history <= Adopted(db, ms).history
  {
    assert ms[0] == master[0];
  }

  lemma AdvancedIsGood(db: Db, ms: seq<Migration>, master: seq<Migration>, k: nat)
    requires Good(db, master) && db.tracked && ms <= master && |db.history| + k <= |ms|
    ensures Good(Advanced(db, ms, k), master)
  {
    var n, d := |db.history|, Advanced(db, ms, k);
    assert ms[n..n + k] == master[n..n + k];
    forall i | 0 <= i < |d.history| ensures RowMatches(d.history[i], master[i]) {
      assert i >= n ==> d.history[i] == RowsOf(ms[n..n + k])[i - n];
    }
    var f := FirstExecuted(db);
    assert FirstExecuted(d) == f by { assert n == 0 && k > 0 ==> d.history[0] == RowsOf(ms[n..n + k])[0]; }
    assert master[f..n + k] == master[f..n] + master[n..n + k];
    assert VersionsOf(master[f..n + k]) == VersionsOf(master[f..n]) + VersionsOf(master[n..n + k]);
  }

  /** One run, however it ends, keeps the database good and takes nothing back. */
  lemma RunKeepsGood(a: Db, b: Db, ms: seq<Migration>, master: seq<Migration>)
    requires Good(a, master) && Loaded(ms) && ms <= master && RunEffect(a, b, ms)
    ensures Good(b, master) && a.history <= b.history && a.executed <= b.executed
  {
    if b != a.(tracked := b.tracked) {
      AdoptedIsGood(a, ms, master);
      var k :| 0 <= k <= |ms| - |Adopted(a, ms).history| && b == Advanced(Adopted(a, ms), ms, k);
      AdvancedIsGood(Adopted(a, ms), ms, master, k);
    }
  }

  /** Runs of binaries whose lists are prefixes of one list, each ending anyhow. */
  ghost predicate Runs(dbs: seq<Db>, lists: seq<seq<Migration>>, master: seq<Migration>) {
    && |dbs| == |lists| + 1
    && forall i | 0 <= i < |lists| :: Loaded(lists[i]) && lists[i] <= master && RunEffect(dbs[i], dbs[i + 1], lists[i])
  }

  lemma {:induction false} AfterRuns(dbs: seq<Db>, lists: seq<seq<Migration>>, master: seq<Migration>, n: nat)
    requires Runs(dbs, lists, master) && Good(dbs[0], master) && n < |dbs|
    ensures Good(dbs[n], master) && dbs[0].history <= dbs[n].history && dbs[0].executed <= dbs[n].executed
  {
    if n > 0 {
      AfterRuns(dbs, lists, master, n - 1);
      RunKeepsGood(dbs[n - 1], dbs[n], lists[n - 1], master);
    }
  }

  /** Crash-safe migration: over any sequence of runs, by older and newer binaries,
      that fail or die at any statement, the database stays good and nothing that
      was recorded or executed is taken back. */
  lemma CrashSafety(dbs: seq<Db>, lists: seq<seq<Migration>>, master: seq<Migration>)
    requires Runs(dbs, lists, master) && Good(dbs[0], master)
    ensures forall i | 0 <= i < |dbs| :: Good(dbs[i], master)
    ensures dbs[0].history <= dbs[|lists|].history && dbs[0].executed <= dbs[|lists|].executed
  {
    forall i | 0 <= i < |dbs| ensures Good(dbs[i], master) { AfterRuns(dbs, lists, master, i); }
    AfterRuns(dbs, lists, master, |lists|);
  }

  /** In a good database every version was executed at most once, in order, and a
      version is on record exactly if it was executed or adopted. */
  lemma ExecutedExactlyOnce(db: Db, master: seq<Migration>, v: int)
    requires Good(db, master) && Loaded(master)
    ensures forall i, j | 0 <= i < j < |db.executed| :: db.executed[i] < db.executed[j]
    ensures v in db.executed <==> exists i | 0 <= i < |db.history| ::
        db.history[i].version == v && !db.history[i].adopted
    ensures db.history != [] && db.history[0].adopted ==> master[0].version !in db.executed
  {
    var f := FirstExecuted(db);
    assert forall i | 0 <= i < |db.executed| :: db.executed[i] == master[f + i].version;
    forall i | 0 <= i < |db.history| ensures db.history[i].version == master[i].version &&
        (db.history[i].adopted <==> i < f) {
      assert RowMatches(db.history[i], master[i]);
    }
    if exists i | 0 <= i < |db.history| :: db.history[i].version == v && !db.history[i].adopted {
      var i :| 0 <= i < |db.history| && db.history[i].version == v && !db.history[i].adopted;
      assert db.executed[i - f] == v;
    }
    if v in db.executed {
      var i :| 0 <= i < |db.executed| && db.executed[i] == v;
      assert db.history[f + i].version == v && !db.history[f + i].adopted;
    }
  }

  /** A good database can always be finished: a run of a binary that is not older than
      it, in which nothing fails, is not refused. */
  lemma GoodIsNeverRefused(db: Db, ms: seq<Migration>, master: seq<Migration>, e: Option<Error>, n: nat)
    requires Good(db, master) && Loaded(ms) && ms <= master && |db.history| <= |ms|
    requires ApplySays(db, ms, e, n)
    ensures e.None? && n == |ms| - |Adopted(db, ms).history|
  {
    AdoptedIsGood(db, ms, master);
    var h := Adopted(db, ms).history;
    forall i | 0 <= i < |h| ensures RowMatches(h[i], ms[i]) { assert RowMatches(h[i], master[i]); }
  }

  /** An older binary is refused, and says why. */
  lemma OlderBinaryIsRefused(db: Db, ms: seq<Migration>, master: seq<Migration>, e: Option<Error>, n: nat)
    requires Good(db, master) && Loaded(ms) && Loaded(master) && ms <= master && |db.history| > |ms|
    requires ApplySays(db, ms, e, n)
    ensures e == Some(SchemaNewer)
  {
    var h := Adopted(db, ms).history;
    forall i | 0 <= i <= |ms| ensures RowVerdict(h, ms, i) == if i < |ms| then None else Some(SchemaNewer) {
      assert RowMatches(h[i], master[i]);
    }
    assert RefusedWith(h, ms, SchemaNewer);
    RefusalIsExact(h, ms, SchemaNewer, e.value);
  }
}
