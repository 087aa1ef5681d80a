/** Assembling the migration list: the baseline, then the migration files in version order. */
module MigrateLoad {
  import opened Collections
  import opened Migrate

  /** Put m before the first migration that is not older. */
  function Inserted(m: Migration, ms: seq<Migration>): seq<Migration> {
    if ms == [] || m.version <= ms[0].version then [m] + ms else [ms[0]] + Inserted(m, ms[1..])
  }

  /** sort.SliceStable by version. */
  function SortedByVersion(ms: seq<Migration>): seq<Migration> {
    if ms == [] then [] else Inserted(ms[0], SortedByVersion(ms[1..]))
  }

  predicate AtLeast(ms: seq<Migration>, v: int) { forall i | 0 <= i < |ms| :: v <= ms[i].version }

  predicate Rising(ms: seq<Migration>) { ms == [] || (AtLeast(ms[1..], ms[0].version) && Rising(ms[1..])) }

  /** How many migrations have version v. */
  function Count(ms: seq<Migration>, v: int): nat {
    if ms == [] then 0 else Count(ms[1..], v) + if ms[0].version == v then 1 else 0
  }

  /** Load, given the baseline and the files that are named like migrations. */
  method Load(baseline: Migration, files: seq<Migration>) returns (r: Option<seq<Migration>>)
    ensures r == LoadOf(baseline, files)
    ensures r.Some? ==> Loaded(r.value) && r.value[0].version == baseline.version
    ensures r.Some? ==> multiset(r.value) == multiset([baseline] + files)
  {
    var ms := SortedByVersion([baseline] + files);
    SortKeeps([baseline] + files);
    SortPermutes([baseline] + files);
    for i := 0 to |ms|
      invariant forall j | 0 <= j < i :: ms[j].version == baseline.version + j
    {
      if ms[i].version != baseline.version + i {
        return None;
      }
    }
    return Some(ms);
  }

  function LoadOf(baseline: Migration, files: seq<Migration>): Option<seq<Migration>> {
    var ms := SortedByVersion([baseline] + files);
    if forall i | 0 <= i < |ms| :: ms[i].version == baseline.version + i then Some(ms) else None
  }

  lemma {:induction false} InsertPermutes(m: Migration, ms: seq<Migration>)
    ensures multiset(Inserted(m, ms)) == multiset([m] + ms)
  {
    if ms != [] && m.version > ms[0].version {
      InsertPermutes(m, ms[1..]);
      assert ms == [ms[0]] + ms[1..];
    }
  }

  lemma {:induction false} SortPermutes(ms: seq<Migration>)
    ensures multiset(SortedByVersion(ms)) == multiset(ms)
  {
    if ms != [] {
      SortPermutes(ms[1..]);
      InsertPermutes(ms[0], SortedByVersion(ms[1..]));
      assert ms == [ms[0]] + ms[1..];
    }
  }

  lemma {:induction false} InsertKeeps(m: Migration, ms: seq<Migration>)
    requires Rising(ms)
    ensures Rising(Inserted(m, ms)) && |Inserted(m, ms)| == |ms| + 1
    ensures forall v | v <= m.version && AtLeast(ms, v) :: AtLeast(Inserted(m, ms), v)
  {
    if ms != [] && m.version > ms[0].version {
      var rest := Inserted(m, ms[1..]);
      InsertKeeps(m, ms[1..]);
      assert AtLeast(rest, ms[0].version);
      assert Inserted(m, ms)[1..] == rest;
      forall v | v <= m.version && AtLeast(ms, v) ensures AtLeast(Inserted(m, ms), v) {
        assert v <= ms[0].version;
        assert AtLeast(ms[1..], v);
        assert AtLeast(rest, v);
      }
    } else {
      assert Inserted(m, ms)[1..] == ms;
      if ms != [] {
        assert forall i | 1 <= i < |ms| :: ms[i] == ms[1..][i - 1];
        assert AtLeast(ms, m.version);
      }
    }
  }

  lemma {:induction false} SortKeeps(ms: seq<Migration>)
    ensures Rising(SortedByVersion(ms)) && |SortedByVersion(ms)| == |ms|
  {
    if ms != [] {
      SortKeeps(ms[1..]);
      InsertKeeps(ms[0], SortedByVersion(ms[1..]));
    }
  }

  lemma {:induction false} InsertCounts(m: Migration, ms: seq<Migration>, v: int)
    ensures Count(Inserted(m, ms), v) == Count(ms, v) + if m.version == v then 1 else 0
  {
    assert ([m] + ms)[1..] == ms;
    if ms != [] && m.version > ms[0].version {
      InsertCounts(m, ms[1..], v);
      assert ([ms[0]] + Inserted(m, ms[1..]))[1..] == Inserted(m, ms[1..]);
    }
  }

  lemma {:induction false} SortCounts(ms: seq<Migration>, v: int)
    ensures Count(SortedByVersion(ms), v) == Count(ms, v)
  {
    if ms != [] {
      SortCounts(ms[1..], v);
      InsertCounts(ms[0], SortedByVersion(ms[1..]), v);
    }
  }

  predicate Within(v: int, from: int, n: nat) { from <= v < from + n }

  /** Each of the versions of a range once, and no other. */
  ghost predicate EachOnce(ms: seq<Migration>, from: int) {
    forall v: int :: Count(ms, v) == if Within(v, from, |ms|) then 1 else 0
  }

  /** A list that runs without gaps holds each of its versions once. */
  lemma {:induction false} RunCounts(ms: seq<Migration>, from: int)
    requires forall i | 0 <= i < |ms| :: ms[i].version == from + i
    ensures EachOnce(ms, from)
  {
    if ms != [] {
      assert forall i | 0 <= i < |ms| - 1 :: ms[1..][i] == ms[i + 1];
      RunCounts(ms[1..], from + 1);
      RestOnce(ms, from);
    }
  }

  /** Taking away the lowest version. */
  lemma RestOnce(ms: seq<Migration>, from: int)
    requires ms != [] && ms[0].version == from
    ensures EachOnce(ms, from) <==> EachOnce(ms[1..], from + 1)
  {
    var rest := ms[1..];
    if EachOnce(ms, from) {
      forall v: int ensures Count(rest, v) == if Within(v, from + 1, |rest|) then 1 else 0 {
        assert Count(ms, v) == if Within(v, from, |ms|) then 1 else 0;
      }
    }
    if EachOnce(rest, from + 1) {
      forall v: int ensures Count(ms, v) == if Within(v, from, |ms|) then 1 else 0 {
        assert Count(rest, v) == if Within(v, from + 1, |rest|) then 1 else 0;
      }
    }
  }

  lemma {:induction false} Holder(ms: seq<Migration>, v: int) returns (i: nat)
    requires Count(ms, v) >= 1
    ensures i < |ms| && ms[i].version == v
  {
    if ms[0].version == v {
      i := 0;
    } else {
      i := Holder(ms[1..], v);
      i := i + 1;
    }
  }

  lemma FirstIsLowest(ms: seq<Migration>, from: int)
    requires ms != [] && Rising(ms) && EachOnce(ms, from)
    ensures ms[0].version == from
  {
    assert Count(ms, ms[0].version) >= 1;
    assert Within(ms[0].version, from, |ms|);
    assert Count(ms, from) == if Within(from, from, |ms|) then 1 else 0;
    var i := Holder(ms, from);
    assert i > 0 ==> ms[i] == ms[1..][i - 1];
  }

  /** A list in order that holds each version of a range once runs through it. */
  lemma {:induction false} CountsRun(ms: seq<Migration>, from: int)
    requires Rising(ms) && EachOnce(ms, from)
    ensures forall i | 0 <= i < |ms| :: ms[i].version == from + i
  {
    if ms != [] {
      FirstIsLowest(ms, from);
      RestOnce(ms, from);
      CountsRun(ms[1..], from + 1);
      assert forall i | 1 <= i < |ms| :: ms[i] == ms[1..][i - 1];
    }
  }

  lemma SortOnce(ms: seq<Migration>, from: int)
    ensures EachOnce(SortedByVersion(ms), from) <==> EachOnce(ms, from)
  {
    SortKeeps(ms);
    forall v: int ensures Count(SortedByVersion(ms), v) == Count(ms, v) { SortCounts(ms, v); }
  }

  /** The files are accepted exactly when, in whatever order they come, every version behind
      the baseline's is there once and nothing else is: no gap, no duplicate, no version at
      or below the baseline. */
  lemma LoadAcceptsExactly(baseline: Migration, files: seq<Migration>)
    ensures LoadOf(baseline, files).Some? <==> EachOnce(files, baseline.version + 1)
  {
    var all, from := [baseline] + files, baseline.version;
    var ms := SortedByVersion(all);
    SortKeeps(all);
    SortOnce(all, from);
    assert all[1..] == files;
    RestOnce(all, from);
    if EachOnce(ms, from) {
      CountsRun(ms, from);
    } else if LoadOf(baseline, files).Some? {
      RunCounts(ms, from);
    }
  }
}
