/** Following a job's journal entries in any order, with any repetition, ends at
    the entry of the highest generation. */
module Convergence {
  import opened Collections
  import opened Operations

  /** An entry as it arrives: what the host said, and when OAM wrote it down. */
  datatype Arrival = Arrival(job: HostJob, at: int)

  /** The entries of one job: a generation names one entry. */
  ghost predicate OneJob(arrivals: seq<Arrival>) {
    forall i, j | 0 <= i < |arrivals| && 0 <= j < |arrivals| &&
        arrivals[i].job.generation == arrivals[j].job.generation ::
      arrivals[i].job == arrivals[j].job
  }

  function FollowAll(row: Row, arrivals: seq<Arrival>): Row
    decreases arrivals
  {
    if arrivals == [] then row
    else FollowAll(FollowJob(row, arrivals[0].job, arrivals[0].at), arrivals[1..])
  }

  /** Everything the host decides about a row. Only the time of the finish depends
      on when an entry arrived. */
  ghost predicate Agree(a: Row, b: Row) {
    && a == b.(finishedAt := a.finishedAt)
    && a.finishedAt.Some? == b.finishedAt.Some?
  }

  ghost predicate Carries(arrivals: seq<Arrival>, job: HostJob) {
    exists i | 0 <= i < |arrivals| :: arrivals[i].job == job
  }

  ghost predicate Highest(best: HostJob, arrivals: seq<Arrival>) {
    && Carries(arrivals, best)
    && forall i | 0 <= i < |arrivals| :: arrivals[i].job.generation <= best.generation
  }

  /** Entries that are not newer than the row leave it alone. */
  lemma {:induction false} NothingNewer(row: Row, arrivals: seq<Arrival>)
    requires forall i | 0 <= i < |arrivals| :: arrivals[i].job.generation <= row.hostGeneration
    ensures FollowAll(row, arrivals) == row
  {
    if arrivals != [] { NothingNewer(row, arrivals[1..]); }
  }

  /** Any arrivals of one job have the effect of its highest generation alone. */
  lemma {:induction false} OnlyHighestMatters(row: Row, arrivals: seq<Arrival>, best: HostJob, at: int)
    requires OneJob(arrivals) && Highest(best, arrivals)
    ensures Agree(FollowAll(row, arrivals), FollowJob(row, best, at))
    decreases arrivals
  {
    var first := arrivals[0].job;
    var next := FollowJob(row, first, arrivals[0].at);
    var rest := arrivals[1..];
    forall i | 0 <= i < |rest| ensures rest[i] == arrivals[i + 1] { }
    assert OneJob(rest);
    if first.generation == best.generation {
      assert first == best;
      NothingNewer(next, rest);
    } else {
      var i :| 0 <= i < |arrivals| && arrivals[i].job == best;
      assert rest[i - 1].job == best;
      OnlyHighestMatters(next, rest, best, at);
    }
  }

  lemma HasHighest(arrivals: seq<Arrival>) returns (best: HostJob)
    requires arrivals != []
    ensures Highest(best, arrivals)
  {
    best := arrivals[0].job;
    for n := 1 to |arrivals|
      invariant Carries(arrivals, best)
      invariant forall i | 0 <= i < n :: arrivals[i].job.generation <= best.generation
    {
      if arrivals[n].job.generation > best.generation { best := arrivals[n].job; }
    }
  }

  /** Two deliveries of the same entries, in different orders, with different
      repetitions and at different times, leave the same row. */
  lemma ReorderingIsHarmless(row: Row, a: seq<Arrival>, b: seq<Arrival>)
    requires OneJob(a) && OneJob(b)
    requires forall job :: Carries(a, job) <==> Carries(b, job)
    ensures Agree(FollowAll(row, a), FollowAll(row, b))
  {
    if a == [] {
      if b != [] { assert Carries(b, b[0].job); }
    } else {
      var best := HasHighest(a);
      forall j | 0 <= j < |b| ensures b[j].job.generation <= best.generation { assert Carries(b, b[j].job); }
      assert Highest(best, b);
      OnlyHighestMatters(row, a, best, 0);
      OnlyHighestMatters(row, b, best, 0);
    }
  }
}
