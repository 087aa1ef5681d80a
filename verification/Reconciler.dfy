/** One pass of the reconciler over all operations in flight. */
module Reconciler {
  import opened Collections
  import opened Operations
  import opened Lifecycle
  import opened LifecycleInvariant
  import opened LifecycleRuns
  import opened OamService

  const BATCH := 50

  /** What the query of ReconcileActive selects. */
  predicate InFlight(row: Row) {
    row.submittedAt.Some?
    && (row.state.Queued? || row.state.Running? || row.state.Verifying? || row.state.Compensating? ||
        row.state.RecoveryRequired?)
  }

  /** The lowest ids in flight, in order, all of them or as many as fit into a batch. */
  ghost predicate IsBatch(ops: map<nat, Op>, ids: seq<nat>) {
    && |ids| <= BATCH
    && (forall i, j | 0 <= i < j < |ids| :: ids[i] < ids[j])
    && (forall i | 0 <= i < |ids| :: ids[i] in ops && InFlight(ops[ids[i]].row))
    && (forall id | id in ops && InFlight(ops[id].row) && id !in ids ::
          |ids| == BATCH && forall i | 0 <= i < BATCH :: ids[i] < id)
  }

  /** How the host and the network behave towards one poll. */
  datatype Conduct = Conduct(reachable: bool, verdict: SubmitVerdict, lost: bool)

  function Seen(op: Op): Op { op.(snapshots := op.snapshots + {op.row}) }

  /** An operation that was read and polled. */
  function Polled(id: nat, op: Op, now: int, c: Conduct): Op {
    AfterPoll(id, Seen(op), true, now, op.row, c.reachable, c.verdict, c.lost)
  }

  /** Only authorization and submission ask whether the installation is free. */
  lemma OpNextIgnoresFree(id: nat, op: Op, free: bool, now: int, step: OpStep)
    requires !step.AuthorizeTx? && !step.SubmitTx?
    ensures OpNext(id, op, free, now, step) == OpNext(id, op, true, now, step)
  {}

  lemma AfterDeliveryIgnoresFree(id: nat, op: Op, free: bool, now: int, verdict: SubmitVerdict, lost: bool)
    ensures AfterDelivery(id, op, free, now, verdict, lost, true)
        == AfterDelivery(id, op, true, now, verdict, lost, true)
  {
    var locked := op.(lock := Some(Lock(Purpose.Deliver, op.row, None)));
    OpNextIgnoresFree(id, locked, free, now, HostSubmit(verdict, lost));
    OpNextIgnoresFree(id, OpNext(id, locked, true, now, HostSubmit(verdict, lost)), free, now, Commit);
  }

  lemma AfterPollIgnoresFree(id: nat, op: Op, free: bool, now: int, snap: Row, c: Conduct)
    ensures AfterPoll(id, op, free, now, snap, c.reachable, c.verdict, c.lost)
            == AfterPoll(id, op, true, now, snap, c.reachable, c.verdict, c.lost)
  {
    var asked := OpNext(id, op, true, now, AskJob(snap));
    OpNextIgnoresFree(id, op, free, now, AskJob(snap));
    OpNextIgnoresFree(id, op, free, now, MarkUnreachable(snap));
    AfterDeliveryIgnoresFree(id, asked, free, now, c.verdict, c.lost);
    if op.journal != [] {
      var job := Last(op.journal);
      OpNextIgnoresFree(id, asked, free, now, ApplyJob(snap, job));
      OpNextIgnoresFree(id, OpNext(id, asked, true, now, ApplyJob(snap, job)), free, now, ClearMarker(snap));
    }
    OpNextIgnoresFree(id, asked, free, now, MarkUnreachable(snap));
    OpNextIgnoresFree(id, asked, free, now, MarkLost(snap));
  }

  /** Every operation, as it would be after a poll. */
  function Polls(ops: map<nat, Op>, now: int, conduct: nat -> Conduct): map<nat, Op> {
    map id | id in ops :: Polled(id, ops[id], now, conduct(id))
  }

  /** The first n operations of the batch were polled and the others not. */
  ghost predicate PolledTo(was: map<nat, Op>, ops: map<nat, Op>, ids: seq<nat>, n: nat, polls: map<nat, Op>)
    requires n <= |ids|
  {
    && ops.Keys == was.Keys == polls.Keys
    && (forall i | 0 <= i < n :: ids[i] in was && ops[ids[i]] == polls[ids[i]])
    && (forall i | n <= i < |ids| :: ids[i] in was && ops[ids[i]] == was[ids[i]])
    && (forall id | id in was && id !in ids :: ops[id] == was[id])
  }

  lemma OnePolled(was: map<nat, Op>, ops: map<nat, Op>, ids: seq<nat>, n: nat, polls: map<nat, Op>)
    requires n < |ids| && PolledTo(was, ops, ids, n, polls)
    requires forall i, j | 0 <= i < j < |ids| :: ids[i] < ids[j]
    ensures ids[n] in was && ops[ids[n]] == was[ids[n]]
    ensures PolledTo(was, ops[ids[n] := polls[ids[n]]], ids, n + 1, polls)
  {}

  class Server {
    var ops: map<nat, Op>
    var now: int

    constructor (ops: map<nat, Op>, now: int)
      ensures this.ops == ops && this.now == now
    {
      this.ops, this.now := ops, now;
    }

    ghost function Whole(): State
      reads this
    {
      State(now, ops)
    }

    method Select() returns (ids: seq<nat>)
      ensures IsBatch(ops, ids)
    {
      ids := [];
      var left := set id | id in ops && InFlight(ops[id].row);
      while |ids| < BATCH && left != {}
        invariant |ids| <= BATCH
        invariant forall i, j | 0 <= i < j < |ids| :: ids[i] < ids[j]
        invariant forall i | 0 <= i < |ids| :: ids[i] in ops && InFlight(ops[ids[i]].row)
        invariant forall id | id in left :: id in ops && InFlight(ops[id].row) && forall i | 0 <= i < |ids| ::
            ids[i] < id
        invariant forall id | id in ops && InFlight(ops[id].row) :: id in left || id in ids
        decreases left
      {
        var low := Best(left, id => -id);
        ids := ids + [low];
        left := left - {low};
      }
    }

    /** Read one operation, as the query did, and reconcile it. */
    method Poll(id: nat, c: Conduct) returns (ghost steps: seq<Step>)
      requires id in ops && ops[id].lock.None?
      modifies this`ops
      ensures ops == old(ops)[id := Polled(id, old(ops)[id], now, c)]
      ensures Whole() == Exec(old(Whole()), steps) && Faithful(old(Whole()), steps)
    {
      ghost var before := Whole();
      var snap := ops[id].row;
      var oam := new Oam(id, Seen(ops[id]), now, Free(State(now, ops), id));
      ghost var taken := oam.Reconcile(snap, c.reachable, c.verdict, c.lost);
      AfterPollIgnoresFree(id, Seen(ops[id]), oam.free, now, snap, c);
      ghost var all: seq<OamStep> := [Read] + taken;
      assert all[1..] == taken;
      OpExecIsExec(before, id, all);
      ops := ops[id := oam.op];
      steps := Lift(id, all);
    }

    /** ReconcileActive: one batch, each operation polled as it was read. The pass is a run
        of the protocol. */
    method ReconcileActive(conduct: nat -> Conduct) returns (ids: seq<nat>, ghost steps: seq<Step>)
      requires forall id | id in ops :: ops[id].lock.None?
      modifies this`ops
      ensures IsBatch(old(ops), ids) && PolledTo(old(ops), ops, ids, |ids|, Polls(old(ops), now, conduct))
      ensures Whole() == Exec(old(Whole()), steps) && Faithful(old(Whole()), steps)
    {
      ids := Select();
      ghost var before := Whole();
      steps := [];
      ghost var polls := Polls(ops, now, conduct);
      for n := 0 to |ids|
        invariant PolledTo(old(ops), ops, ids, n, polls)
        invariant Whole() == Exec(before, steps) && Faithful(before, steps)
      {
        OnePolled(old(ops), ops, ids, n, polls);
        var more := Poll(ids[n], conduct(ids[n]));
        ExecConcat(before, steps, more);
        steps := steps + more;
      }
    }
  }

  /** A polled operation whose journal has a usable entry says what that entry says. */
  lemma PolledFollows(id: nat, op: Op, now: int, c: Conduct)
    requires OpInv(id, op) && op.lock.None? && InFlight(op.row) && c.reachable && op.held &&
        CheckJob(Last(op.journal), id)
    ensures Tells(Polled(id, op, now, c).row, Last(op.journal))
  {
    ReadKeeps(id, op, true, now);
    PollFollows(id, Seen(op), true, now, op.row, c.verdict, c.lost);
  }

  /** A polled operation that was recorded as submitted but never delivered is delivered. */
  lemma PolledDelivers(id: nat, op: Op, now: int, c: Conduct)
    requires OpInv(id, op) && op.lock.None? && Undelivered(op) && op.row.submittedAt.Some? && op.journal == []
    requires c.reachable && c.verdict.Start? && CheckJob(c.verdict.first, id) && !c.lost
    ensures Polled(id, op, now, c).executions == 1 && Tells(Polled(id, op, now, c).row, c.verdict.first)
  {
    ReadKeeps(id, op, true, now);
    PollDelivers(id, Seen(op), true, now, op.row, c.verdict.first);
  }

  /** After a pass with the host reachable, every operation of the batch that the host holds
      stands where the journal stands: nothing in flight stays behind, unless more than a
      batch is in flight. */
  lemma PassCatchesUp(s: State, ops: map<nat, Op>, ids: seq<nat>, conduct: nat -> Conduct, id: nat)
    requires Inv(s) && (forall i | i in s.ops :: s.ops[i].lock.None?)
    requires IsBatch(s.ops, ids) && PolledTo(s.ops, ops, ids, |ids|, Polls(s.ops, s.now, conduct))
    requires id in s.ops && InFlight(s.ops[id].row) && (id in ids || |ids| < BATCH)
    requires conduct(id).reachable && s.ops[id].held && CheckJob(Last(s.ops[id].journal), id)
    ensures Tells(ops[id].row, Last(s.ops[id].journal))
  {
    var i :| 0 <= i < |ids| && ids[i] == id;
    PolledFollows(id, s.ops[id], s.now, conduct(id));
  }

  function Installations(s: State): set<nat> { set id | id in s.ops :: s.ops[id].row.installation }

  /** No two operations in flight share an installation, so a batch has room for one operation
      of each of fifty installations: nothing in flight is left out. */
  lemma BatchHoldsAll(s: State, ids: seq<nat>, id: nat)
    requires OneActive(s) && IsBatch(s.ops, ids) && |Installations(s)| <= BATCH
    requires id in s.ops && InFlight(s.ops[id].row)
    ensures id in ids
  {
    if id !in ids {
      var all := ids + [id];
      var places := seq(|all|, i requires 0 <= i < |all| =>
          if all[i] in s.ops then s.ops[all[i]].row.installation else 0);
      assert forall i | 0 <= i < |all| :: all[i] in s.ops && InFlight(s.ops[all[i]].row);
      assert forall i, j | 0 <= i < j < |all| :: all[i] < all[j];
      DistinctFit(places, Installations(s));
      assert false;
    }
  }

  /** What was submitted and is not finished is in flight. */
  lemma UnfinishedIsInFlight(id: nat, op: Op)
    requires OpInv(id, op)
    ensures InFlight(op.row) <==> op.row.submittedAt.Some? && !Finished(op.row.state)
  {}

  /** With at most fifty installations one pass with the host reachable brings everything that was
      submitted, is not finished and is held by the host up to the journal. */
  lemma PassCatchesUpAll(s: State, ops: map<nat, Op>, ids: seq<nat>, conduct: nat -> Conduct, id: nat)
    requires Inv(s) && (forall i | i in s.ops :: s.ops[i].lock.None?) && |Installations(s)| <= 50
    requires IsBatch(s.ops, ids) && PolledTo(s.ops, ops, ids, |ids|, Polls(s.ops, s.now, conduct))
    requires id in s.ops && s.ops[id].row.submittedAt.Some? && !Finished(s.ops[id].row.state)
    requires conduct(id).reachable && s.ops[id].held && CheckJob(Last(s.ops[id].journal), id)
    ensures Tells(ops[id].row, Last(s.ops[id].journal))
  {
    UnfinishedIsInFlight(id, s.ops[id]);
    BatchHoldsAll(s, ids, id);
    PassCatchesUp(s, ops, ids, conduct, id);
  }
}
