/** Safety of the operation protocol over whole runs: every interleaving of
    planning, authorization, submission, delivery, polling, cancellation, lost
    and late answers and crashes. */
module LifecycleRuns {
  import opened Collections
  import opened Operations
  import opened Lifecycle
  import opened LifecycleInvariant

  /** At most one operation occupies an installation. */
  ghost predicate OneActive(s: State) {
    forall a, b | a in s.ops && b in s.ops && s.ops[a].row.installation == s.ops[b].row.installation ::
      Active(s.ops[a].row.state) && Active(s.ops[b].row.state) ==> a == b
  }

  ghost predicate Inv(s: State) {
    (forall id | id in s.ops :: OpInv(id, s.ops[id])) && OneActive(s)
  }

  ghost predicate StateEvolves(s: State, t: State) {
    s.now <= t.now && forall id | id in s.ops :: id in t.ops && Evolves(s.ops[id], t.ops[id])
  }

  function Start(now: int): State { State(now, map[]) }

  lemma NewOpInv(id: nat, typ: OperationType, installation: nat, planHash: nat, now: int)
    ensures OpInv(id, NewOp(NewRow(typ, installation, planHash, now)))
  {
  }

  lemma ExpireKeeps(s: State)
    requires Inv(s)
    ensures Inv(Next(s, ExpirePlans)) && StateEvolves(s, Next(s, ExpirePlans))
  {
    forall id | id in s.ops
      ensures Keeps(id, s.ops[id], ExpireOp(s.ops[id], s.now), false)
    {
      CancelPlanKeeps(id, s.ops[id], false, CODE_PLAN_EXPIRED, s.now);
    }
  }

  /** Replacing one operation by one that keeps its invariant keeps the system's. */
  lemma OneOpKeeps(s: State, id: nat, op: Op)
    requires Inv(s) && id in s.ops && Keeps(id, s.ops[id], op, Free(s, id))
    ensures Inv(s.(ops := s.ops[id := op])) && StateEvolves(s, s.(ops := s.ops[id := op]))
  {
    AllOpsKeep(s.ops, id, op);
    OneActiveKept(s, id, op);
    AllOpsEvolve(s.ops, id, op);
  }

  lemma AllOpsKeep(ops: map<nat, Op>, id: nat, op: Op)
    requires (forall i | i in ops :: OpInv(i, ops[i])) && OpInv(id, op)
    ensures var after := ops[id := op]; forall i | i in after :: OpInv(i, after[i])
  {
  }

  lemma OneActiveKept(s: State, id: nat, op: Op)
    requires OneActive(s) && id in s.ops
    requires SamePlan(s.ops[id].row, op.row) && ActivatesOnlyIfFree(s.ops[id], op, Free(s, id))
    ensures OneActive(s.(ops := s.ops[id := op]))
  {
  }

  lemma AllOpsEvolve(ops: map<nat, Op>, id: nat, op: Op)
    requires id in ops && Evolves(ops[id], op) && (forall i | i in ops :: OpInv(i, ops[i]))
    ensures forall i | i in ops :: Evolves(ops[i], ops[id := op][i])
  {
    forall i | i in ops ensures Evolves(ops[i], ops[id := op][i]) {
      if i != id { EvolvesReflexive(i, ops[i]); }
    }
  }

  lemma EvolvesReflexive(id: nat, op: Op)
    requires OpInv(id, op)
    ensures Evolves(op, op)
  {
  }

  lemma OnKeeps(s: State, id: nat, step: OpStep)
    requires Inv(s) && KeepsUnrecorded(s, On(id, step)) && id in s.ops
    ensures Inv(Next(s, On(id, step))) && StateEvolves(s, Next(s, On(id, step)))
  {
    assert OpInv(id, s.ops[id]);
    var op := StepInSystem(s, id, step);
    OneOpKeeps(s, id, op);
  }

  lemma StepInSystem(s: State, id: nat, step: OpStep) returns (op: Op)
    requires id in s.ops && OpInv(id, s.ops[id]) && KeepsUnrecorded(s, On(id, step))
    ensures Keeps(id, s.ops[id], op, Free(s, id)) && Next(s, On(id, step)) == s.(ops := s.ops[id := op])
  {
    op := StepResult(id, s.ops[id], Free(s, id), s.now, step);
  }

  /** The result of a step, by what it keeps. */
  lemma StepResult(id: nat, op: Op, free: bool, now: int, step: OpStep) returns (after: Op)
    requires OpInv(id, op) && (step.HostForget? ==> op.row.hostGeneration > 0)
    ensures after == OpNext(id, op, free, now, step) && Keeps(id, op, after, free)
  {
    after := OpNext(id, op, free, now, step);
    OpStepKeeps(id, op, free, now, step);
  }

  lemma PlanKeeps(s: State, id: nat, typ: OperationType, installation: nat, planHash: nat)
    requires Inv(s) && id !in s.ops
    ensures Inv(Next(s, Plan(id, typ, installation, planHash))) &&
        StateEvolves(s, Next(s, Plan(id, typ, installation, planHash)))
  {
    NewOpInv(id, typ, installation, planHash, s.now);
    SameStateEvolves(s);
  }

  lemma SameStateEvolves(s: State)
    requires Inv(s)
    ensures StateEvolves(s, s)
  {
    forall id | id in s.ops ensures Evolves(s.ops[id], s.ops[id]) { EvolvesReflexive(id, s.ops[id]); }
  }

  lemma NextKeeps(s: State, step: Step)
    requires Inv(s) && KeepsUnrecorded(s, step)
    ensures Inv(Next(s, step)) && StateEvolves(s, Next(s, step))
  {
    SameStateEvolves(s);
    match step
    case Tick(_) =>
    case Plan(id, typ, installation, planHash) => if id !in s.ops { PlanKeeps(s, id, typ, installation, planHash); }
    case ExpirePlans => ExpireKeeps(s);
    case On(id, opStep) => if id in s.ops { OnKeeps(s, id, opStep); }
  }

  lemma StateEvolvesTransitive(s: State, t: State, u: State)
    requires StateEvolves(s, t) && StateEvolves(t, u)
    ensures StateEvolves(s, u)
  {
    forall id | id in s.ops ensures id in u.ops && Evolves(s.ops[id], u.ops[id]) {
      EvolvesTransitive(s.ops[id], t.ops[id], u.ops[id]);
    }
  }

  lemma {:induction false} RunKeeps(s: State, steps: seq<Step>)
    requires Inv(s) && Faithful(s, steps)
    ensures Inv(Exec(s, steps)) && StateEvolves(s, Exec(s, steps))
    decreases steps
  {
    if steps != [] {
      NextKeeps(s, steps[0]);
      RunKeeps(Next(s, steps[0]), steps[1..]);
      StateEvolvesTransitive(s, Next(s, steps[0]), Exec(s, steps));
    }
  }

  lemma {:induction false} ExecConcat(s: State, steps: seq<Step>, more: seq<Step>)
    ensures Exec(s, steps + more) == Exec(Exec(s, steps), more)
    ensures Faithful(s, steps + more) <==> Faithful(s, steps) && Faithful(Exec(s, steps), more)
    decreases steps
  {
    if steps == [] {
      assert steps + more == more;
    } else {
      assert (steps + more)[0] == steps[0] && (steps + more)[1..] == steps[1..] + more;
      ExecConcat(Next(s, steps[0]), steps[1..], more);
    }
  }

  /** Every state a faithful run reaches satisfies the invariant, and so does
      every state reached from there. */
  lemma Reaches(now: int, steps: seq<Step>, more: seq<Step>)
    requires Faithful(Start(now), steps + more)
    ensures var s := Exec(Start(now), steps);
            var t := Exec(Start(now), steps + more);
            Inv(s) && Inv(t) && StateEvolves(s, t)
  {
    ExecConcat(Start(now), steps, more);
    RunKeeps(Start(now), steps);
    RunKeeps(Exec(Start(now), steps), more);
  }

  // ---- theorems ----

  /** At-most-once execution: no interleaving, lost answer, crash after the host
      call or later loss of the journal makes the host start a second job. */
  lemma AtMostOneExecution(now: int, steps: seq<Step>, id: nat)
    requires Faithful(Start(now), steps) && id in Exec(Start(now), steps).ops
    ensures Exec(Start(now), steps).ops[id].executions <= 1
  {
    RunKeeps(Start(now), steps);
  }

  /** Terminal states are absorbing against everything still in flight. */
  lemma TerminalIsFinal(now: int, steps: seq<Step>, more: seq<Step>, id: nat)
    requires Faithful(Start(now), steps + more) && id in Exec(Start(now), steps).ops
    requires Finished(Exec(Start(now), steps).ops[id].row.state)
    ensures id in Exec(Start(now), steps + more).ops
    ensures var before := Exec(Start(now), steps).ops[id].row;
            var after := Exec(Start(now), steps + more).ops[id].row;
            after == before.(reconciliation := after.reconciliation)
  {
    Reaches(now, steps, more);
  }

  /** A cancelled operation never runs: in every later state the host has never
      started it, or the job it started is itself cancelled for good. */
  lemma CancelledNeverRuns(now: int, steps: seq<Step>, more: seq<Step>, id: nat)
    requires Faithful(Start(now), steps + more) && id in Exec(Start(now), steps).ops
    requires Exec(Start(now), steps).ops[id].row.state.Cancelled?
    ensures id in Exec(Start(now), steps + more).ops
    ensures var op := Exec(Start(now), steps + more).ops[id];
            && op.row.state.Cancelled?
            && ((op.executions == 0 && op.journal == []) || (op.journal != [] && Last(op.journal).state.Cancelled?))
  {
    Reaches(now, steps, more);
    var op := Exec(Start(now), steps + more).ops[id];
    if op.row.hostGeneration > 0 { TerminalIsLast(op); }
  }

  /** An operation the host refused to start was not started and never is. */
  lemma RefusedNeverRuns(now: int, steps: seq<Step>, more: seq<Step>, id: nat)
    requires Faithful(Start(now), steps + more) && id in Exec(Start(now), steps).ops
    requires Exec(Start(now), steps).ops[id].row.state.Failed? &&
        Exec(Start(now), steps).ops[id].row.hostGeneration == 0
    ensures id in Exec(Start(now), steps + more).ops
    ensures var op := Exec(Start(now), steps + more).ops[id];
            op.row.state.Failed? && op.executions == 0 && op.journal == []
  {
    Reaches(now, steps, more);
  }

  /** One active operation per installation, although only the statements that
      take a row out of Planned consult the index. */
  lemma OneActivePerInstallation(now: int, steps: seq<Step>, a: nat, b: nat)
    requires Faithful(Start(now), steps)
    requires var ops := Exec(Start(now), steps).ops;
             && a in ops && b in ops && ops[a].row.installation == ops[b].row.installation
             && Occupies(ops[a].row.state) && Occupies(ops[b].row.state)
    ensures a == b
  {
    RunKeeps(Start(now), steps);
  }

  /** A row carries the time it finished exactly if it is finished. */
  lemma FinishedIsStamped(now: int, steps: seq<Step>, id: nat)
    requires Faithful(Start(now), steps) && id in Exec(Start(now), steps).ops
    ensures var row := Exec(Start(now), steps).ops[id].row;
            row.finishedAt.Some? <==> Finished(row.state)
  {
    RunKeeps(Start(now), steps);
  }

  /** The row's generation never falls, the plan never changes, and a submission
      is never taken back. */
  lemma RowOnlyMovesForward(now: int, steps: seq<Step>, more: seq<Step>, id: nat)
    requires Faithful(Start(now), steps + more) && id in Exec(Start(now), steps).ops
    ensures id in Exec(Start(now), steps + more).ops
    ensures var before := Exec(Start(now), steps).ops[id];
            var after := Exec(Start(now), steps + more).ops[id];
            && before.row.hostGeneration <= after.row.hostGeneration
            && SamePlan(before.row, after.row)
            && (before.row.submittedAt.Some? ==> after.row.submittedAt == before.row.submittedAt)
            && before.journal <= after.journal && before.audit <= after.audit
  {
    Reaches(now, steps, more);
  }

  /** A row at a generation above 0 says exactly what the journal's one entry of
      that generation says, unless OAM has marked it lost. */
  lemma RowFollowsJournal(now: int, steps: seq<Step>, id: nat)
    requires Faithful(Start(now), steps) && id in Exec(Start(now), steps).ops
    requires Exec(Start(now), steps).ops[id].row.hostGeneration > 0
    ensures var op := Exec(Start(now), steps).ops[id];
            exists job | job in op.journal ::
              && job.generation == op.row.hostGeneration
              && (forall other | other in op.journal && other.generation == job.generation :: other == job)
              && (Tells(op.row, job) || MarkedLost(op.row))
  {
    RunKeeps(Start(now), steps);
    StandsAtOneEntry(Exec(Start(now), steps).ops[id]);
  }

  /** A tracked row stands at the one entry of its generation. */
  lemma StandsAtOneEntry(op: Op)
    requires WellFormed(op.journal) && Tracks(op.row, op.journal)
    ensures exists job | job in op.journal ::
              && job.generation == op.row.hostGeneration
              && (forall other | other in op.journal && other.generation == job.generation :: other == job)
              && (Tells(op.row, job) || MarkedLost(op.row))
  {
    var i :| 0 <= i < |op.journal| && op.journal[i].generation == op.row.hostGeneration
             && (MarkedLost(op.row) || Reflects(op.row, op.journal[i]));
    forall other | other in op.journal && other.generation == op.journal[i].generation ensures other == op.journal[i] {
      GenerationIsKey(op.journal, other, op.journal[i]);
    }
    if !MarkedLost(op.row) { ReflectsTells(op.row, op.journal[i]); }
  }

  /** OAM marks an operation lost only when the journal really lost a job it had
      started and reported on; and then nothing is ever resubmitted. */
  lemma LostMeansLost(now: int, steps: seq<Step>, more: seq<Step>, id: nat)
    requires Faithful(Start(now), steps + more) && id in Exec(Start(now), steps).ops
    requires MarkedLost(Exec(Start(now), steps).ops[id].row)
    ensures !Exec(Start(now), steps).ops[id].held && Exec(Start(now), steps).ops[id].executions == 1
    ensures id in Exec(Start(now), steps + more).ops && Exec(Start(now), steps + more).ops[id].executions == 1
  {
    Reaches(now, steps, more);
  }

  ghost function ConsumedOf(op: Op): set<nat> { set h | h in op.challenges && op.challenges[h].consumedAt.Some? }
  ghost function UnconsumedOf(op: Op): set<nat> { set h | h in op.challenges && op.challenges[h].consumedAt.None? }

  /** Challenge accounting: at most one challenge is open; a destructive operation
      is submitted exactly if exactly one of its challenges is used up; a backup
      has none; there is one submit audit row for a submission and none otherwise. */
  lemma ChallengeAccounting(now: int, steps: seq<Step>, id: nat)
    requires Faithful(Start(now), steps) && id in Exec(Start(now), steps).ops
    ensures var op := Exec(Start(now), steps).ops[id];
            && |UnconsumedOf(op)| <= 1
            && |ConsumedOf(op)| <= 1
            && (op.row.typ != Backup ==> (op.row.submittedAt.Some? <==> |ConsumedOf(op)| == 1))
            && (op.row.typ == Backup ==> op.challenges == map[])
            && Submissions(op.audit) == (if op.row.submittedAt.Some? then 1 else 0)
  {
    RunKeeps(Start(now), steps);
    var op := Exec(Start(now), steps).ops[id];
    forall x, y | x in ConsumedOf(op) && y in ConsumedOf(op) ensures x == y {
      assert Consumed(op.challenges, x) && Consumed(op.challenges, y);
    }
    AtMostOneElement(ConsumedOf(op));
    forall x, y | x in UnconsumedOf(op) && y in UnconsumedOf(op) ensures x == y {
      assert Unconsumed(op.challenges, x) && Unconsumed(op.challenges, y);
    }
    AtMostOneElement(UnconsumedOf(op));
    if Destructive(op.row.typ) {
      if op.row.submittedAt.Some? {
        var h :| Consumed(op.challenges, h);
        assert h in ConsumedOf(op);
      } else if ConsumedOf(op) != {} {
        var h :| h in ConsumedOf(op);
        assert Consumed(op.challenges, h);
      }
    } else {
      assert forall h :: h in op.challenges ==> BoundToPlan(op.challenges[h], op.row);
    }
  }

  /** Challenge binding: no challenge outlives its plan or names another plan,
      and the one that was used was issued to the user and session that
      submitted, was used at the moment of the submission and before it expired. */
  lemma ChallengeBinding(now: int, steps: seq<Step>, id: nat, h: nat)
    requires Faithful(Start(now), steps) && id in Exec(Start(now), steps).ops
    requires h in Exec(Start(now), steps).ops[id].challenges
    ensures var op := Exec(Start(now), steps).ops[id];
            var c := op.challenges[h];
            && c.expires <= op.row.planExpires
            && c.planHash == op.row.planHash && c.installation == op.row.installation && c.action == op.row.typ
            && (c.consumedAt.Some? ==>
                  && op.row.submittedAt == c.consumedAt && c.consumedAt.value < c.expires
                  && exists e | e in op.audit :: e.event.AuditSubmit? && e.actor == Caller(c.user, Some(c.session)))
  {
    RunKeeps(Start(now), steps);
    var op := Exec(Start(now), steps).ops[id];
    if op.challenges[h].consumedAt.Some? {
      assert Consumed(op.challenges, h);
      SubmissionIsOnRecord(op.audit);
      var e :| e in op.audit && e.event.AuditSubmit?;
      assert UsedBy(op.challenges[h], e, op.row);
      assert e.actor == Caller(op.challenges[h].user, Some(op.challenges[h].session));
    }
  }

  lemma SubmissionIsOnRecord(audit: seq<AuditEntry>)
    requires Submissions(audit) > 0
    ensures exists e | e in audit :: e.event.AuditSubmit?
  {
    if !audit[|audit| - 1].event.AuditSubmit? { SubmissionIsOnRecord(audit[..|audit| - 1]); }
  }

  // ---- the assumption on the host is needed ----

  /** The journal is lost and the operation delivered again. */
  function ForgetAndDeliver(id: nat, job: HostJob, lost: bool): seq<Step> {
    [On(id, HostForget), On(id, LockRow(Deliver)), On(id, HostSubmit(SubmitVerdict.Start(job), lost))]
  }

  /** Whatever happened before, a host that forgets a job OAM has not recorded is made to run it
      a second time. */
  lemma ForgettingUnrecordedRunsTwice(now: int, steps: seq<Step>, id: nat, job: HostJob, lost: bool)
    requires Faithful(Start(now), steps) && id in Exec(Start(now), steps).ops
    requires var op := Exec(Start(now), steps).ops[id];
             op.held && op.row.state.Queued? && op.row.hostGeneration == 0 && op.lock.None?
    ensures var all := steps + ForgetAndDeliver(id, job, lost);
            && id in Exec(Start(now), all).ops && Exec(Start(now), all).ops[id].executions == 2
            && !Faithful(Start(now), all)
  {
    var s, more := Exec(Start(now), steps), ForgetAndDeliver(id, job, lost);
    RunKeeps(Start(now), steps);
    ExecConcat(Start(now), steps, more);
    ForgottenAndDelivered(s, id, job, lost);
    if Faithful(Start(now), steps + more) { AtMostOneExecution(now, steps + more, id); }
  }

  lemma Unfold3(s: State, a: Step, b: Step, c: Step)
    ensures Exec(s, [a, b, c]) == Next(Next(Next(s, a), b), c)
  {
    assert [a, b, c] == [a] + [b] + [c];
    ExecConcat(s, [a] + [b], [c]);
    ExecConcat(s, [a], [b]);
  }

  lemma ForgottenAndDelivered(s: State, id: nat, job: HostJob, lost: bool)
    requires id in s.ops && s.ops[id].lock.None? && s.ops[id].row.state.Queued? && s.ops[id].row.hostGeneration == 0
    ensures var after := Exec(s, ForgetAndDeliver(id, job, lost));
            id in after.ops && after.ops[id].executions == s.ops[id].executions + 1
  {
    var r := ForgetAndDeliver(id, job, lost);
    Unfold3(s, r[0], r[1], r[2]);
  }

  /** Such a state is within reach: a first delivery whose answer is lost before OAM records it. */
  function LostDelivery(id: nat, job: HostJob): seq<Step> {
    [Plan(id, Backup, 0, 0), On(id, Read), On(id, SubmitTx(NewRow(Backup, 0, 0, 0), Caller(1, None), 0, None))]
    + [On(id, LockRow(Deliver)), On(id, HostSubmit(SubmitVerdict.Start(job), true)), On(id, Crash)]
  }

  lemma UnrecordedIsReachable(id: nat, job: HostJob)
    ensures var s := Exec(Start(0), LostDelivery(id, job));
            && Faithful(Start(0), LostDelivery(id, job)) && id in s.ops
            && var op := s.ops[id];
               op.held && op.row.state.Queued? && op.row.hostGeneration == 0 && op.lock.None? && op.executions == 1
  {
    var r := LostDelivery(id, job);
    var a, b := r[..3], r[3..];
    assert a == [r[0], r[1], r[2]] && b == [r[3], r[4], r[5]] && r == a + b;
    ExecConcat(Start(0), a, b);
    BackupSubmitted(id, job);
    DeliveredUnrecorded(Exec(Start(0), a), id, job);
  }

  lemma BackupSubmitted(id: nat, job: HostJob)
    ensures var r := LostDelivery(id, job);
            var s := Exec(Start(0), [r[0], r[1], r[2]]);
            && Faithful(Start(0), [r[0], r[1], r[2]]) && id in s.ops && s.ops[id].row.state.Queued?
            && s.ops[id].row.hostGeneration == 0 && s.ops[id].lock.None? && s.ops[id].executions == 0 && !s.ops[id].held
  {
    var r := LostDelivery(id, job);
    Unfold3(Start(0), r[0], r[1], r[2]);
    FaithfulSteps(Start(0), r[0], r[1], r[2]);
  }

  lemma FaithfulSteps(s: State, a: Step, b: Step, c: Step)
    requires forall t: State :: KeepsUnrecorded(t, a) && KeepsUnrecorded(t, b) && KeepsUnrecorded(t, c)
    ensures Faithful(s, [a, b, c])
  {
    assert [a, b, c][1..] == [b, c] && [b, c][1..] == [c] && [c][1..] == [];
    assert KeepsUnrecorded(s, a) && KeepsUnrecorded(Next(s, a), b) && KeepsUnrecorded(Next(Next(s, a), b), c);
    assert Faithful(Next(Next(s, a), b), [c]);
    assert Faithful(Next(s, a), [b, c]);
  }

  lemma DeliveredUnrecorded(s: State, id: nat, job: HostJob)
    requires id in s.ops && s.ops[id].row.state.Queued? && s.ops[id].row.hostGeneration == 0
             && s.ops[id].lock.None? && s.ops[id].executions == 0 && !s.ops[id].held
    ensures var r := LostDelivery(id, job);
            var after := Exec(s, [r[3], r[4], r[5]]);
            && Faithful(s, [r[3], r[4], r[5]]) && id in after.ops
            && var op := after.ops[id];
               op.executions == 1 && op.held && op.lock.None? && op.row == s.ops[id].row
  {
    var r := LostDelivery(id, job);
    Unfold3(s, r[3], r[4], r[5]);
    FaithfulSteps(s, r[3], r[4], r[5]);
  }
}
