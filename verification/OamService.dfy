/** OAM's side of the protocol as the service executes it: each request and each
    poll is a sequence of steps of the transition system, chosen by the branches
    of the code, and leaves the operation where its caller was promised. The
    object is what OAM and the host hold about one operation. A method is called
    when no other transaction holds the row: a statement that finds it locked
    waits, which is an interleaving the transition system explores. */
module OamService {
  import opened Collections
  import opened Operations
  import opened Lifecycle
  import opened LifecycleInvariant
  import opened LifecycleRuns

  datatype Result =
    | Ok
    | AuthorizationNotRequired | SessionUnbound | PlanExpired | StateError | PlanStale
    | ChallengeRequired | ChallengeMismatch | ChallengeConsumed | ChallengeExpired
    | Conflict | NotCancellable | HostError

  /** Everything but the host losing its journal. */
  type OamStep = step: OpStep | !step.HostForget? witness Read

  /** A sequence of steps of one operation at one instant. */
  function OpExec(id: nat, op: Op, free: bool, now: int, steps: seq<OamStep>): Op
    decreases steps
  {
    if steps == [] then op else OpExec(id, OpNext(id, op, free, now, steps[0]), free, now, steps[1..])
  }

  lemma {:induction false} OpExecAppend(id: nat, op: Op, free: bool, now: int, steps: seq<OamStep>, step: OamStep)
    ensures OpExec(id, op, free, now, steps + [step]) == OpNext(id, OpExec(id, op, free, now, steps), free, now, step)
    decreases steps
  {
    if steps == [] {
      assert [step][1..] == [];
      assert steps + [step] == [step];
    } else {
      assert (steps + [step])[1..] == steps[1..] + [step];
      OpExecAppend(id, OpNext(id, op, free, now, steps[0]), free, now, steps[1..], step);
    }
  }

  /** Steps of one operation are steps of the system. */
  function Lift(id: nat, steps: seq<OamStep>): seq<Step> {
    if steps == [] then [] else [On(id, steps[0])] + Lift(id, steps[1..])
  }

  lemma {:induction false} OpExecIsExec(s: State, id: nat, steps: seq<OamStep>)
    requires id in s.ops
    ensures Exec(s, Lift(id, steps)) == s.(ops := s.ops[id := OpExec(id, s.ops[id], Free(s, id), s.now, steps)])
    ensures Faithful(s, Lift(id, steps))
    decreases steps
  {
    if steps == [] {
      assert s.ops[id := s.ops[id]] == s.ops;
    } else {
      var t := Next(s, On(id, steps[0]));
      assert Lift(id, steps)[1..] == Lift(id, steps[1..]);
      OpStepKeepsInstallation(id, s.ops[id], Free(s, id), s.now, steps[0]);
      FreeDependsOnOthers(s, id, t.ops[id]);
      OpExecIsExec(t, id, steps[1..]);
      assert s.ops[id := t.ops[id]][id := Exec(s, Lift(id, steps)).ops[id]]
          == s.ops[id := Exec(s, Lift(id, steps)).ops[id]];
    }
  }

  lemma FreeDependsOnOthers(s: State, id: nat, op: Op)
    requires id in s.ops && op.row.installation == s.ops[id].row.installation
    ensures Free(s.(ops := s.ops[id := op]), id) == Free(s, id)
  {
    var t := s.(ops := s.ops[id := op]);
    forall other | other in s.ops && other != id ensures t.ops[other] == s.ops[other] { }
    assert Free(s, id) ==> Free(t, id);
    if Free(t, id) {
      forall other | other in s.ops && other != id && s.ops[other].row.installation == s.ops[id].row.installation
        ensures !Active(s.ops[other].row.state)
      {
        assert other in t.ops;
      }
    }
  }

  lemma OpStepKeepsInstallation(id: nat, op: Op, free: bool, now: int, step: OpStep)
    ensures OpNext(id, op, free, now, step).row.installation == op.row.installation
  {
  }

  /** Steps OAM takes keep the invariant of the operation. */
  lemma {:induction false} OpExecKeeps(id: nat, op: Op, free: bool, now: int, steps: seq<OamStep>)
    requires OpInv(id, op)
    ensures OpInv(id, OpExec(id, op, free, now, steps)) && Evolves(op, OpExec(id, op, free, now, steps))
    decreases steps
  {
    if steps == [] {
      EvolvesReflexive(id, op);
    } else {
      var next := OpNext(id, op, free, now, steps[0]);
      OpStepKeeps(id, op, free, now, steps[0]);
      OpExecKeeps(id, next, free, now, steps[1..]);
      EvolvesTransitive(op, next, OpExec(id, op, free, now, steps));
    }
  }

  // ---- what a request or a poll achieves ----

  /** A poll that reaches a host holding a usable entry leaves the row saying what
      that entry says. */
  lemma PollCatchesUp(id: nat, op: Op, now: int)
    requires OpInv(id, op) && op.held && CheckJob(Last(op.journal), id)
    ensures Reflects(FollowJob(op.row, Last(op.journal), now), Last(op.journal))
  {
    var last := Last(op.journal);
    if op.row.hostGeneration >= last.generation {
      var i :| 0 <= i < |op.journal| && op.journal[i].generation == op.row.hostGeneration
               && (MarkedLost(op.row) || Reflects(op.row, op.journal[i]));
      GenerationIsKey(op.journal, op.journal[i], last);
    }
  }

  /** The condition undelivered looks for under the lock. */
  predicate Undelivered(op: Op) { op.row.state.Queued? && op.row.hostGeneration == 0 }

  /** deliver: lock, ask the host to execute, record its answer or stop before that. */
  function AfterDelivery(id: nat, op: Op, free: bool, now: int, verdict: SubmitVerdict, lost: bool, commits: bool): Op {
    if !Undelivered(op) then op
    else
      var locked := op.(lock := Some(Lock(Purpose.Deliver, op.row, None)));
      var asked := OpNext(id, locked, free, now, HostSubmit(verdict, lost));
      if commits then OpNext(id, asked, free, now, Commit) else asked.(lock := None)
  }

  /** A host that has never seen the operation starts it, once, and a recorded
      answer makes the row follow the new job. */
  lemma DeliveryStarts(id: nat, op: Op, free: bool, now: int, first: HostJob, lost: bool, commits: bool)
    requires OpInv(id, op) && op.lock.None? && Undelivered(op) && op.journal == []
    ensures var after := AfterDelivery(id, op, free, now, SubmitVerdict.Start(first), lost, commits);
            && after.journal == [first] && after.held && after.executions == 1 && after.lock.None?
            && (CheckJob(first, id) && !lost && commits ==> Tells(after.row, first))
            && (lost || !commits ==> Undelivered(after))
            && (lost && commits ==> after.row == op.row.(reconciliation := HostUnreachable))
            && (!commits ==> after.row == op.row)
  {
    var after := AfterDelivery(id, op, free, now, SubmitVerdict.Start(first), lost, commits);
    if CheckJob(first, id) && !lost && commits { ReflectsTells(after.row, first); }
  }

  /** A host that already has it is not made to run it again, and a recorded
      answer brings the row up to the job. */
  lemma RedeliveryStartsNothing(id: nat, op: Op, free: bool, now: int, verdict: SubmitVerdict, lost: bool,
      commits: bool)
    requires OpInv(id, op) && op.lock.None? && Undelivered(op) && op.journal != []
    ensures var after := AfterDelivery(id, op, free, now, verdict, lost, commits);
            && after.journal == op.journal && after.held && after.executions == 1 && after.lock.None?
            && (CheckJob(Last(op.journal), id) && !lost && commits ==> Tells(after.row, Last(op.journal)))
            && (lost || !commits ==> Undelivered(after))
            && (lost && commits ==> after.row == op.row.(reconciliation := HostUnreachable))
            && (!commits ==> after.row == op.row)
  {
    var after := AfterDelivery(id, op, free, now, verdict, lost, commits);
    if CheckJob(Last(op.journal), id) && !lost && commits { ReflectsTells(after.row, Last(op.journal)); }
  }

  /** A refusal is final: the operation failed before it started. */
  lemma DeliveryRefused(id: nat, op: Op, free: bool, now: int, code: string, lost: bool, commits: bool)
    requires OpInv(id, op) && op.lock.None? && Undelivered(op) && op.journal == []
    ensures var after := AfterDelivery(id, op, free, now, Refuse(code), lost, commits);
            && after.journal == [] && after.executions == 0 && after.lock.None?
            && (!lost && commits ==>
                  && after.row.state.Failed? && after.row.finishedAt == Some(now) && after.row.errorOrigin.FromHost?
                  && after.row.errorCode == (if WellFormedCode(code) then code else "SUBMIT_REJECTED"))
            && (lost || !commits ==> Undelivered(after))
            && (lost && commits ==> after.row == op.row.(reconciliation := HostUnreachable))
            && (!commits ==> after.row == op.row)
  {
    CodeCheckIsExact(code);
  }

  /** applyJob: follow the entry, then clear a marker that says the host did not answer. */
  function AfterEntry(id: nat, op: Op, free: bool, now: int, snap: Row, job: HostJob): Op {
    OpNext(id, OpNext(id, op, free, now, ApplyJob(snap, job)), free, now, ClearMarker(snap))
  }

  /** reconcile, on a row read earlier. */
  function AfterPoll(id: nat, op: Op, free: bool, now: int, snap: Row, reachable: bool, verdict: SubmitVerdict,
      lost: bool): Op {
    if !Following(op, snap) then op
    else if !reachable then OpNext(id, op, free, now, MarkUnreachable(snap))
    else
      var asked := OpNext(id, op, free, now, AskJob(snap));
      if op.held && op.journal != [] then
        if CheckJob(Last(op.journal), id)
        then AfterEntry(id, asked, free, now, snap, Last(op.journal))
        else OpNext(id, asked, free, now, MarkUnreachable(snap))
      else if snap.hostGeneration == 0 then AfterDelivery(id, asked, free, now, verdict, lost, true)
      else OpNext(id, asked, free, now, MarkLost(snap))
  }

  /** The journal has an entry: the poll brings the row up to it, however old the
      snapshot it works from. */
  lemma PollFollows(id: nat, op: Op, free: bool, now: int, snap: Row, verdict: SubmitVerdict, lost: bool)
    requires OpInv(id, op) && op.lock.None? && Following(op, snap) && op.held && CheckJob(Last(op.journal), id)
    ensures var after := AfterPoll(id, op, free, now, snap, true, verdict, lost);
            Tells(after.row, Last(op.journal)) && after.journal == op.journal && after.executions == op.executions
  {
    var job := Last(op.journal);
    var asked := op.(answers := op.answers + {job});
    assert OpNext(id, op, free, now, AskJob(snap)) == asked;
    EntryFollowed(id, asked, free, now, snap, job);
    PollCatchesUp(id, op, now);
    ReflectsTells(FollowJob(op.row, job, now), job);
  }

  /** Applying an entry and clearing the marker changes the row as FollowJob says, up to the
      marker. */
  lemma EntryFollowed(id: nat, op: Op, free: bool, now: int, snap: Row, job: HostJob)
    requires op.lock.None? && Following(op, snap) && job in op.answers
    ensures var after := AfterEntry(id, op, free, now, snap, job);
            var row := FollowJob(op.row, job, now);
            after == op.(row := row.(reconciliation := after.row.reconciliation))
  {
  }

  /** The journal has none but did report before: nothing is resubmitted, and a
      current row ends up where an operator has to look. */
  lemma PollNoticesLoss(id: nat, op: Op, free: bool, now: int, snap: Row, verdict: SubmitVerdict, lost: bool)
    requires OpInv(id, op) && op.lock.None? && Following(op, snap) && !op.held && snap.hostGeneration > 0
    ensures var after := AfterPoll(id, op, free, now, snap, true, verdict, lost);
            && after.executions == op.executions && after.journal == op.journal
            && (snap == op.row ==>
                  && after.row.state.RecoveryRequired? && after.row.errorCode == "HOST_JOB_LOST"
                  && (after.row != op.row ==> after.row.reconciliation.HostUnknown? && !after.row.cancellable))
  {
  }

  /** The journal has none and never reported on the operation: the poll delivers
      it, unless it was delivered or cancelled since the snapshot was read. */
  lemma PollDelivers(id: nat, op: Op, free: bool, now: int, snap: Row, first: HostJob)
    requires OpInv(id, op) && op.lock.None? && Following(op, snap) && !op.held && snap.hostGeneration == 0 &&
        CheckJob(first, id)
    ensures var after := AfterPoll(id, op, free, now, snap, true, SubmitVerdict.Start(first), false);
            if Undelivered(op) then after.executions == 1 && Tells(after.row, first)
            else after.executions == op.executions && after.row == op.row
  {
    if Undelivered(op) { DeliveryStarts(id, op, free, now, first, false, true); }
  }

  /** What a request decides when an operation is not in the state it needs. */
  function ExpiredOr(row: Row): Result {
    if row.state.Cancelled? && row.errorCode == CODE_PLAN_EXPIRED then PlanExpired else StateError
  }

  /** Authorizing leaves exactly the new challenge open, and none used. */
  lemma AuthorizingOpensOne(op: Op, now: int, snap: Row, caller: Caller, hash: nat)
    requires ChallengeInv(op) && op.row.submittedAt.None? && caller.session.Some?
    ensures var after := DoAuthorize(op, now, snap, caller, hash);
            UnconsumedOf(after) == {hash} && ConsumedOf(after) == {}
  {
    var after := DoAuthorize(op, now, snap, caller, hash);
    forall h | h in ConsumedOf(after) ensures false { assert Consumed(op.challenges, h); }
  }

  lemma SubmittingUsesOne(op: Op, now: int, snap: Row, caller: Caller, challenge: Option<nat>)
    requires ChallengeInv(op) && op.row.submittedAt.None?
    requires Destructive(snap.typ) ==> challenge.Some? && Consumable(op, snap, caller, challenge.value, now)
    ensures var after := DoSubmit(op, now, snap, caller, challenge);
            && Submissions(after.audit) == Submissions(op.audit) + 1
            && (snap.typ != Backup ==> challenge.Some? && ConsumedOf(after) == {challenge.value})
  {
    var after := DoSubmit(op, now, snap, caller, challenge);
    SubmissionsAppend(op.audit, after.audit[|op.audit|]);
    if Destructive(snap.typ) {
      forall h | h in ConsumedOf(after) ensures h == challenge.value { assert !Consumed(op.challenges, h); }
    }
  }

  /** A challenge that consumeChallenge refuses, and why: every mismatch of its
      binding reads like an unknown challenge. */
  function Refusal(op: Op, snap: Row, caller: Caller, hash: nat, now: int): Result {
    if hash !in op.challenges || caller.session != Some(op.challenges[hash].session) ||
        caller.user != op.challenges[hash].user
       || op.challenges[hash].planHash != snap.planHash || op.challenges[hash].installation != snap.installation
    then ChallengeMismatch
    else if op.challenges[hash].consumedAt.Some? then ChallengeConsumed
    else if op.challenges[hash].expires <= now then ChallengeExpired
    else Ok
  }

  // ---- submission ----

  /** The operation as load leaves it: overdue plans expired, then read. */
  function LoadedOp(op: Op, now: int): Op {
    var expired := ExpireOp(op, now);
    expired.(snapshots := expired.snapshots + {expired.row})
  }

  /** What Submit decides about an operation that was just read. */
  function SubmitDecision(op: Op, free: bool, now: int, caller: Caller, planHash: nat, challenge: Option<nat>): Result {
    var destructive := Destructive(op.row.typ);
    if planHash != op.row.planHash then PlanStale
    else if op.row.submittedAt.Some? then Ok
    else if destructive && op.row.state.Planned? then ChallengeRequired
    else if op.row.state != Expected(op.row.typ) then ExpiredOr(op.row)
    else if destructive && challenge.None? then ChallengeRequired
    else if destructive && caller.session.None? then SessionUnbound
    else if destructive && !Consumable(op, op.row, caller, challenge.value, now)
    then Refusal(op, op.row, caller, challenge.value, now)
    else if op.row.planExpires <= now then StateError
    else if op.row.state.Planned? && !free then Conflict
    else Ok
  }

  /** What a submission needs: the plan named and in its time, the state its type asks for, a
      challenge that authorizes exactly this request, and a free installation. */
  predicate Submittable(op: Op, free: bool, now: int, caller: Caller, planHash: nat, challenge: Option<nat>) {
    && planHash == op.row.planHash && op.row.state == Expected(op.row.typ) && op.row.planExpires > now
    && (Destructive(op.row.typ) ==> challenge.Some? && Consumable(op, op.row, caller, challenge.value, now))
    && (op.row.state.Planned? ==> free)
  }

  /** A refused challenge is never reported as accepted. */
  lemma RefusalRefuses(op: Op, snap: Row, caller: Caller, hash: nat, now: int)
    ensures Refusal(op, snap, caller, hash, now).Ok? <==> Consumable(op, snap, caller, hash, now)
  {
  }

  lemma DecisionIsExact(op: Op, free: bool, now: int, caller: Caller, planHash: nat, challenge: Option<nat>)
    requires op.row.submittedAt.None?
    ensures SubmitDecision(op, free, now, caller, planHash, challenge).Ok?
            <==> Submittable(op, free, now, caller, planHash, challenge)
  {
    if challenge.Some? { RefusalRefuses(op, op.row, caller, challenge.value, now); }
  }

  /** Expiry decides nothing that the submission would not decide itself. */
  lemma ExpiryIsNotAccepted(op: Op, free: bool, now: int, caller: Caller, planHash: nat, challenge: Option<nat>)
    requires RowInv(op) && op.row.submittedAt.None?
    ensures var loaded := LoadedOp(op, now);
            && Submittable(loaded, free, now, caller, planHash, challenge)
                == Submittable(op, free, now, caller, planHash, challenge)
            && loaded.row.submittedAt.None?
            && (Submittable(op, free, now, caller, planHash, challenge) ==>
                loaded == op.(snapshots := loaded.snapshots))
  {
  }

  /** The transaction on an operation that was just read. */
  lemma SubmissionQueues(id: nat, op: Op, free: bool, now: int, caller: Caller, planHash: nat, challenge: Option<nat>)
    requires op.lock.None? && op.row in op.snapshots && op.row.submittedAt.None?
    requires HostInv(op) && ChallengeInv(op) && Submittable(op, free, now, caller, planHash, challenge)
    ensures var after := OpNext(id, op, free, now, SubmitTx(op.row, caller, planHash, challenge));
            && after.row == op.row.(state := Queued, submittedAt := Some(now))
            && Submissions(after.audit) == 1
            && after.audit == op.audit + [AuditEntry(AuditSubmit, caller, op.row.state, Queued)]
            && (op.row.typ != Backup ==> challenge.Some? && ConsumedOf(after) == {challenge.value})
            && after.lock.None? && after.journal == []
  {
    SubmittingUsesOne(op, now, op.row, caller, challenge);
  }

  // ---- cancellation ----

  /** What the caller of a cancellation is told for an answer of the host. */
  function CancelResult(answer: Answer): Result {
    match answer
    case Entry(_) => Ok
    case NotFound => Ok
    case Rejected(_) => NotCancellable
    case Unreachable => HostError
  }

  /** cancelUndelivered, for a row that is submitted and not recorded as delivered. */
  function AfterLateCancel(id: nat, op: Op, free: bool, now: int, stop: CancelVerdict, lost: bool): Op {
    var locked := op.(lock := Some(Lock(CancelUndelivered, op.row, None)));
    var asked := OpNext(id, locked, free, now, HostCancelLocked(stop, lost));
    OpNext(id, asked, free, now, Commit)
  }

  /** The host's answer to cancelUndelivered. */
  function LateAnswer(id: nat, op: Op, stop: CancelVerdict, lost: bool): Answer {
    if lost then Unreachable else DoHostCancel(id, op, stop).1
  }

  /** cancelUndelivered, whatever the row is by now. */
  function LateCancelled(id: nat, op: Op, free: bool, now: int, stop: CancelVerdict, lost: bool): (Result, Op) {
    if Undelivered(op)
    then (CancelResult(LateAnswer(id, op, stop, lost)), AfterLateCancel(id, op, free, now, stop, lost))
    else (StateError, op)
  }

  /** Cancelling what the host never got: it is cancelled and was never started. */
  lemma LateCancelOfUnstarted(id: nat, op: Op, free: bool, now: int, stop: CancelVerdict)
    requires OpInv(id, op) && op.lock.None? && Undelivered(op) && op.journal == []
    ensures var after := AfterLateCancel(id, op, free, now, stop, false);
            && after.row.state.Cancelled? && after.row.finishedAt == Some(now) && after.executions == 0 &&
                after.lock.None?
            && after.row.errorCode == "CANCELLED_BY_USER" && after.row.errorOrigin.FromOam?
            && after.row.reconciliation.InSync? && !after.row.cancellable
  {
  }

  /** Cancelling what the host turns out to have: the host decides, and the row
      says what it decided or stays undelivered. */
  lemma LateCancelOfStarted(id: nat, op: Op, free: bool, now: int, stop: CancelVerdict, lost: bool)
    requires OpInv(id, op) && op.lock.None? && Undelivered(op) && op.journal != []
    ensures var after := AfterLateCancel(id, op, free, now, stop, lost);
            && after.executions == 1 && after.lock.None? && op.journal <= after.journal
            && (after.row == op.row || (CheckJob(Last(after.journal), id) && Tells(after.row, Last(after.journal))))
  {
    var after := AfterLateCancel(id, op, free, now, stop, lost);
    if after.row != op.row { ReflectsTells(after.row, Last(after.journal)); }
  }

  /** Cancel after submission, on the row as it is: the host decides. late and lost are what the
      host and the network decide when an operation the host did not know is looked at once more. */
  function HostCancelled(id: nat, op: Op, free: bool, now: int, stop: CancelVerdict, late: CancelVerdict,
      lost: bool): (Result, Op) {
    var asked := OpNext(id, op, free, now, HostCancel(op.row, stop));
    match DoHostCancel(id, op, stop).1
    case Entry(job) => (Ok, AfterEntry(id, asked, free, now, op.row, job))
    case Rejected(_) => (NotCancellable, asked)
    case NotFound => if op.row.hostGeneration == 0 then LateCancelled(id, asked, free, now, late, lost)
        else (HostError, asked)
    case Unreachable => (HostError, asked)
  }

  predicate Cancelling(op: Op) { op.lock.None? && Following(op, op.row) }

  /** Never started: cancelled, and never will be started. */
  lemma CancelOfUnstarted(id: nat, op: Op, free: bool, now: int, stop: CancelVerdict, late: CancelVerdict)
    requires OpInv(id, op) && Cancelling(op) && op.journal == []
    ensures var (r, after) := HostCancelled(id, op, free, now, stop, late, false);
            r.Ok? && after.row.state.Cancelled? && after.executions == 0
  {
    LateCancelOfUnstarted(id, op, free, now, late);
  }

  /** The host stops the job: following its answer makes the row say so. */
  lemma CancelThroughHost(id: nat, op: Op, free: bool, now: int, next: HostJob, late: CancelVerdict, lost: bool)
    requires OpInv(id, op) && Cancelling(op) && op.held && CanAppend(op.journal, next) && CheckJob(next, id)
    ensures var (r, after) := HostCancelled(id, op, free, now, Stop(next), late, lost);
            r.Ok? && Tells(after.row, next) && after.journal == op.journal + [next]
  {
    AppendKeeps(id, op, next, free);
    var grown := op.(journal := op.journal + [next]);
    PollCatchesUp(id, grown, now);
    EntryFollowed(id, grown.(answers := op.answers + {next}), free, now, op.row, next);
    ReflectsTells(FollowJob(op.row, next, now), next);
  }

  /** The job is cancelled already: the row catches up with that. */
  lemma CancelOfCancelled(id: nat, op: Op, free: bool, now: int, stop: CancelVerdict, late: CancelVerdict, lost: bool)
    requires OpInv(id, op) && Cancelling(op) && op.held
    requires Last(op.journal).state.Cancelled? && CheckJob(Last(op.journal), id)
    ensures var (r, after) := HostCancelled(id, op, free, now, stop, late, lost);
            r.Ok? && Tells(after.row, Last(op.journal)) && after.journal == op.journal
  {
    var job := Last(op.journal);
    PollCatchesUp(id, op, now);
    EntryFollowed(id, op.(answers := op.answers + {job}), free, now, op.row, job);
    ReflectsTells(FollowJob(op.row, job, now), job);
  }

  /** The host will not stop the job, or has lost it: the caller is told and nothing changes. */
  lemma CancelRefused(id: nat, op: Op, free: bool, now: int, late: CancelVerdict, lost: bool)
    requires OpInv(id, op) && Cancelling(op)
    ensures op.held && !Last(op.journal).state.Cancelled? ==>
              HostCancelled(id, op, free, now, TooLate, late, lost) == (NotCancellable, op)
    ensures forall stop | !op.held && op.row.hostGeneration > 0 ::
              HostCancelled(id, op, free, now, stop, late, lost) == (HostError, op)
  {
  }

  // ---- what requests rely on ----

  /** What authorization needs: a destructive operation in its time, a session, and an
      installation that is free or already this operation's. */
  predicate Authorizable(op: Op, free: bool, now: int, caller: Caller) {
    && Destructive(op.row.typ) && caller.session.Some?
    && (op.row.state.Planned? || op.row.state.AwaitingAuthorization?)
    && op.row.planExpires > now
    && (op.row.state.Planned? ==> free)
  }

  /** The authorization transaction on an operation that was just read. */
  lemma AuthorizationOpens(id: nat, op: Op, free: bool, now: int, caller: Caller, hash: nat)
    requires op.lock.None? && op.row in op.snapshots && hash !in op.challenges && ChallengeInv(op) && RowInv(op)
    requires Authorizable(op, free, now, caller)
    ensures var after := OpNext(id, op, free, now, AuthorizeTx(op.row, caller, hash));
            && after.row == op.row.(state := AwaitingAuthorization)
            && UnconsumedOf(after) == {hash} && ConsumedOf(after) == {} && hash in after.challenges
            && after.challenges[hash].user == caller.user && caller.session == Some(after.challenges[hash].session)
            && BoundToPlan(after.challenges[hash], after.row)
            && now < after.challenges[hash].expires <= now + 5 * 60
            && after.audit == op.audit + [AuditEntry(AuditAuthorize, caller, op.row.state, AwaitingAuthorization)]
  {
    AuthorizingOpensOne(op, now, op.row, caller, hash);
  }

  /** What loading an operation does to it. */
  lemma LoadKeeps(id: nat, op: Op, free: bool, now: int)
    requires OpInv(id, op)
    ensures OpInv(id, LoadedOp(op, now))
    ensures op.row.submittedAt.Some? ==> LoadedOp(op, now) == op.(snapshots := op.snapshots + {op.row})
    ensures Terminal(op.row.state) ==> LoadedOp(op, now).row == op.row
    ensures op.row.submittedAt.None? ==> op.executions == 0 && LoadedOp(op, now).row.submittedAt.None?
  {
    CancelPlanKeeps(id, op, free, CODE_PLAN_EXPIRED, now);
    ReadKeeps(id, ExpireOp(op, now), free, now);
  }

  /** The contract of QueueSubmission, about the decision and the transaction it makes. */
  lemma QueueFacts(id: nat, op: Op, free: bool, now: int, caller: Caller, planHash: nat, challenge: Option<nat>)
    requires HostInv(op) && RowInv(op) && ChallengeInv(op) && op.lock.None?
    ensures var loaded := LoadedOp(op, now);
            var r := SubmitDecision(loaded, free, now, caller, planHash, challenge);
            var after := OpNext(id, loaded, free, now, SubmitTx(loaded.row, caller, planHash, challenge));
            && loaded.row.planHash == op.row.planHash && loaded.row.submittedAt == op.row.submittedAt
            && (op.row.submittedAt.Some? ==> loaded == op.(snapshots := loaded.snapshots))
            && (op.row.submittedAt.None? ==> (r.Ok? <==> Submittable(op, free, now, caller, planHash, challenge)))
            && (r.Ok? && op.row.submittedAt.None? ==>
                  && after.row == op.row.(state := Queued, submittedAt := Some(now))
                  && Submissions(after.audit) == 1
                  && after.audit == op.audit + [AuditEntry(AuditSubmit, caller, op.row.state, Queued)]
                  && (op.row.typ != Backup ==> challenge.Some? && ConsumedOf(after) == {challenge.value})
                  && after.lock.None? && after.journal == [])
  {
    var loaded := LoadedOp(op, now);
    LoadedFacts(op, now);
    if op.row.submittedAt.None? {
      ExpiryIsNotAccepted(op, free, now, caller, planHash, challenge);
      DecisionIsExact(loaded, free, now, caller, planHash, challenge);
      if Submittable(op, free, now, caller, planHash, challenge) {
        SubmissionQueues(id, loaded, free, now, caller, planHash, challenge);
      }
    }
  }

  lemma LoadedFacts(op: Op, now: int)
    requires RowInv(op)
    ensures var loaded := LoadedOp(op, now);
            && SamePlan(loaded.row, op.row) && loaded.row.submittedAt == op.row.submittedAt
            && loaded.challenges == op.challenges
            && (op.row.submittedAt.Some? ==> loaded == op.(snapshots := loaded.snapshots))
  {
  }

  // ---- the answers, from the stored operation alone ----

  /** The challenge was issued to this caller for this plan. */
  predicate IssuedFor(c: Challenge, row: Row, caller: Caller) {
    && c.user == caller.user && caller.session == Some(c.session)
    && c.planHash == row.planHash && c.installation == row.installation
  }

  function PlanAnswer(row: Row): Result { if row.errorCode == "PLAN_EXPIRED" then PlanExpired else StateError }

  /** What a submission must be answered. Anything but a backup needs a challenge. */
  function ExpectedAnswer(op: Op, free: bool, now: int, caller: Caller, planHash: nat, presented: Option<nat>): Result {
    var row := op.row;
    if planHash != row.planHash then PlanStale
    else if row.submittedAt.Some? then Ok
    else if row.state == OperationState.Cancelled then PlanAnswer(row)
    else if row.planExpires < now then PlanExpired
    else if row.state == Planned then
      if row.typ != Backup then ChallengeRequired
      else if row.planExpires == now then StateError
      else if free then Ok else Conflict
    else if row.typ == Backup then StateError
    else ExpectedOfChallenge(op, now, caller, presented)
  }

  /** What an authorized operation must be answered. */
  function ExpectedOfChallenge(op: Op, now: int, caller: Caller, presented: Option<nat>): Result {
    if presented.None? then ChallengeRequired
    else if caller.session.None? then SessionUnbound
    else if presented.value !in op.challenges || !IssuedFor(op.challenges[presented.value], op.row, caller)
    then ChallengeMismatch
    else if op.challenges[presented.value].consumedAt.Some? then ChallengeConsumed
    else if op.challenges[presented.value].expires <= now then ChallengeExpired
    else if op.row.planExpires == now then StateError
    else Ok
  }

  lemma SubmissionAnswered(op: Op, free: bool, now: int, caller: Caller, planHash: nat, presented: Option<nat>)
    requires RowInv(op)
    ensures SubmitDecision(LoadedOp(op, now), free, now, caller, planHash, presented)
            == ExpectedAnswer(op, free, now, caller, planHash, presented)
  {
    if presented.Some? { RefusalRefuses(op, op.row, caller, presented.value, now); }
  }

  /** What is accepted as a first submission: a backup in its time on a free installation, or an
      authorized operation whose own caller presents its live challenge. */
  lemma AcceptedSubmission(op: Op, free: bool, now: int, caller: Caller, planHash: nat, presented: Option<nat>)
    requires op.row.submittedAt.None? && ExpectedAnswer(op, free, now, caller, planHash, presented).Ok?
    ensures now < op.row.planExpires && planHash == op.row.planHash
    ensures op.row.typ != Backup ==>
      && presented.Some? && presented.value in op.challenges
      && var c := op.challenges[presented.value];
         IssuedFor(c, op.row, caller) && c.consumedAt.None? && now < c.expires
    ensures op.row.typ == Backup ==> free
  {}

  /** What an authorization must be answered. */
  function ExpectedAuthorization(op: Op, free: bool, now: int, caller: Caller): Result {
    var row := op.row;
    if row.typ == Backup then AuthorizationNotRequired
    else if caller.session.None? then SessionUnbound
    else if row.state == OperationState.Cancelled then PlanAnswer(row)
    else if row.state !in {Planned, AwaitingAuthorization} then StateError
    else if row.planExpires <= now then PlanExpired
    else if row.state == Planned && !free then Conflict
    else Ok
  }

  /** What Authorize decides about an operation that was just read. */
  function AuthorizeDecision(op: Op, free: bool, now: int, caller: Caller): Result {
    if !Destructive(op.row.typ) then AuthorizationNotRequired
    else if caller.session.None? then SessionUnbound
    else if !op.row.state.Planned? && !op.row.state.AwaitingAuthorization? then ExpiredOr(op.row)
    else if op.row.planExpires <= now then PlanExpired
    else if op.row.state.Planned? && !free then Conflict
    else Ok
  }

  lemma AuthorizationAnswered(op: Op, free: bool, now: int, caller: Caller)
    ensures AuthorizeDecision(LoadedOp(op, now), free, now, caller) == ExpectedAuthorization(op, free, now, caller)
    ensures AuthorizeDecision(LoadedOp(op, now), free, now, caller).Ok? ==>
      && Authorizable(op, free, now, caller)
      && LoadedOp(op, now) == op.(snapshots := op.snapshots + {op.row})
  {}

  /** The contract of Authorize, about the decision and the transaction it makes. */
  lemma AuthorizeFacts(id: nat, op: Op, free: bool, now: int, caller: Caller, hash: nat)
    requires OpInv(id, op) && op.lock.None? && hash !in op.challenges
    ensures
      var loaded := LoadedOp(op, now);
      var r := AuthorizeDecision(loaded, free, now, caller);
      var after := OpNext(id, loaded, free, now, AuthorizeTx(loaded.row, caller, hash));
      && r == ExpectedAuthorization(op, free, now, caller)
      && (r.Ok? ==>
            && after.row == op.row.(state := AwaitingAuthorization)
            && UnconsumedOf(after) == {hash} && ConsumedOf(after) == {} && hash in after.challenges
            && after.challenges[hash].user == caller.user && caller.session == Some(after.challenges[hash].session)
            && BoundToPlan(after.challenges[hash], after.row)
            && now < after.challenges[hash].expires <= now + 5 * 60
            && after.audit == op.audit + [AuditEntry(AuditAuthorize, caller, op.row.state, AwaitingAuthorization)])
  {
    AuthorizationAnswered(op, free, now, caller);
    if AuthorizeDecision(LoadedOp(op, now), free, now, caller).Ok? {
      AuthorizationOpens(id, LoadedOp(op, now), free, now, caller, hash);
    }
  }

  // ---- the life of a plan ----

  /** A freshly planned backup is accepted exactly on a free installation and in the fifteen
      minutes after it was planned. */
  lemma BackupLifetime(inst: nat, hash: nat, planned: int, now: int, free: bool, caller: Caller)
    requires planned <= now
    ensures SubmitDecision(LoadedOp(NewOp(NewRow(Backup, inst, hash, planned)), now), free, now, caller, hash, None).Ok?
            <==> free && now < planned + 15 * 60
  {}

  /** Any other operation that was planned and then authorized is accepted exactly with its
      challenge, from the user and session that authorized it, within five minutes of the
      authorization and fifteen of the plan. */
  lemma AuthorizedLifetime(id: nat, typ: OperationType, inst: nat, hash: nat, planned: int, authorized: int,
      now: int, free: bool, caller: Caller, h: nat, submitter: Caller, presented: Option<nat>)
    requires typ != Backup && caller.session.Some?
    requires planned <= authorized < planned + 15 * 60 && authorized <= now
    ensures
      var read := LoadedOp(NewOp(NewRow(typ, inst, hash, planned)), authorized);
      var op := OpNext(id, read, true, authorized, AuthorizeTx(read.row, caller, h));
      SubmitDecision(LoadedOp(op, now), free, now, submitter, hash, presented).Ok? <==>
        presented == Some(h) && submitter == caller && now < authorized + 5 * 60 && now < planned + 15 * 60
  {
    var read := LoadedOp(NewOp(NewRow(typ, inst, hash, planned)), authorized);
    assert read.row == NewRow(typ, inst, hash, planned) && read.row in read.snapshots;
    var op := OpNext(id, read, true, authorized, AuthorizeTx(read.row, caller, h));
    assert op == DoAuthorize(read, authorized, read.row, caller, h);
    AuthorizedAnswer(op, typ, planned, authorized, now, free, caller, h, submitter, presented);
  }

  lemma AuthorizedAnswer(op: Op, typ: OperationType, planned: int, authorized: int,
      now: int, free: bool, caller: Caller, h: nat, submitter: Caller, presented: Option<nat>)
    requires typ != Backup && caller.session.Some? && op.row.typ == typ && op.row.submittedAt.None?
    requires op.row.state == AwaitingAuthorization && op.row.planExpires == planned + 15 * 60
    requires op.challenges.Keys == {h} && op.challenges[h].consumedAt.None?
    requires IssuedFor(op.challenges[h], op.row, caller)
    requires op.challenges[h].expires == if authorized + 5 * 60 <= op.row.planExpires then authorized + 5 * 60
        else op.row.planExpires
    ensures SubmitDecision(LoadedOp(op, now), free, now, submitter, op.row.planHash, presented).Ok? <==>
        presented == Some(h) && submitter == caller && now < authorized + 5 * 60 && now < planned + 15 * 60
  {
    var loaded := LoadedOp(op, now);
    DecisionIsExact(loaded, free, now, submitter, op.row.planHash, presented);
    if presented.Some? && presented.value != h { assert presented.value !in loaded.challenges; }
  }

  /** Expiry cancels exactly the plans whose time is over and that nobody submitted. */
  lemma ExpiryIsExact(s: State, id: nat)
    requires id in s.ops
    ensures
      var before, after := s.ops[id].row, Next(s, ExpirePlans).ops[id].row;
      after == if before.state in {Planned, AwaitingAuthorization} && before.planExpires < s.now
               then before.(state := OperationState.Cancelled, errorCode := "PLAN_EXPIRED", errorOrigin := FromOam,
                            finishedAt := Some(s.now))
               else before
  {}

  // ---- what the caller of a cancellation and the reader of a row are told ----

  /** Success means that the row is cancelled or says what the host's last entry says; anything
      else leaves the row as it was. A host that did not answer is never reported as a success. */
  lemma CancelTellsTheTruth(id: nat, op: Op, free: bool, now: int, stop: CancelVerdict, late: CancelVerdict, lost: bool)
    requires OpInv(id, op) && Cancelling(op)
    ensures
      var (r, after) := HostCancelled(id, op, free, now, stop, late, lost);
      && r in {Ok, NotCancellable, HostError}
      && (r == Ok ==>
            || after.row.state == OperationState.Cancelled
            || (after.journal != [] && CheckJob(Last(after.journal), id) && Tells(after.row, Last(after.journal))))
      && (r != Ok ==> after.row == op.row)
      && (op.journal == [] && lost ==> r == HostError)
  {
    var (r, after) := HostCancelled(id, op, free, now, stop, late, lost);
    if op.journal == [] {
      if !lost { CancelOfUnstarted(id, op, free, now, stop, late); }
    } else if !op.held {
      CancelRefused(id, op, free, now, late, lost);
    } else if Last(op.journal).state == OperationState.Cancelled {
      if CheckJob(Last(op.journal), id) { CancelOfCancelled(id, op, free, now, stop, late, lost); }
    } else if stop.Stop? && CanAppend(op.journal, stop.next) {
      if CheckJob(stop.next, id) { CancelThroughHost(id, op, free, now, stop.next, late, lost); }
    }
  }

  /** A poll that does not reach the host changes the marker alone. */
  lemma PollUnreachable(id: nat, op: Op, free: bool, now: int, snap: Row, verdict: SubmitVerdict, lost: bool)
    requires op.lock.None? && Following(op, snap)
    ensures AfterPoll(id, op, free, now, snap, false, verdict, lost)
            == if snap.reconciliation.HostUnreachable? then op
               else op.(row := op.row.(reconciliation := HostUnreachable))
  {}

  /** A poll of the row as it is that reaches the host clears that marker. */
  lemma PollClearsMarker(id: nat, op: Op, free: bool, now: int, verdict: SubmitVerdict, lost: bool)
    requires op.lock.None? && Following(op, op.row) && op.held && op.journal != [] && CheckJob(Last(op.journal), id)
    ensures !AfterPoll(id, op, free, now, op.row, true, verdict, lost).row.reconciliation.HostUnreachable?
  {}

  // ---- runs ----

  /** A request starts by expiring overdue plans, of all operations; what follows are steps of
      its own operation. Together they are a run of the system that asks nothing of the host. */
  lemma RequestIsRun(s: State, id: nat, steps: seq<OamStep>)
    requires id in s.ops
    ensures var expired := Next(s, ExpirePlans);
            && id in expired.ops && expired.ops[id] == ExpireOp(s.ops[id], s.now)
            && Exec(s, [ExpirePlans] + Lift(id, steps)) == expired.(ops := expired.ops[id :=
                 OpExec(id, ExpireOp(s.ops[id], s.now), Free(expired, id), s.now, steps)])
            && Faithful(s, [ExpirePlans] + Lift(id, steps))
  {
    assert ([ExpirePlans] + Lift(id, steps))[1..] == Lift(id, steps);
    OpExecIsExec(Next(s, ExpirePlans), id, steps);
  }

  /** A request keeps the invariant of its operation, and takes nothing back. */
  lemma RequestKeeps(id: nat, op: Op, free: bool, now: int, steps: seq<OamStep>)
    requires OpInv(id, op)
    ensures var after := OpExec(id, ExpireOp(op, now), free, now, steps);
            OpInv(id, after) && Evolves(op, after)
  {
    CancelPlanKeeps(id, op, free, CODE_PLAN_EXPIRED, now);
    EvolvesReflexive(id, op);
    OpExecKeeps(id, ExpireOp(op, now), free, now, steps);
    EvolvesTransitive(op, ExpireOp(op, now), OpExec(id, ExpireOp(op, now), free, now, steps));
  }

  class Oam {
    const id: nat
    /** The operation: its row, challenges and audit rows, and the host's journal of it. */
    var op: Op
    var now: int
    /** The unique index would accept this operation becoming active. */
    var free: bool

    constructor (id: nat, op: Op, now: int, free: bool)
      ensures this.id == id && this.op == op && this.now == now && this.free == free
    {
      this.id, this.op, this.now, this.free := id, op, now, free;
    }

    /** The operation is where the steps lead from start. */
    ghost predicate Ran(start: Op, steps: seq<OamStep>)
      reads this
    {
      op == OpExec(id, start, free, now, steps)
    }

    /** One step; done extends the sequence of steps that led from start to here. */
    method Do(step: OamStep, ghost start: Op, ghost steps: seq<OamStep>) returns (ghost done: seq<OamStep>)
      requires Ran(start, steps)
      modifies this`op
      ensures op == OpNext(id, old(op), free, now, step) && done == steps + [step]
      ensures Ran(start, done)
    {
      OpExecAppend(id, start, free, now, steps, step);
      op := OpNext(id, op, free, now, step);
      done := steps + [step];
    }

    /** undelivered: lock the row and look whether it is still to be delivered. */
    method TakeLock(purpose: Purpose, ghost start: Op, ghost steps: seq<OamStep>)
      returns (locked: bool, ghost done: seq<OamStep>)
      requires Ran(start, steps) && op.lock.None?
      modifies this`op
      ensures locked == Undelivered(old(op))
      ensures op == if locked then old(op).(lock := Some(Lock(purpose, old(op).row, None))) else old(op)
      ensures Ran(start, done)
    {
      done := Do(LockRow(purpose), start, steps);
      locked := op.lock.Some?;
    }

    /** deliver: hand a submitted operation to the host unless it was delivered or
        cancelled in the meantime. commits says whether OAM lives to record the
        answer. */
    method Deliver(verdict: SubmitVerdict, lost: bool, commits: bool, ghost start: Op, ghost steps: seq<OamStep>)
      returns (ghost done: seq<OamStep>)
      requires Ran(start, steps) && op.lock.None?
      modifies this`op
      ensures op == AfterDelivery(id, old(op), free, now, verdict, lost, commits)
      ensures Ran(start, done)
    {
      var locked: bool;
      locked, done := TakeLock(Purpose.Deliver, start, steps);
      if locked {
        done := AskAndRecord(verdict, lost, commits, start, done);
      }
    }

    /** submitToHost under the lock, and the commit unless OAM stops before it. */
    method AskAndRecord(verdict: SubmitVerdict, lost: bool, commits: bool, ghost start: Op, ghost steps: seq<OamStep>)
      returns (ghost done: seq<OamStep>)
      requires Ran(start, steps)
      modifies this`op
      ensures var asked := OpNext(id, old(op), free, now, HostSubmit(verdict, lost));
              op == if commits then OpNext(id, asked, free, now, Commit) else asked.(lock := None)
      ensures Ran(start, done)
    {
      done := Do(HostSubmit(verdict, lost), start, steps);
      if commits {
        done := Do(Commit, start, done);
      } else {
        done := Do(Crash, start, done);
      }
    }

    /** applyJob with an entry the host returned. */
    method Apply(snap: Row, job: HostJob, ghost start: Op, ghost steps: seq<OamStep>) returns (ghost done: seq<OamStep>)
      requires Ran(start, steps)
      modifies this`op
      ensures op == AfterEntry(id, old(op), free, now, snap, job)
      ensures Ran(start, done)
    {
      done := Do(ApplyJob(snap, job), start, steps);
      done := Do(ClearMarker(snap), start, done);
    }

    /** The host answered a poll with its current entry. */
    method FollowEntry(snap: Row, ghost start: Op, ghost steps: seq<OamStep>) returns (ghost done: seq<OamStep>)
      requires Ran(start, steps) && op.journal != []
      modifies this`op
      ensures op == (if CheckJob(Last(old(op).journal), id)
                     then AfterEntry(id, old(op), free, now, snap, Last(old(op).journal))
                     else OpNext(id, old(op), free, now, MarkUnreachable(snap)))
      ensures Ran(start, done)
    {
      var job := Last(op.journal);
      if CheckJob(job, id) {
        done := Apply(snap, job, start, steps);
      } else {
        done := Do(MarkUnreachable(snap), start, steps);
      }
    }

    /** reconcile: bring the operation, as read earlier, up to the host's journal. */
    method Reconcile(snap: Row, reachable: bool, verdict: SubmitVerdict, lost: bool) returns (ghost steps: seq<OamStep>)
      requires op.lock.None? && snap in op.snapshots
      modifies this`op
      ensures op == AfterPoll(id, old(op), free, now, snap, reachable, verdict, lost)
      ensures Ran(old(op), steps)
    {
      ghost var start := op;
      steps := [];
      if snap.submittedAt.None? || Terminal(snap.state) {
        return;
      }
      if !reachable {
        steps := Do(MarkUnreachable(snap), start, steps);
        return;
      }
      steps := Do(AskJob(snap), start, steps);
      if op.held && op.journal != [] {
        steps := FollowEntry(snap, start, steps);
      } else if snap.hostGeneration == 0 {
        steps := Deliver(verdict, lost, true, start, steps);
      } else {
        steps := Do(MarkLost(snap), start, steps);
      }
    }

    /** load: expire overdue plans, then read the row. */
    method Load() returns (row: Row, ghost steps: seq<OamStep>)
      modifies this`op
      ensures op == LoadedOp(old(op), now) && row == op.row
      ensures Ran(ExpireOp(old(op), now), steps)
    {
      op := ExpireOp(op, now);
      ghost var start := op;
      steps := Do(Read, start, []);
      row := op.row;
    }

    /** Authorize: issue a one-use challenge, stored under hash, for a destructive
        operation. */
    method Authorize(caller: Caller, hash: nat) returns (r: Result, ghost steps: seq<OamStep>)
      requires OpInv(id, op) && op.lock.None? && hash !in op.challenges
      modifies this`op
      ensures Ran(ExpireOp(old(op), now), steps)
      ensures r == ExpectedAuthorization(old(op), free, now, caller)
      ensures r.Ok? ==>
                && op.row == old(op).row.(state := AwaitingAuthorization)
                && UnconsumedOf(op) == {hash} && ConsumedOf(op) == {}
                && op.challenges[hash].user == caller.user && caller.session == Some(op.challenges[hash].session)
                && BoundToPlan(op.challenges[hash], op.row)
                && now < op.challenges[hash].expires <= now + 5 * 60
                && op.audit == old(op).audit
                    + [AuditEntry(AuditAuthorize, caller, old(op).row.state, AwaitingAuthorization)]
      ensures r.Conflict? ==> !free
      ensures !r.Ok? ==>
          op.row == ExpireOp(old(op), now).row && op.challenges == old(op).challenges && op.audit == old(op).audit
    {
      AuthorizeFacts(id, op, free, now, caller, hash);
      var snap;
      snap, steps := Load();
      r, steps := AuthorizeRead(snap, caller, hash, ExpireOp(old(op), now), steps);
    }

    /** The transaction of Authorize on an operation that was just read. */
    method AuthorizeRead(snap: Row, caller: Caller, hash: nat, ghost start: Op, ghost steps: seq<OamStep>)
      returns (r: Result, ghost done: seq<OamStep>)
      requires Ran(start, steps) && op.row == snap
      modifies this`op
      ensures r == AuthorizeDecision(old(op), free, now, caller)
      ensures op == if r.Ok? then OpNext(id, old(op), free, now, AuthorizeTx(snap, caller, hash)) else old(op)
      ensures Ran(start, done)
    {
      done := steps;
      if !Destructive(snap.typ) {
        return AuthorizationNotRequired, done;
      }
      if caller.session.None? {
        return SessionUnbound, done;
      }
      if !snap.state.Planned? && !snap.state.AwaitingAuthorization? {
        return ExpiredOr(snap), done;
      }
      if op.row.planExpires <= now {
        return PlanExpired, done;
      }
      if op.row.state.Planned? && !free {
        return Conflict, done;
      }
      done := Do(AuthorizeTx(snap, caller, hash), start, steps);
      r := Ok;
    }

    /** The transaction of Submit on an operation that was just read. */
    method SubmitRead(snap: Row, caller: Caller, planHash: nat, challenge: Option<nat>, ghost start: Op,
        ghost steps: seq<OamStep>)
      returns (r: Result, ghost done: seq<OamStep>)
      requires Ran(start, steps) && op.row == snap
      modifies this`op
      ensures r == SubmitDecision(old(op), free, now, caller, planHash, challenge)
      ensures op == if r.Ok? && snap.submittedAt.None?
                    then OpNext(id, old(op), free, now, SubmitTx(snap, caller, planHash, challenge)) else old(op)
      ensures Ran(start, done)
    {
      done := steps;
      if planHash != snap.planHash {
        return PlanStale, done;
      }
      if snap.submittedAt.Some? {
        return Ok, done;
      }
      var destructive := Destructive(snap.typ);
      if destructive && snap.state.Planned? {
        return ChallengeRequired, done;
      }
      if snap.state != Expected(snap.typ) {
        return ExpiredOr(snap), done;
      }
      if destructive && challenge.None? {
        return ChallengeRequired, done;
      }
      if destructive && caller.session.None? {
        return SessionUnbound, done;
      }
      if destructive && !Consumable(op, snap, caller, challenge.value, now) {
        RefusalRefuses(op, snap, caller, challenge.value, now);
        return Refusal(op, snap, caller, challenge.value, now), done;
      }
      if op.row.planExpires <= now {
        return StateError, done;
      }
      if op.row.state.Planned? && !free {
        return Conflict, done;
      }
      done := Do(SubmitTx(snap, caller, planHash, challenge), start, steps);
      r := Ok;
    }

    /** The transaction of Submit: consume the challenge, queue the operation and
        put the submission on record, all or nothing. */
    method QueueSubmission(caller: Caller, planHash: nat, challenge: Option<nat>)
      returns (r: Result, ghost steps: seq<OamStep>)
      requires HostInv(op) && RowInv(op) && ChallengeInv(op) && op.lock.None?
      modifies this`op
      ensures Ran(ExpireOp(old(op), now), steps)
      ensures planHash != old(op).row.planHash ==> r.PlanStale?
      // an operation that was already submitted is returned unchanged
      ensures old(op).row.submittedAt.Some? && planHash == old(op).row.planHash ==>
          r.Ok? && op == old(op).(snapshots := op.snapshots)
      ensures r == ExpectedAnswer(old(op), free, now, caller, planHash, challenge)
      ensures r.Ok? && old(op).row.submittedAt.None? ==>
                && op.row == old(op).row.(state := Queued, submittedAt := Some(now))
                && Submissions(op.audit) == 1
                && op.audit == old(op).audit + [AuditEntry(AuditSubmit, caller, old(op).row.state, Queued)]
                && (old(op).row.typ != Backup ==> challenge.Some? && ConsumedOf(op) == {challenge.value})
                && op.lock.None? && op.journal == []
      // a refusal consumes nothing and records nothing
      ensures !r.Ok? ==> op == ExpireOp(old(op), now).(snapshots := op.snapshots)
    {
      SubmissionAnswered(op, free, now, caller, planHash, challenge);
      QueueFacts(id, op, free, now, caller, planHash, challenge);
      var snap;
      snap, steps := Load();
      r, steps := SubmitRead(snap, caller, planHash, challenge, ExpireOp(old(op), now), steps);
    }

    /** Submit: queue the submission; only then is the host asked. */
    method Submit(caller: Caller, planHash: nat, challenge: Option<nat>, verdict: SubmitVerdict, lost: bool,
        commits: bool)
      returns (r: Result, ghost steps: seq<OamStep>)
      requires OpInv(id, op) && op.lock.None?
      modifies this`op
      ensures Ran(ExpireOp(old(op), now), steps)
      ensures r.Ok? && old(op).row.submittedAt.None? ==>
                exists queued: Op ::
                  && queued.row == old(op).row.(state := Queued, submittedAt := Some(now))
                  && Submissions(queued.audit) == 1 && queued.journal == []
                  && (old(op).row.typ != Backup ==> challenge.Some? && ConsumedOf(queued) == {challenge.value})
                  && op == AfterDelivery(id, queued, free, now, verdict, lost, commits)
      ensures !r.Ok? || old(op).row.submittedAt.Some? ==>
          op.executions == old(op).executions && op.journal == old(op).journal
    {
      var queuedNow := op.row.submittedAt.None?;
      r, steps := QueueSubmission(caller, planHash, challenge);
      if r.Ok? && queuedNow {
        steps := Deliver(verdict, lost, commits, ExpireOp(old(op), now), steps);
      }
    }

    /** cancelUndelivered: hold the row while the host is asked once more. */
    method CancelUndelivered(stop: CancelVerdict, lost: bool, ghost start: Op, ghost steps: seq<OamStep>)
      returns (r: Result, ghost done: seq<OamStep>)
      requires Ran(start, steps) && op.lock.None?
      modifies this`op
      ensures (r, op) == LateCancelled(id, old(op), free, now, stop, lost)
      ensures Ran(start, done)
    {
      var locked;
      locked, done := TakeLock(Purpose.CancelUndelivered, start, steps);
      if !locked {
        return StateError, done;
      }
      done := Do(HostCancelLocked(stop, lost), start, done);
      var answer := op.lock.value.answer.value;
      done := Do(Commit, start, done);
      r := CancelResult(answer);
    }

    /** Cancel after submission: the host decides. */
    method CancelSubmitted(stop: CancelVerdict, late: CancelVerdict, lost: bool, ghost start: Op,
        ghost steps: seq<OamStep>)
      returns (r: Result, ghost done: seq<OamStep>)
      requires Ran(start, steps) && Cancelling(op)
      modifies this`op
      ensures (r, op) == HostCancelled(id, old(op), free, now, stop, late, lost)
      ensures Ran(start, done)
    {
      var snap := op.row;
      var (_, answer) := DoHostCancel(id, op, stop);
      done := Do(HostCancel(snap, stop), start, steps);
      match answer
      case Entry(job) =>
        done := Apply(snap, job, start, done);
        r := Ok;
      case Rejected(_) => r := NotCancellable;
      case NotFound =>
        if snap.hostGeneration == 0 {
          r, done := CancelUndelivered(late, lost, start, done);
        } else {
          r := HostError;
        }
      case Unreachable => r := HostError;
    }

    /** Cancel: before submission it is OAM's decision and always succeeds; after it the host
        decides, as HostCancelled and the lemmas about it say. */
    method Cancel(reachable: bool, stop: CancelVerdict, late: CancelVerdict, lost: bool)
      returns (r: Result, ghost steps: seq<OamStep>)
      requires OpInv(id, op) && op.lock.None?
      modifies this`op
      ensures Ran(ExpireOp(old(op), now), steps)
      // not submitted: cancelled, whether by this request or by expiry just before it
      ensures old(op).row.submittedAt.None? ==> r.Ok? && op.row.state.Cancelled? && op.executions == 0
      ensures old(op).row.state in {Planned, AwaitingAuthorization} ==>
                var code := if old(op).row.planExpires < now then "PLAN_EXPIRED" else "CANCELLED_BY_USER";
                op.row == old(op).row.(state := OperationState.Cancelled, errorCode := code, errorOrigin := FromOam,
                                       finishedAt := Some(now))
      // finished: a repeated cancellation is fine, anything else refused, and nothing changes
      ensures Finished(old(op).row.state) ==>
          r == (if old(op).row.state.Cancelled? then Ok else StateError) && op.row == old(op).row
      // submitted and unfinished: the host decides, if it can be asked
      ensures old(op).row.submittedAt.Some? && !Finished(old(op).row.state) ==>
                (r, op) == if reachable then HostCancelled(id, LoadedOp(old(op), now), free, now, stop, late, lost)
                           else (HostError, LoadedOp(old(op), now))
      // submitted and never started: cancelled, and never will be started
      ensures old(op).row.state.Queued? && old(op).journal == [] && reachable && !lost ==>
                r.Ok? && op.row.state.Cancelled? && op.executions == 0
      ensures old(op).row.submittedAt.Some? && !reachable ==> op.row == old(op).row
    {
      LoadKeeps(id, op, free, now);
      var snap;
      snap, steps := Load();
      if snap.state.Cancelled? {
        return Ok, steps;
      }
      if Terminal(snap.state) {
        return StateError, steps;
      }
      if snap.submittedAt.None? {
        steps := Do(CancelPlanned(snap), ExpireOp(old(op), now), steps);
        return Ok, steps;
      }
      if !reachable {
        return HostError, steps;
      }
      if op.journal == [] && !lost { CancelOfUnstarted(id, op, free, now, stop, late); }
      r, steps := CancelSubmitted(stop, late, lost, ExpireOp(old(op), now), steps);
    }
  }
}
