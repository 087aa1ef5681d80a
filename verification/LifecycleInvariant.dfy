/** What every step of the operation protocol keeps. */
module LifecycleInvariant {
  import opened Collections
  import opened Operations
  import opened Lifecycle

  ghost predicate WellFormed(journal: seq<HostJob>) {
    && (forall i, j | 0 <= i < j < |journal| :: journal[i].generation < journal[j].generation)
    && (forall i | 0 <= i < |journal| - 1 :: !Terminal(journal[i].state))
  }

  /** The row stands at one of the job's entries: it says what the entry says,
      or OAM has marked it lost since. */
  ghost predicate Tracks(row: Row, journal: seq<HostJob>) {
    exists i | 0 <= i < |journal| ::
      journal[i].generation == row.hostGeneration && (MarkedLost(row) || Reflects(row, journal[i]))
  }

  ghost predicate HostInv(op: Op) {
    && WellFormed(op.journal)
    && op.executions == (if op.journal == [] then 0 else 1)
    && (op.held ==> op.journal != [])
    && (op.journal != [] ==> op.row.submittedAt.Some?)
    && (op.journal != [] && op.row.hostGeneration == 0 ==> op.held)
  }

  ghost predicate RowInv(op: Op) {
    var row := op.row;
    && row.hostGeneration >= 0
    && (row.state.Planned? || row.state.AwaitingAuthorization? ==> row.submittedAt.None?)
    && (row.submittedAt.None? ==>
          row.hostGeneration == 0 && (row.state.Planned? || row.state.AwaitingAuthorization? || row.state.Cancelled?))
    && (row.hostGeneration == 0 && row.submittedAt.Some? ==>
        row.state.Queued? || row.state.Failed? || row.state.Cancelled?)
    && (row.hostGeneration == 0 && Terminal(row.state) ==> op.journal == [])
    && (row.hostGeneration > 0 ==> Tracks(row, op.journal))
    && (row.finishedAt.Some? <==> Terminal(row.state))
    && (MarkedLost(row) ==> row.hostGeneration > 0 && !op.held)
    && (row.errorOrigin.FromHost? ==> HostErrorCodeOK(row.errorCode))
  }

  /** A returned entry is one the journal recorded. */
  ghost predicate Genuine(id: nat, job: HostJob, journal: seq<HostJob>) {
    job in journal && CheckJob(job, id)
  }

  /** The row does not change while it is locked, and "no such job" and a
      refusal to start stay true until the holder is done. */
  ghost predicate LockInv(id: nat, op: Op) {
    op.lock.Some? ==>
      var lock := op.lock.value;
      && lock.row == op.row && op.row.state.Queued? && op.row.hostGeneration == 0
      && (lock.answer.Some? ==>
            match lock.answer.value
            case Entry(job) => Genuine(id, job, op.journal)
            case Rejected(_) => lock.purpose.Deliver? ==> op.journal == []
            case NotFound => lock.purpose.CancelUndelivered? && op.journal == []
            case Unreachable => true)
  }

  /** A row read earlier is never ahead of the row, and never disagrees with it
      about what is settled. */
  ghost predicate Past(snap: Row, row: Row) {
    && SamePlan(snap, row)
    && 0 <= snap.hostGeneration <= row.hostGeneration
    && (snap.submittedAt.Some? ==> row.submittedAt == snap.submittedAt)
    && (Terminal(snap.state) ==> row == snap.(reconciliation := row.reconciliation))
  }

  ghost predicate InFlightInv(id: nat, op: Op) {
    && (forall job | job in op.answers :: Genuine(id, job, op.journal))
    && (forall snap | snap in op.snapshots :: Past(snap, op.row))
    && (forall snap | snap in op.absent :: snap in op.snapshots && snap.hostGeneration > 0)
    && (op.absent != {} ==> !op.held)
  }

  // ---- challenges ----

  ghost predicate Consumed(cs: map<nat, Challenge>, h: nat) { h in cs && cs[h].consumedAt.Some? }
  ghost predicate Unconsumed(cs: map<nat, Challenge>, h: nat) { h in cs && cs[h].consumedAt.None? }

  /** A challenge authorizes the plan of its operation and nothing else. */
  ghost predicate BoundToPlan(c: Challenge, row: Row) {
    && c.planHash == row.planHash && c.installation == row.installation && c.action == row.typ
    && c.expires <= row.planExpires && Destructive(row.typ)
  }

  /** A consumed challenge belongs to the caller and the moment of the submission. */
  ghost predicate UsedBy(c: Challenge, e: AuditEntry, row: Row) {
    && c.user == e.actor.user && e.actor.session == Some(c.session)
    && c.consumedAt == row.submittedAt
    && (c.consumedAt.Some? ==> c.consumedAt.value < c.expires)
  }

  function Submissions(audit: seq<AuditEntry>): nat {
    if audit == [] then 0
    else Submissions(audit[..|audit| - 1]) + (if audit[|audit| - 1].event.AuditSubmit? then 1 else 0)
  }

  ghost predicate ChallengeInv(op: Op) {
    && (forall h | h in op.challenges :: BoundToPlan(op.challenges[h], op.row))
    && (forall h1, h2 | Unconsumed(op.challenges, h1) && Unconsumed(op.challenges, h2) :: h1 == h2)
    && (forall h1, h2 | Consumed(op.challenges, h1) && Consumed(op.challenges, h2) :: h1 == h2)
    && ((exists h :: Consumed(op.challenges, h)) <==> op.row.submittedAt.Some? && Destructive(op.row.typ))
    && Submissions(op.audit) == (if op.row.submittedAt.Some? then 1 else 0)
    && (forall e, h | e in op.audit && e.event.AuditSubmit? && Consumed(op.challenges, h) ::
        UsedBy(op.challenges[h], e, op.row))
  }

  ghost predicate OpInv(id: nat, op: Op) {
    HostInv(op) && RowInv(op) && LockInv(id, op) && InFlightInv(id, op) && ChallengeInv(op)
  }

  /** What no step ever takes back. A terminal row changes in nothing but its
      reconciliation marker. */
  ghost predicate Evolves(a: Op, b: Op) {
    && Past(a.row, b.row)
    && a.executions <= b.executions
    && a.journal <= b.journal
    && a.audit <= b.audit
    && a.snapshots <= b.snapshots
  }

  /** A step does not make a row active unless it was, or the installation was free. */
  ghost predicate ActivatesOnlyIfFree(a: Op, b: Op, free: bool) {
    Active(b.row.state) ==> Active(a.row.state) || free
  }

  /** The conclusion every step lemma below reaches. */
  ghost predicate Keeps(id: nat, a: Op, b: Op, free: bool) {
    OpInv(id, b) && Evolves(a, b) && ActivatesOnlyIfFree(a, b, free)
  }

  // ---- small facts ----

  lemma EvolvesTransitive(a: Op, b: Op, c: Op)
    requires Evolves(a, b) && Evolves(b, c)
    ensures Evolves(a, c)
  {
  }

  lemma KeepsTransitive(id: nat, a: Op, b: Op, c: Op, free: bool)
    requires Keeps(id, a, b, free) && Keeps(id, b, c, free)
    ensures Keeps(id, a, c, free)
  {
    EvolvesTransitive(a, b, c);
  }

  lemma RejectedCodeIsACode()
    ensures HostErrorCodeOK(CODE_SUBMIT_REJECTED)
  {
  }

  lemma SubmissionsAppend(audit: seq<AuditEntry>, e: AuditEntry)
    ensures Submissions(audit + [e]) == Submissions(audit) + (if e.event.AuditSubmit? then 1 else 0)
  {
    assert (audit + [e])[..|audit|] == audit;
  }

  lemma NoSubmissions(audit: seq<AuditEntry>)
    requires Submissions(audit) == 0
    ensures forall e | e in audit :: !e.event.AuditSubmit?
  {
    if audit != [] { NoSubmissions(audit[..|audit| - 1]); }
  }

  /** A generation names one entry of a journal. */
  lemma GenerationIsKey(journal: seq<HostJob>, a: HostJob, b: HostJob)
    requires WellFormed(journal) && a in journal && b in journal
    ensures a.generation == b.generation ==> a == b
  {
  }

  /** A row that stands at a terminal entry stands at the last one. */
  lemma TerminalIsLast(op: Op)
    requires HostInv(op) && RowInv(op) && Terminal(op.row.state) && op.row.hostGeneration > 0
    ensures op.journal != [] && Reflects(op.row, Last(op.journal))
    ensures forall job | job in op.journal :: job.generation <= op.row.hostGeneration
  {
  }

  /** Following a genuine entry never disturbs a terminal row. */
  lemma FollowKeeps(id: nat, op: Op, job: HostJob, now: int, free: bool)
    requires OpInv(id, op) && Genuine(id, job, op.journal)
    ensures Keeps(id, op, op.(row := FollowJob(op.row, job, now), lock := None), free)
  {
    var b := op.(row := FollowJob(op.row, job, now), lock := None);
    RejectedCodeIsACode();
    if Terminal(op.row.state) {
      if op.row.hostGeneration > 0 { TerminalIsLast(op); }
      assert b.row == op.row;
    }
    if op.row.hostGeneration < job.generation {
      assert !Terminal(op.row.state);
      assert Tracks(b.row, b.journal);
      assert forall snap | snap in b.snapshots :: Past(snap, b.row);
      assert RowInv(b);
    }
  }

  /** A state OAM decides on its own, under the lock, for an operation that was never started. */
  lemma FinishLockedKeeps(id: nat, op: Op, state: OperationState, code: string, origin: Origin, now: int, free: bool)
    requires OpInv(id, op) && op.lock.Some? && op.journal == []
    requires (state.Failed? && origin.FromHost? && HostErrorCodeOK(code)) || (state.Cancelled? && origin.FromOam?)
    ensures Keeps(id, op, op.(row := FinishWithoutHost(op.row, op.row.state, state, code, origin, now), lock := None),
        free)
  {
  }

  lemma RejectionKeeps(id: nat, op: Op, code: string, now: int, free: bool)
    requires OpInv(id, op) && op.lock.Some? && op.lock.value.answer == Some(Rejected(code))
    ensures Keeps(id, op, op.(row := Record(op.lock.value, op.row, now), lock := None), free)
  {
    RejectedCodeIsACode();
    if op.lock.value.purpose.Deliver? {
      var stored := if HostErrorCodeOK(code) then code else CODE_SUBMIT_REJECTED;
      FinishLockedKeeps(id, op, Failed, stored, FromHost, now, free);
    } else {
      LockKeeps(id, op, free, None);
    }
  }

  lemma LostAnswerKeeps(id: nat, op: Op, now: int, free: bool)
    requires OpInv(id, op) && op.lock.Some? && op.lock.value.answer == Some(Unreachable)
    ensures Keeps(id, op, op.(row := Record(op.lock.value, op.row, now), lock := None), free)
  {
    LockKeeps(id, op, free, None);
    if op.lock.value.purpose.Deliver? {
      MarkerKeeps(id, op.(lock := None), free, HostUnreachable);
      KeepsTransitive(id, op, op.(lock := None), op.(row := op.row.(reconciliation := HostUnreachable), lock := None),
          free);
    }
  }

  lemma CommitKeeps(id: nat, op: Op, now: int, free: bool)
    requires OpInv(id, op)
    ensures Keeps(id, op, OpNext(id, op, free, now, Commit), free)
  {
    if op.lock.Some? && op.lock.value.answer.Some? {
      match op.lock.value.answer.value
      case Entry(job) => FollowKeeps(id, op, job, now, free);
      case Rejected(code) => RejectionKeeps(id, op, code, now, free);
      case NotFound => FinishLockedKeeps(id, op, Cancelled, CODE_CANCELLED_BY_USER, FromOam, now, free);
      case Unreachable => LostAnswerKeeps(id, op, now, free);
    }
  }

  lemma AuthorizeKeeps(id: nat, op: Op, free: bool, now: int, snap: Row, caller: Caller, hash: nat)
    requires OpInv(id, op) && CanAuthorize(op, free, now, snap, caller, hash)
    ensures Keeps(id, op, DoAuthorize(op, now, snap, caller, hash), free)
  {
    var b := DoAuthorize(op, now, snap, caller, hash);
    SubmissionsAppend(op.audit, b.audit[|op.audit|]);
    NoSubmissions(op.audit);
    assert forall h :: !Consumed(op.challenges, h);
    forall h ensures !Consumed(b.challenges, h) { assert !Consumed(op.challenges, h); }
  }

  lemma SubmitKeeps(id: nat, op: Op, free: bool, now: int, snap: Row, caller: Caller, planHash: nat,
      challenge: Option<nat>)
    requires OpInv(id, op) && CanSubmit(op, free, now, snap, caller, planHash, challenge)
    ensures Keeps(id, op, DoSubmit(op, now, snap, caller, challenge), free)
  {
    var b := DoSubmit(op, now, snap, caller, challenge);
    SubmissionsAppend(op.audit, b.audit[|op.audit|]);
    NoSubmissions(op.audit);
    assert forall h :: !Consumed(op.challenges, h);
    if Destructive(snap.typ) {
      var used := challenge.value;
      assert Consumed(b.challenges, used);
      forall h | Consumed(b.challenges, h) ensures h == used { assert !Consumed(op.challenges, h); }
      assert forall h | Unconsumed(b.challenges, h) :: Unconsumed(op.challenges, h);
    }
  }

  lemma AppendKeepsJournal(journal: seq<HostJob>, next: HostJob)
    requires WellFormed(journal) && journal != [] && CanAppend(journal, next)
    ensures WellFormed(journal + [next])
    ensures forall job | job in journal :: job in journal + [next]
    ensures forall row | Tracks(row, journal) :: Tracks(row, journal + [next])
  {
    forall row | Tracks(row, journal) ensures Tracks(row, journal + [next]) {
      var i :| 0 <= i < |journal| && journal[i].generation == row.hostGeneration &&
          (MarkedLost(row) || Reflects(row, journal[i]));
      assert (journal + [next])[i] == journal[i];
    }
  }

  lemma AppendKeeps(id: nat, op: Op, next: HostJob, free: bool)
    requires OpInv(id, op) && op.held && CanAppend(op.journal, next)
    ensures Keeps(id, op, op.(journal := op.journal + [next]), free)
  {
    AppendKeepsJournal(op.journal, next);
  }

  lemma HostSubmitKeeps(id: nat, op: Op, free: bool, now: int, verdict: SubmitVerdict, lost: bool)
    requires OpInv(id, op)
    ensures Keeps(id, op, OpNext(id, op, free, now, HostSubmit(verdict, lost)), free)
  {
  }

  /** Recording an answer that is true of the journal. */
  lemma AnsweredKeeps(id: nat, op: Op, free: bool, answer: Answer)
    requires OpInv(id, op) && op.lock.Some?
    requires LockInv(id, op.(lock := Some(op.lock.value.(answer := Some(answer)))))
    ensures Keeps(id, op, op.(lock := Some(op.lock.value.(answer := Some(answer)))), free)
  {
  }

  /** What the host answers under the lock is true of the journal it leaves. */
  lemma AskedUnderLock(id: nat, op: Op, stop: CancelVerdict, lost: bool)
    requires OpInv(id, op) && op.lock.Some? && op.lock.value.purpose.CancelUndelivered?
    ensures var (asked, answer) := DoHostCancel(id, op, stop);
            && asked.lock == op.lock
            && LockInv(id, asked.(lock := Some(op.lock.value.(answer := Some(if lost then Unreachable else answer)))))
  {
  }

  lemma HostCancelLockedKeeps(id: nat, op: Op, free: bool, now: int, stop: CancelVerdict, lost: bool)
    requires OpInv(id, op)
    ensures Keeps(id, op, OpNext(id, op, free, now, HostCancelLocked(stop, lost)), free)
  {
    var after := OpNext(id, op, free, now, HostCancelLocked(stop, lost));
    if op.lock.Some? && op.lock.value.purpose.CancelUndelivered? && op.lock.value.answer.None? {
      var (asked, answer) := DoHostCancel(id, op, stop);
      AskedToCancelKeeps(id, op, stop, free);
      AskedUnderLock(id, op, stop, lost);
      AnsweredKeeps(id, asked, free, if lost then Unreachable else answer);
      KeepsTransitive(id, op, asked, after, free);
    }
  }

  lemma AnswerKeeps(id: nat, op: Op, job: HostJob, free: bool)
    requires OpInv(id, op) && Genuine(id, job, op.journal)
    ensures Keeps(id, op, op.(answers := op.answers + {job}), free)
  {
  }

  lemma AskedToCancelKeeps(id: nat, op: Op, stop: CancelVerdict, free: bool)
    requires OpInv(id, op)
    ensures var (asked, answer) := DoHostCancel(id, op, stop);
            Keeps(id, op, asked, free) && (answer.Entry? ==> Genuine(id, answer.job, asked.journal))
  {
    if op.held && stop.Stop? && CanAppend(op.journal, stop.next) { AppendKeeps(id, op, stop.next, free); }
  }

  lemma HostCancelKeeps(id: nat, op: Op, free: bool, now: int, snap: Row, stop: CancelVerdict)
    requires OpInv(id, op)
    ensures Keeps(id, op, OpNext(id, op, free, now, HostCancel(snap, stop)), free)
  {
    AskedToCancelKeeps(id, op, stop, free);
    var (asked, answer) := DoHostCancel(id, op, stop);
    if !Following(op, snap) {
      SameKeeps(id, op, free);
    } else if answer.Entry? {
      AnswerKeeps(id, asked, answer.job, free);
      KeepsTransitive(id, op, asked, asked.(answers := op.answers + {answer.job}), free);
    }
  }

  lemma MarkLostKeeps(id: nat, op: Op, free: bool, now: int, snap: Row)
    requires OpInv(id, op)
    ensures Keeps(id, op, OpNext(id, op, free, now, MarkLost(snap)), free)
  {
  }

  lemma CancelPlanKeeps(id: nat, op: Op, free: bool, code: string, now: int)
    requires OpInv(id, op)
    ensures Keeps(id, op, op.(row := CancelPlan(op.row, code, now)), free)
  {
  }

  lemma ReadKeeps(id: nat, op: Op, free: bool, now: int)
    requires OpInv(id, op)
    ensures Keeps(id, op, OpNext(id, op, free, now, Read), free)
  {
  }

  lemma LockKeeps(id: nat, op: Op, free: bool, lock: Option<Lock>)
    requires OpInv(id, op)
    requires lock.Some? ==>
        lock.value.answer.None? && lock.value.row == op.row && op.row.state.Queued? && op.row.hostGeneration == 0
    ensures Keeps(id, op, op.(lock := lock), free)
  {
  }

  lemma AskJobKeeps(id: nat, op: Op, free: bool, now: int, snap: Row)
    requires OpInv(id, op)
    ensures Keeps(id, op, OpNext(id, op, free, now, AskJob(snap)), free)
  {
    SameKeeps(id, op, free);
    if Following(op, snap) {
      if op.held {
        if CheckJob(Last(op.journal), id) { AnswerKeeps(id, op, Last(op.journal), free); }
      } else if snap.hostGeneration != 0 {
        AbsenceKeeps(id, op, snap, free);
      }
    }
  }

  lemma AbsenceKeeps(id: nat, op: Op, snap: Row, free: bool)
    requires OpInv(id, op) && !op.held && snap in op.snapshots && snap.hostGeneration != 0
    ensures Keeps(id, op, op.(absent := op.absent + {snap}), free)
  {
  }

  lemma MarkerKeeps(id: nat, op: Op, free: bool, marker: Reconciliation)
    requires OpInv(id, op) && op.lock.None?
    ensures Keeps(id, op, op.(row := op.row.(reconciliation := marker)), free)
  {
  }

  lemma ForgetKeeps(id: nat, op: Op, free: bool)
    requires OpInv(id, op) && op.row.hostGeneration > 0
    ensures Keeps(id, op, op.(held := false), free)
  {
  }

  lemma SameKeeps(id: nat, op: Op, free: bool)
    requires OpInv(id, op)
    ensures Keeps(id, op, op, free)
  {
  }

  lemma ApplyJobKeeps(id: nat, op: Op, free: bool, now: int, snap: Row, job: HostJob)
    requires OpInv(id, op)
    ensures Keeps(id, op, OpNext(id, op, free, now, ApplyJob(snap, job)), free)
  {
    if op.lock.None? && Following(op, snap) && job in op.answers {
      FollowKeeps(id, op, job, now, free);
    } else {
      SameKeeps(id, op, free);
    }
  }

  lemma MarkKeeps(id: nat, op: Op, free: bool, now: int, step: OpStep)
    requires OpInv(id, op) && (step.ClearMarker? || step.MarkUnreachable?)
    ensures Keeps(id, op, OpNext(id, op, free, now, step), free)
  {
    SameKeeps(id, op, free);
    if op.lock.None? { MarkerKeeps(id, op, free, if step.ClearMarker? then InSync else HostUnreachable); }
  }

  /** Requests that act on an operation before it is submitted, and submission. */
  lemma RequestStepKeeps(id: nat, op: Op, free: bool, now: int, step: OpStep)
    requires OpInv(id, op) && (step.Read? || step.AuthorizeTx? || step.SubmitTx? || step.CancelPlanned?)
    ensures Keeps(id, op, OpNext(id, op, free, now, step), free)
  {
    match step
    case Read => ReadKeeps(id, op, free, now);
    case AuthorizeTx(snap, caller, hash) =>
      if CanAuthorize(op, free, now, snap, caller, hash) { AuthorizeKeeps(id, op, free, now, snap, caller, hash); }
    case SubmitTx(snap, caller, planHash, challenge) =>
      if CanSubmit(op, free, now, snap, caller, planHash, challenge) {
        SubmitKeeps(id, op, free, now, snap, caller, planHash, challenge);
      }
    case CancelPlanned(snap) => CancelPlanKeeps(id, op, free, CODE_CANCELLED_BY_USER, now);
  }

  /** The steps of deliver and cancelUndelivered. */
  lemma LockedStepKeeps(id: nat, op: Op, free: bool, now: int, step: OpStep)
    requires OpInv(id, op) && (step.LockRow? || step.HostSubmit? || step.HostCancelLocked? || step.Commit? ||
        step.Crash?)
    ensures Keeps(id, op, OpNext(id, op, free, now, step), free)
  {
    match step
    case LockRow(purpose) =>
      if op.lock.None? && op.row.state.Queued? && op.row.hostGeneration == 0 {
        LockKeeps(id, op, free, Some(Lock(purpose, op.row, None)));
      }
    case HostSubmit(verdict, lost) => HostSubmitKeeps(id, op, free, now, verdict, lost);
    case HostCancelLocked(stop, lost) => HostCancelLockedKeeps(id, op, free, now, stop, lost);
    case Commit => CommitKeeps(id, op, now, free);
    case Crash => LockKeeps(id, op, free, None);
  }

  /** The steps of reconcile and of cancelling through the host. */
  lemma FollowStepKeeps(id: nat, op: Op, free: bool, now: int, step: OpStep)
    requires OpInv(id, op)
    requires step.AskJob? || step.HostCancel? || step.ApplyJob? || step.ClearMarker? || step.MarkUnreachable? ||
        step.MarkLost?
    ensures Keeps(id, op, OpNext(id, op, free, now, step), free)
  {
    match step
    case AskJob(snap) => AskJobKeeps(id, op, free, now, snap);
    case HostCancel(snap, stop) => HostCancelKeeps(id, op, free, now, snap, stop);
    case ApplyJob(snap, job) => ApplyJobKeeps(id, op, free, now, snap, job);
    case ClearMarker(snap) => MarkKeeps(id, op, free, now, step);
    case MarkUnreachable(snap) => MarkKeeps(id, op, free, now, step);
    case MarkLost(snap) => MarkLostKeeps(id, op, free, now, snap);
  }

  lemma JournalStepKeeps(id: nat, op: Op, free: bool, now: int, step: OpStep)
    requires OpInv(id, op) && (step.HostAdvance? || step.HostForget?)
    requires step.HostForget? ==> op.row.hostGeneration > 0
    ensures Keeps(id, op, OpNext(id, op, free, now, step), free)
  {
    match step
    case HostAdvance(next) => if op.held && CanAppend(op.journal, next) { AppendKeeps(id, op, next, free); }
    case HostForget => ForgetKeeps(id, op, free);
  }

  /** Every step of one operation keeps the invariant, takes nothing back and
      occupies the installation only if it may. */
  lemma OpStepKeeps(id: nat, op: Op, free: bool, now: int, step: OpStep)
    requires OpInv(id, op)
    requires step.HostForget? ==> op.row.hostGeneration > 0
    ensures Keeps(id, op, OpNext(id, op, free, now, step), free)
  {
    if step.Read? || step.AuthorizeTx? || step.SubmitTx? || step.CancelPlanned? {
      RequestStepKeeps(id, op, free, now, step);
    } else if step.LockRow? || step.HostSubmit? || step.HostCancelLocked? || step.Commit? || step.Crash? {
      LockedStepKeeps(id, op, free, now, step);
    } else if step.HostAdvance? || step.HostForget? {
      JournalStepKeeps(id, op, free, now, step);
    } else {
      FollowStepKeeps(id, op, free, now, step);
    }
  }
}
