/** The operation protocol between OAM and the host adapter as a transition
    system. Everything the two parties hold about one operation is kept
    together, because every statement and every host call names exactly one
    operation id; only the one-active-per-installation index and plan expiry
    look across operations.

    A step is one bare SQL statement, one plain transaction, or one host call.
    The two places that call the host inside a transaction (deliver and
    cancelUndelivered) are three steps, lock / host effect / commit, and a crash
    can fall between any two of them. */
module Lifecycle {
  import opened Collections
  import opened Operations

  datatype Caller = Caller(user: nat, session: Option<nat>)

  datatype Challenge = Challenge(
    user: nat, session: nat, planHash: nat, installation: nat, action: OperationType,
    expires: int, consumedAt: Option<int>)

  datatype AuditEvent = AuditAuthorize | AuditSubmit
  datatype AuditEntry = AuditEntry(event: AuditEvent, actor: Caller, oldState: OperationState, newState: OperationState)

  /** What a host call inside a transaction answered. A lost answer and an
      unusable one are both Unreachable. */
  datatype Answer = Entry(job: HostJob) | Rejected(code: string) | NotFound | Unreachable
  datatype Purpose = Deliver | CancelUndelivered
  /** The holder of the row lock: why it was taken, the row as read under it,
      and the host's answer once there is one. */
  datatype Lock = Lock(purpose: Purpose, row: Row, answer: Option<Answer>)

  /** One operation: its row, its challenges by hash, its audit rows, the host's
      journal of it (every entry so far, whether the journal still holds it, how
      often a job was started), the row lock, and what is in flight: rows read
      earlier, entries returned earlier, and reads that were answered "no such
      job". In-flight values never go away, so every delay, repetition and
      reordering is a run. */
  datatype Op = Op(
    row: Row,
    challenges: map<nat, Challenge>,
    audit: seq<AuditEntry>,
    journal: seq<HostJob>,
    held: bool,
    executions: nat,
    lock: Option<Lock>,
    snapshots: set<Row>,
    answers: set<HostJob>,
    absent: set<Row>)

  datatype SubmitVerdict = Start(first: HostJob) | Refuse(code: string)
  datatype CancelVerdict = Stop(next: HostJob) | TooLate

  datatype OpStep =
    | Read                                                            // SELECT of the row
    | AuthorizeTx(snap: Row, caller: Caller, hash: nat)
    | SubmitTx(snap: Row, caller: Caller, planHash: nat, challenge: Option<nat>)
    | CancelPlanned(snap: Row)
    | LockRow(purpose: Purpose)                                       // SELECT ... FOR UPDATE
    | HostSubmit(verdict: SubmitVerdict, lost: bool)                  // host call of deliver
    | HostCancelLocked(stop: CancelVerdict, lost: bool)               // host call of cancelUndelivered
    | Commit
    | Crash                                                           // rollback, failed commit or process death
    | AskJob(snap: Row)                                               // host call of reconcile
    | HostCancel(snap: Row, stop: CancelVerdict)                      // host call of Cancel
    | ApplyJob(snap: Row, job: HostJob)
    | ClearMarker(snap: Row)
    | MarkUnreachable(snap: Row)
    | MarkLost(snap: Row)
    | HostAdvance(next: HostJob)
    | HostForget

  function NewOp(row: Row): Op {
    Op(row, map[], [], [], false, 0, None, {}, {}, {})
  }

  // ---- the host ----

  function Last(journal: seq<HostJob>): HostJob
    requires journal != []
  {
    journal[|journal| - 1]
  }

  /** The contract of the journal: generations rise with every change and a
      terminal entry is final. */
  predicate CanAppend(journal: seq<HostJob>, next: HostJob) {
    journal != [] ==> Last(journal).generation < next.generation && !Terminal(Last(journal).state)
  }

  function Usable(job: HostJob, id: nat): Answer {
    if CheckJob(job, id) then Entry(job) else Unreachable
  }

  /** Submit is idempotent on the operation id: a job the journal holds is
      returned as it stands. */
  function DoHostSubmit(id: nat, op: Op, verdict: SubmitVerdict): (Op, Answer) {
    if op.held && op.journal != [] then (op, Usable(Last(op.journal), id))
    else match verdict
      case Refuse(code) => (op, Rejected(code))
      case Start(first) =>
        (op.(journal := [first], held := true, executions := op.executions + 1), Usable(first, id))
  }

  /** Cancel: the host decides whether the job can still be stopped. */
  function DoHostCancel(id: nat, op: Op, stop: CancelVerdict): (Op, Answer) {
    if !op.held || op.journal == [] then (op, NotFound)
    else if Last(op.journal).state.Cancelled? then (op, Usable(Last(op.journal), id))
    else if stop.Stop? && CanAppend(op.journal, stop.next) then
      (op.(journal := op.journal + [stop.next]), Usable(stop.next, id))
    else (op, Rejected("OPERATION_NOT_CANCELLABLE"))
  }

  // ---- OAM ----

  function Expected(t: OperationType): OperationState {
    if Destructive(t) then AwaitingAuthorization else Planned
  }

  function UnconsumedRemoved(challenges: map<nat, Challenge>): map<nat, Challenge> {
    map h | h in challenges && challenges[h].consumedAt.Some? :: challenges[h]
  }

  /** The single UPDATE of consumeChallenge gets its row. */
  predicate Consumable(op: Op, snap: Row, caller: Caller, hash: nat, now: int) {
    && hash in op.challenges
    && caller.session.Some?
    && var c := op.challenges[hash];
       && c.user == caller.user && c.session == caller.session.value
       && c.planHash == snap.planHash && c.installation == snap.installation
       && c.consumedAt.None? && c.expires > now
  }

  predicate CanAuthorize(op: Op, free: bool, now: int, snap: Row, caller: Caller, hash: nat) {
    && op.lock.None? && snap in op.snapshots
    && Destructive(snap.typ) && caller.session.Some?
    && (snap.state.Planned? || snap.state.AwaitingAuthorization?)
    && (op.row.state.Planned? || op.row.state.AwaitingAuthorization?) && op.row.planExpires > now
    && (op.row.state.Planned? ==> free)
    && hash !in op.challenges
  }

  function DoAuthorize(op: Op, now: int, snap: Row, caller: Caller, hash: nat): Op
    requires caller.session.Some?
  {
    var ttl := now + CHALLENGE_TTL;
    var c := Challenge(caller.user, caller.session.value, op.row.planHash, op.row.installation, op.row.typ,
                       if ttl <= op.row.planExpires then ttl else op.row.planExpires, None);
    op.(row := op.row.(state := AwaitingAuthorization),
        challenges := UnconsumedRemoved(op.challenges)[hash := c],
        audit := op.audit + [AuditEntry(AuditAuthorize, caller, snap.state, AwaitingAuthorization)])
  }

  predicate CanSubmit(op: Op, free: bool, now: int, snap: Row, caller: Caller, planHash: nat, challenge: Option<nat>) {
    && op.lock.None? && snap in op.snapshots
    && planHash == snap.planHash && snap.submittedAt.None? && snap.state == Expected(snap.typ)
    && (Destructive(snap.typ) ==> challenge.Some? && Consumable(op, snap, caller, challenge.value, now))
    && op.row.state == Expected(snap.typ) && op.row.planExpires > now
    && (op.row.state.Planned? ==> free)
  }

  function DoSubmit(op: Op, now: int, snap: Row, caller: Caller, challenge: Option<nat>): Op {
    var used := if Destructive(snap.typ) && challenge.Some? && challenge.value in op.challenges
                then op.challenges[challenge.value := op.challenges[challenge.value].(consumedAt := Some(now))]
                else op.challenges;
    op.(row := op.row.(state := Queued, submittedAt := Some(now)),
        challenges := used,
        audit := op.audit + [AuditEntry(AuditSubmit, caller, snap.state, Queued)])
  }

  /** What a transaction that asked the host writes before it commits. */
  function Record(lock: Lock, row: Row, now: int): Row {
    if lock.answer.None? then row
    else match lock.answer.value
      case Entry(job) => FollowJob(row, job, now)
      case Rejected(code) =>
        if lock.purpose.Deliver?
        then
          var stored := if HostErrorCodeOK(code) then code else CODE_SUBMIT_REJECTED;
          FinishWithoutHost(row, lock.row.state, Failed, stored, FromHost, now)
        else row
      case NotFound =>
        if lock.purpose.CancelUndelivered?
        then FinishWithoutHost(row, lock.row.state, Cancelled, CODE_CANCELLED_BY_USER, FromOam, now)
        else row
      case Unreachable =>
        if lock.purpose.Deliver? then row.(reconciliation := HostUnreachable) else row
  }

  /** A snapshot of an operation that is submitted and, as far as it knows, unfinished. */
  predicate Following(op: Op, snap: Row) {
    snap in op.snapshots && snap.submittedAt.Some? && !Terminal(snap.state)
  }

  /** One step of one operation. A step whose condition does not hold changes
      nothing. free says that no other operation occupies the installation. */
  function OpNext(id: nat, op: Op, free: bool, now: int, step: OpStep): Op {
    match step
    case Read => op.(snapshots := op.snapshots + {op.row})
    case AuthorizeTx(snap, caller, hash) =>
      if CanAuthorize(op, free, now, snap, caller, hash) then DoAuthorize(op, now, snap, caller, hash) else op
    case SubmitTx(snap, caller, planHash, challenge) =>
      if CanSubmit(op, free, now, snap, caller, planHash, challenge)
      then DoSubmit(op, now, snap, caller, challenge) else op
    case CancelPlanned(snap) =>
      if op.lock.None? && snap in op.snapshots && snap.submittedAt.None? && !Terminal(snap.state)
      then op.(row := CancelPlan(op.row, CODE_CANCELLED_BY_USER, now)) else op
    case LockRow(purpose) =>
      if op.lock.None? && op.row.state.Queued? && op.row.hostGeneration == 0
      then op.(lock := Some(Lock(purpose, op.row, None))) else op
    case HostSubmit(verdict, lost) =>
      if op.lock.Some? && op.lock.value.purpose.Deliver? && op.lock.value.answer.None? then
        var (asked, answer) := DoHostSubmit(id, op, verdict);
        asked.(lock := Some(op.lock.value.(answer := Some(if lost then Unreachable else answer))))
      else op
    case HostCancelLocked(stop, lost) =>
      if op.lock.Some? && op.lock.value.purpose.CancelUndelivered? && op.lock.value.answer.None? then
        var (asked, answer) := DoHostCancel(id, op, stop);
        asked.(lock := Some(op.lock.value.(answer := Some(if lost then Unreachable else answer))))
      else op
    case Commit =>
      if op.lock.Some? && op.lock.value.answer.Some?
      then op.(row := Record(op.lock.value, op.row, now), lock := None) else op
    case Crash => op.(lock := None)
    case AskJob(snap) =>
      if !Following(op, snap) then op
      else if op.held && op.journal != [] then
        if CheckJob(Last(op.journal), id) then op.(answers := op.answers + {Last(op.journal)}) else op
      else if snap.hostGeneration != 0 then op.(absent := op.absent + {snap})
      else op
    case HostCancel(snap, stop) =>
      if !Following(op, snap) then op
      else
        var (asked, answer) := DoHostCancel(id, op, stop);
        if answer.Entry? then asked.(answers := op.answers + {answer.job}) else asked
    case ApplyJob(snap, job) =>
      if op.lock.None? && Following(op, snap) && job in op.answers
      then op.(row := FollowJob(op.row, job, now)) else op
    case ClearMarker(snap) =>
      if op.lock.None? && Following(op, snap) && snap.reconciliation.HostUnreachable? &&
          op.row.reconciliation.HostUnreachable?
      then op.(row := op.row.(reconciliation := InSync)) else op
    case MarkUnreachable(snap) =>
      if op.lock.None? && Following(op, snap) && !snap.reconciliation.HostUnreachable?
      then op.(row := op.row.(reconciliation := HostUnreachable)) else op
    case MarkLost(snap) =>
      if op.lock.None? && Following(op, snap) && snap in op.absent &&
          !(snap.state.RecoveryRequired? && snap.errorCode == CODE_HOST_JOB_LOST)
      then op.(row := FinishWithoutHost(op.row, snap.state, RecoveryRequired, CODE_HOST_JOB_LOST, FromOam, now)) else op
    case HostAdvance(next) =>
      if op.held && CanAppend(op.journal, next) then op.(journal := op.journal + [next]) else op
    case HostForget => op.(held := false)
  }

  // ---- the whole system ----

  datatype State = State(now: int, ops: map<nat, Op>)

  datatype Step =
    | Tick(seconds: nat)
    | Plan(id: nat, typ: OperationType, installation: nat, planHash: nat)
    | ExpirePlans
    | On(id: nat, step: OpStep)

  /** No other operation occupies the installation of operation id: what the
      unique index asks of a row that becomes active. It is consulted only when
      a row leaves Planned. */
  predicate Free(s: State, id: nat)
    requires id in s.ops
  {
    forall other | other in s.ops && other != id ::
      s.ops[other].row.installation == s.ops[id].row.installation ==> !Active(s.ops[other].row.state)
  }

  function ExpireOp(op: Op, now: int): Op {
    if op.row.planExpires < now then op.(row := CancelPlan(op.row, CODE_PLAN_EXPIRED, now)) else op
  }

  function Next(s: State, step: Step): State {
    match step
    case Tick(seconds) => s.(now := s.now + seconds)
    case Plan(id, typ, installation, planHash) =>
      if id in s.ops then s else s.(ops := s.ops[id := NewOp(NewRow(typ, installation, planHash, s.now))])
    case ExpirePlans => s.(ops := map id | id in s.ops :: ExpireOp(s.ops[id], s.now))
    case On(id, step) =>
      if id in s.ops then s.(ops := s.ops[id := OpNext(id, s.ops[id], Free(s, id), s.now, step)]) else s
  }

  function Exec(s: State, steps: seq<Step>): State
    decreases steps
  {
    if steps == [] then s else Exec(Next(s, steps[0]), steps[1..])
  }

  /** The one assumption on the host beyond its contract: it does not forget an
      entry OAM has not recorded yet. */
  predicate KeepsUnrecorded(s: State, step: Step) {
    step.On? && step.step.HostForget? && step.id in s.ops ==> s.ops[step.id].row.hostGeneration > 0
  }

  predicate Faithful(s: State, steps: seq<Step>)
    decreases steps
  {
    steps == [] || (KeepsUnrecorded(s, steps[0]) && Faithful(Next(s, steps[0]), steps[1..]))
  }
}
