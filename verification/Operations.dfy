/** Whole-Appliance operations: types, states and the row OAM keeps for each of
    them, with the single-row statements that change it. */
module Operations {

  import opened Collections

  datatype OperationType = Backup | Restore | Update | Rollback | Reset

  /** Types that must be authorized with a challenge before they are submitted. */
  predicate Destructive(t: OperationType) {
    match t
    case Restore | Update | Rollback | Reset => true
    case Backup => false
  }

  datatype OperationState =
    | Planned | AwaitingAuthorization | Queued | Running | Verifying | Succeeded | Failed
    | Compensating | RolledBack | RecoveryRequired | Cancelled

  /** States the host adapter may report. */
  predicate HostOwned(s: OperationState) {
    !s.Planned? && !s.AwaitingAuthorization?
  }

  /** Nothing further happens to the operation. RecoveryRequired is not terminal. */
  predicate Terminal(s: OperationState) {
    s.Succeeded? || s.Failed? || s.RolledBack? || s.Cancelled?
  }

  /** The operation occupies its installation. */
  predicate Active(s: OperationState) {
    s.AwaitingAuthorization? || s.Queued? || s.Running? || s.Verifying? || s.Compensating? || s.RecoveryRequired?
  }

  datatype Reconciliation = InSync | HostUnreachable | HostUnknown
  datatype Origin = NoOrigin | FromOam | FromHost

  const CODE_PLAN_EXPIRED := "PLAN_EXPIRED"
  const CODE_CANCELLED_BY_USER := "CANCELLED_BY_USER"
  const CODE_HOST_JOB_LOST := "HOST_JOB_LOST"
  const CODE_SUBMIT_REJECTED := "SUBMIT_REJECTED"

  // Seconds on the database clock.
  const PLAN_TTL := 900
  const CHALLENGE_TTL := 300

  /** One row of appliance_operations. Identifiers that are only ever compared
      are integers; times are seconds on the database clock. */
  datatype Row = Row(
    typ: OperationType,
    installation: nat,
    planHash: nat,
    planExpires: int,
    state: OperationState,
    phase: string,
    hostGeneration: int,
    cancellable: bool,
    reconciliation: Reconciliation,
    errorCode: string,
    errorOrigin: Origin,
    submittedAt: Option<int>,
    finishedAt: Option<int>)

  /** One entry of the host adapter's journal, as returned to OAM. */
  datatype HostJob = HostJob(
    operationId: nat,
    state: OperationState,
    phase: string,
    generation: int,
    cancellable: bool,
    errorCode: string)

  /** Upper-case letters, digits and underscores, a letter first: a code fit to be stored. */
  predicate HostErrorCodeOK(code: string) {
    && 2 <= |code| <= 64
    && forall i | 0 <= i < |code| ::
         'A' <= code[i] <= 'Z' || (i > 0 && ('0' <= code[i] <= '9' || code[i] == '_'))
  }

  /** Entries OAM could not act on are refused before they reach a row. */
  predicate CheckJob(job: HostJob, id: nat) {
    job.operationId == id && HostOwned(job.state) && job.generation >= 1
  }

  /** The code that is stored for a code reported by the host. */
  function StoredCode(code: string): string {
    if code != "" && !HostErrorCodeOK(code) then CODE_SUBMIT_REJECTED else code
  }

  function NewRow(typ: OperationType, installation: nat, planHash: nat, now: int): Row {
    Row(typ, installation, planHash, now + PLAN_TTL, Planned, "", 0, false, InSync, "", NoOrigin, None, None)
  }

  /** UPDATE of applyJob: bring the row to a journal entry that is newer than it. */
  function FollowJob(row: Row, job: HostJob, now: int): Row {
    if row.hostGeneration < job.generation then
      row.(state := job.state,
           phase := job.phase,
           hostGeneration := job.generation,
           cancellable := job.cancellable && !Terminal(job.state),
           reconciliation := InSync,
           errorCode := StoredCode(job.errorCode),
           errorOrigin := if job.errorCode == "" then NoOrigin else FromHost,
           finishedAt := if !Terminal(job.state) then None
                         else if row.finishedAt.Some? then row.finishedAt else Some(now))
    else
      row
  }

  /** UPDATE of finishWithoutHost: a state OAM decided on its own, if the row is
      still in the state it was read in. */
  function FinishWithoutHost(row: Row, was: OperationState, state: OperationState, code: string, origin: Origin,
      now: int): Row {
    if row.state == was then
      row.(state := state,
           errorCode := code,
           errorOrigin := origin,
           reconciliation := if code == CODE_HOST_JOB_LOST then HostUnknown else InSync,
           cancellable := false,
           finishedAt := if Terminal(state) then Some(now) else None)
    else
      row
  }

  /** Cancellation of a plan nobody submitted: by the user, or by expiry. */
  function CancelPlan(row: Row, code: string, now: int): Row {
    if row.state.Planned? || row.state.AwaitingAuthorization? then
      row.(state := Cancelled, errorCode := code, errorOrigin := FromOam, finishedAt := Some(now))
    else
      row
  }

  /** The four ends of an operation. */
  predicate Finished(s: OperationState) { s in {Succeeded, Failed, RolledBack, OperationState.Cancelled} }

  /** Authorized or in the host's hands, and not finished. */
  predicate Occupies(s: OperationState) { s != Planned && !Finished(s) }

  predicate CodeChar(c: char) { 'A' <= c <= 'Z' || '0' <= c <= '9' || c == '_' }

  /** A code is 2 to 64 upper-case letters, digits and underscores, and starts with a letter. */
  predicate WellFormedCode(code: string) {
    2 <= |code| <= 64 && 'A' <= code[0] <= 'Z' && forall i | 0 <= i < |code| :: CodeChar(code[i])
  }

  /** The check accepts exactly the well-formed codes. */
  lemma CodeCheckIsExact(code: string)
    ensures HostErrorCodeOK(code) <==> WellFormedCode(code)
  {
    assert forall i | 0 <= i < |code| :: CodeChar(code[i]) || !CodeChar(code[i]);
  }

  /** hostErrorCodeOK. */
  method CheckErrorCode(code: string) returns (ok: bool)
    ensures ok <==> WellFormedCode(code)
  {
    CodeCheckIsExact(code);
    if |code| < 2 || |code| > 64 {
      return false;
    }
    for i := 0 to |code|
      invariant forall j | 0 <= j < i ::
          'A' <= code[j] <= 'Z' || (j > 0 && ('0' <= code[j] <= '9' || code[j] == '_'))
    {
      var c := code[i];
      if !('A' <= c <= 'Z' || (i > 0 && ('0' <= c <= '9' || c == '_'))) {
        return false;
      }
    }
    return true;
  }

  /** What is stored is the code of the entry, or the fixed one in its place. */
  lemma StoredCodeTells(code: string)
    ensures StoredCode(code) == if CodeKept(code) then code else "SUBMIT_REJECTED"
  {
    CodeCheckIsExact(code);
  }

  /** An entry is usable exactly if it is for the operation, in a state a host reports, and counted. */
  lemma UsableExactly(job: HostJob, id: nat)
    ensures CheckJob(job, id) <==>
      job.operationId == id && job.generation >= 1 && job.state !in {Planned, AwaitingAuthorization}
  {}

  /** The row says exactly what a journal entry says. */
  predicate Reflects(row: Row, job: HostJob) {
    && row.hostGeneration == job.generation
    && row.state == job.state
    && row.phase == job.phase
    && row.cancellable == (job.cancellable && !Terminal(job.state))
    && row.errorCode == StoredCode(job.errorCode)
    && row.errorOrigin == (if job.errorCode == "" then NoOrigin else FromHost)
  }

  /** The same for a reader of the row: an empty or well-formed code of the host is the row's code,
      any other is replaced by a fixed one, and what is finished cannot be cancelled. */
  predicate Tells(row: Row, job: HostJob) {
    && row.hostGeneration == job.generation && row.state == job.state && row.phase == job.phase
    && row.cancellable == (job.cancellable && !Finished(job.state))
    && row.errorCode == (if CodeKept(job.errorCode) then job.errorCode else "SUBMIT_REJECTED")
    && (row.errorOrigin.NoOrigin? <==> job.errorCode == "") && !row.errorOrigin.FromOam?
  }

  predicate CodeKept(code: string) { code == "" || WellFormedCode(code) }

  lemma ReflectsTells(row: Row, job: HostJob)
    requires Reflects(row, job)
    ensures Tells(row, job)
  {
    StoredCodeTells(job.errorCode);
  }

  /** The row carries OAM's own verdict that the journal lost the operation. */
  predicate MarkedLost(row: Row) {
    row.state.RecoveryRequired? && row.errorCode == CODE_HOST_JOB_LOST && row.errorOrigin.FromOam?
  }

  /** What planning fixed and nothing changes afterwards. */
  predicate SamePlan(a: Row, b: Row) {
    a.typ == b.typ && a.installation == b.installation && a.planHash == b.planHash && a.planExpires == b.planExpires
  }
}
