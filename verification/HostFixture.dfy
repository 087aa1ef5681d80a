/** The host adapter's stand-in: a journal of pretend jobs, each a position in a
    fixed script. It is proved to be a host in the sense of the protocol: what it
    does to a job's journal are exactly the journal's allowed changes. */
module HostFixture {
  import opened Collections
  import opened Operations
  import opened Lifecycle
  import opened LifecycleInvariant
  import opened OamService

  datatype Outcome = Succeed | Fail | Recovery
  datatype ScriptStep = ScriptStep(state: OperationState, phase: string)

  datatype JobRequest = JobRequest(operationId: nat, typ: OperationType, installation: nat, planHash: nat,
                                   archiveRef: string, targetReleaseRef: string)

  /** One job. irreversibleAt is the first step that can no longer be cancelled. */
  datatype Job = Job(request: JobRequest, script: seq<ScriptStep>, irreversibleAt: nat,
                     position: nat, generation: int, cancelled: bool, steppedAt: int)

  function Point(t: OperationType): string {
    match t
    case Restore => "stop-services"
    case Update | Rollback => "switch-slot"
    case Reset => "wipe-state"
    case Backup => ""
  }

  /** The states a job passes through, and its irreversible step. */
  function Script(t: OperationType, outcome: Outcome): (r: (seq<ScriptStep>, nat))
    ensures GoodScript(r.0, r.1)
  {
    var steps := [ScriptStep(Queued, ""), ScriptStep(Running, "prepare")];
    if outcome.Fail? then (steps + [ScriptStep(Failed, "")], |steps|)
    else
      var backup := Point(t) == "";
      var more := steps + [ScriptStep(Running, if backup then "archive" else Point(t))];
      var irreversibleAt := if backup then |more| else |steps|;
      if outcome.Recovery?
      then (more + [ScriptStep(Compensating, "undo"), ScriptStep(RecoveryRequired, "")], irreversibleAt)
      else (more + [ScriptStep(Verifying, "verify"), ScriptStep(Succeeded, "")], irreversibleAt)
  }

  /** What makes a script a legal life of a job: it starts queued, only its last
      step can be terminal, and by its last step it is irreversible. */
  predicate GoodScript(script: seq<ScriptStep>, irreversibleAt: nat) {
    && 1 <= irreversibleAt < |script|
    && script[0] == ScriptStep(Queued, "")
    && (forall i | 0 <= i < |script| :: HostOwned(script[i].state) && !script[i].state.Cancelled?)
    && (forall i | 0 <= i < |script| - 1 :: !Terminal(script[i].state))
  }

  function Current(j: Job): ScriptStep
    requires j.position < |j.script|
  {
    if j.cancelled then ScriptStep(Cancelled, "") else j.script[j.position]
  }

  predicate Done(j: Job) { j.cancelled || j.position == |j.script| - 1 }

  function EntryOf(j: Job): HostJob
    requires j.position < |j.script|
  {
    var now := Current(j);
    HostJob(j.request.operationId, now.state, now.phase, j.generation,
            !Done(j) && j.position < j.irreversibleAt,
            match now.state
            case Failed => "FIXTURE_FAILURE"
            case RecoveryRequired => "FIXTURE_COMPENSATION_FAILED"
            case _ => "")
  }

  /** What every operation on the journal keeps true of a job. No job is cancelled
      at or past its irreversible step. */
  predicate JobInv(j: Job) {
    && GoodScript(j.script, j.irreversibleAt)
    && j.position < |j.script|
    && j.generation == 1 + j.position + (if j.cancelled then 1 else 0)
    && (j.cancelled ==> j.position < j.irreversibleAt)
  }

  /** One step along the script. */
  function Stepped(j: Job, at: int): Job {
    j.(position := j.position + 1, generation := j.generation + 1, steppedAt := at)
  }

  /** The steps that have come due by now, one per interval. */
  function CaughtUp(j: Job, every: int, now: int): (r: Job)
    ensures j.position < |j.script| ==> r.position < |r.script|
    decreases |j.script| - j.position
  {
    if every <= 0 || Done(j) || j.position >= |j.script| || now - j.steppedAt < every then j
    else CaughtUp(Stepped(j, j.steppedAt + every), every, now)
  }

  predicate Stoppable(j: Job) { !Done(j) && j.position < j.irreversibleAt }

  function Stopped(j: Job): Job { j.(cancelled := true, generation := j.generation + 1) }

  // ---- the journal of a job ----

  /** The entry the job showed at position p, before any cancellation. */
  function EntryAt(j: Job, p: nat): HostJob
    requires p < |j.script|
  {
    EntryOf(j.(position := p, generation := p + 1, cancelled := false))
  }

  /** Every entry of the job so far. */
  function Entries(j: Job): seq<HostJob>
    requires j.position < |j.script|
  {
    seq(j.position + 1, p requires 0 <= p <= j.position => EntryAt(j, p)) + (if j.cancelled then [EntryOf(j)] else [])
  }

  /** The entries form a journal in the sense of the protocol, ending in what the
      host reports now, which OAM accepts. */
  lemma EntriesWellFormed(j: Job)
    requires JobInv(j)
    ensures WellFormed(Entries(j)) && Last(Entries(j)) == EntryOf(j) && CheckJob(EntryOf(j), j.request.operationId)
  {
    var entries := Entries(j);
    var n := j.position;
    forall p | 0 <= p <= n ensures entries[p].generation == p + 1 &&
        (p < n || j.cancelled ==> !Terminal(entries[p].state)) {
      EntryAtPosition(j, p);
    }
    EntryAtPosition(j, n);
    assert !j.cancelled ==> entries[n] == EntryOf(j);
  }

  lemma EntryAtPosition(j: Job, p: nat)
    requires JobInv(j) && p <= j.position
    ensures Entries(j)[p] == EntryAt(j, p) && EntryAt(j, p).generation == p + 1 &&
        EntryAt(j, p).state == j.script[p].state
    ensures p == j.position && !j.cancelled ==> EntryAt(j, p) == EntryOf(j)
  {
  }

  /** A step along the script appends one entry, which the journal allows. */
  lemma SteppingAppends(j: Job, at: int)
    requires JobInv(j) && !Done(j)
    ensures var k := Stepped(j, at);
            JobInv(k) && Entries(k) == Entries(j) + [EntryOf(k)] && CanAppend(Entries(j), EntryOf(k))
  {
    var k := Stepped(j, at);
    EntriesStepped(j, at);
    EntriesWellFormed(j);
    assert EntryOf(k).generation == EntryOf(j).generation + 1;
  }

  lemma EntriesStepped(j: Job, at: int)
    requires JobInv(j) && !Done(j)
    ensures Entries(Stepped(j, at)) == Entries(j) + [EntryOf(Stepped(j, at))]
  {
    var k := Stepped(j, at);
    assert forall p | 0 <= p <= j.position :: EntryAt(k, p) == EntryAt(j, p);
    assert EntryAt(k, k.position) == EntryOf(k);
  }

  /** So does a cancellation; and a job that may not be stopped is not. */
  lemma StoppingAppends(j: Job)
    requires JobInv(j) && Stoppable(j)
    ensures var k := Stopped(j);
            && JobInv(k) && Entries(k) == Entries(j) + [EntryOf(k)] && CanAppend(Entries(j), EntryOf(k))
            && EntryOf(k).state.Cancelled?
  {
    var k := Stopped(j);
    forall p | 0 <= p <= j.position ensures EntryAt(k, p) == EntryAt(j, p) { }
    EntriesWellFormed(j);
  }

  /** A terminal entry is final: the job is done, and neither time nor a cancellation moves it
      or its journal any more. */
  lemma TerminalEntryIsFinal(j: Job, every: int, now: int)
    requires JobInv(j) && Terminal(EntryOf(j).state)
    ensures Done(j) && CaughtUp(j, every, now) == j && CancelOf(j).0 == j
    ensures forall next :: !CanAppend(Entries(j), next)
  {
    EntriesWellFormed(j);
  }

  lemma {:induction false} CatchingUpKeeps(j: Job, every: int, now: int)
    requires JobInv(j)
    ensures JobInv(CaughtUp(j, every, now)) && CaughtUp(j, every, now).request == j.request
    decreases |j.script| - j.position
  {
    if every > 0 && !Done(j) && now - j.steppedAt >= every {
      CatchingUpKeeps(Stepped(j, j.steppedAt + every), every, now);
    }
  }

  /** Catching up only appends to a job's journal. */
  lemma {:induction false} CatchingUpExtends(j: Job, every: int, now: int)
    requires JobInv(j)
    ensures Entries(j) <= Entries(CaughtUp(j, every, now))
    decreases |j.script| - j.position
  {
    if every > 0 && !Done(j) && now - j.steppedAt >= every {
      var k := Stepped(j, j.steppedAt + every);
      CatchingUpExtends(k, every, now);
      SteppingExtends(j, j.steppedAt + every);
      PrefixIsTransitive(Entries(j), Entries(k), Entries(CaughtUp(k, every, now)));
    }
  }

  lemma SteppingExtends(j: Job, at: int)
    requires JobInv(j) && !Done(j)
    ensures Entries(j) <= Entries(Stepped(j, at))
  {
    SteppingAppends(j, at);
  }

  lemma PrefixIsTransitive(a: seq<HostJob>, b: seq<HostJob>, c: seq<HostJob>)
    requires a <= b <= c
    ensures a <= c
  {}

  /** Catching up in two goes is catching up in one. */
  lemma {:induction false} CatchingUpComposes(j: Job, every: int, t1: int, t2: int)
    requires t1 <= t2
    ensures CaughtUp(CaughtUp(j, every, t1), every, t2) == CaughtUp(j, every, t2)
    decreases |j.script| - j.position
  {
    if every > 0 && !Done(j) && j.position < |j.script| && t1 - j.steppedAt >= every {
      CatchingUpComposes(Stepped(j, j.steppedAt + every), every, t1, t2);
    }
  }

  /** How many whole intervals have gone by. */
  function Whole(elapsed: nat, every: nat): nat
    requires every > 0
  {
    if elapsed < every then 0 else 1 + Whole(elapsed - every, every)
  }

  lemma {:induction false} WholeIsQuotient(elapsed: nat, every: nat)
    requires every > 0
    ensures Whole(elapsed, every) == elapsed / every
    decreases elapsed
  {
    if elapsed < every {
      assert elapsed / every == 0;
    } else {
      WholeIsQuotient(elapsed - every, every);
      DivStep(elapsed, every);
    }
  }

  lemma {:induction false} CatchingUpSteps(j: Job, every: int, now: int)
    requires j.position < |j.script| && !j.cancelled && every > 0 && now >= j.steppedAt
    ensures var due := j.position + Whole(now - j.steppedAt, every);
            CaughtUp(j, every, now).position == if due < |j.script| then due else |j.script| - 1
    decreases |j.script| - j.position
  {
    if now - j.steppedAt >= every && !Done(j) {
      CatchingUpSteps(Stepped(j, j.steppedAt + every), every, now);
    }
  }

  /** Where the loop ends up: one step per whole interval, up to the last step. */
  lemma CatchingUpCounts(j: Job, every: int, now: int)
    requires JobInv(j) && !j.cancelled && every > 0 && now >= j.steppedAt
    ensures var due := j.position + (now - j.steppedAt) / every;
            CaughtUp(j, every, now).position == if due < |j.script| then due else |j.script| - 1
  {
    CatchingUpSteps(j, every, now);
    WholeIsQuotient(now - j.steppedAt, every);
  }

  lemma DivStep(x: int, d: int)
    requires d > 0 && x >= d
    ensures x / d == (x - d) / d + 1
  {
    var q, p := x / d, (x - d) / d + 1;
    assert d * q <= x < d * q + d;
    assert d * p <= x < d * p + d by { assert d * (p - 1) == d * p - d; }
    assert d * (q + 1) == d * q + d && d * (p + 1) == d * p + d;
    if q < p { MulMonotone(d, q + 1, p); }
    if p < q { MulMonotone(d, p + 1, q); }
  }

  lemma MulMonotone(d: int, a: int, b: int)
    requires d > 0 && a <= b
    ensures d * a <= d * b
  {
  }

  /** catchUp: the loop that applies the steps that have come due. */
  method CatchUp(job: Job, every: int, now: int) returns (j: Job)
    requires JobInv(job)
    ensures j == CaughtUp(job, every, now)
  {
    j := job;
    if every <= 0 {
      return;
    }
    while !Done(j) && now - j.steppedAt >= every
      invariant JobInv(j) && CaughtUp(j, every, now) == CaughtUp(job, every, now)
      decreases |j.script| - j.position
    {
      SteppingAppends(j, j.steppedAt + every);
      j := j.(position := j.position + 1, generation := j.generation + 1, steppedAt := j.steppedAt + every);
    }
  }

  /** What asking to cancel does to a job, and what it is told. */
  function CancelOf(j: Job): (Job, Answer)
    requires j.position < |j.script|
  {
    if j.cancelled then (j, Entry(EntryOf(j)))
    else if !Stoppable(j) then (j, Rejected("OPERATION_NOT_CANCELLABLE"))
    else (Stopped(j), Entry(EntryOf(Stopped(j))))
  }

  /** A cancellation is accepted exactly if the entry at that instant says it would
      be, or the job is cancelled already; it is refused from the irreversible step
      on; and an accepted one is the last entry of the journal. */
  lemma CancelDecides(j: Job)
    requires JobInv(j)
    ensures var (k, answer) := CancelOf(j);
            && JobInv(k) && k.request == j.request && Entries(j) <= Entries(k)
            && (answer.Entry? <==> EntryOf(j).cancellable || j.cancelled)
            && (answer.Entry? ==>
                answer.job == Last(Entries(k)) && answer.job.state.Cancelled? &&
                CheckJob(answer.job, j.request.operationId))
            && (j.position >= j.irreversibleAt ==> answer.Rejected? && k == j)
  {
    EntriesWellFormed(j);
    if Stoppable(j) {
      StoppingAppends(j);
      EntriesWellFormed(Stopped(j));
    }
  }

  /** A job that was just started. */
  lemma FreshJob(j: Job)
    requires GoodScript(j.script, j.irreversibleAt) && j.position == 0 && j.generation == 1 && !j.cancelled
    ensures JobInv(j) && Entries(j) == [EntryOf(j)]
    ensures EntryOf(j) == HostJob(j.request.operationId, Queued, "", 1, true, "")
  {
    assert EntryAt(j, 0) == EntryOf(j);
  }

  // ---- the fixture is a host of the protocol ----

  /** What the host holds about one operation: its job, if the journal has it, and how often
      one was started. */
  datatype Held = Held(job: Option<Job>, executions: nat)

  function NewJob(req: JobRequest, outcome: Outcome, now: int): Job {
    var (steps, irreversibleAt) := Script(req.typ, outcome);
    Job(req, steps, irreversibleAt, 0, 1, false, now)
  }

  predicate Sound(h: Held, id: nat) {
    h.job.Some? ==> JobInv(h.job.value) && h.job.value.request.operationId == id
  }

  /** submitJob: idempotent on the operation id. */
  function SubmitOf(h: Held, req: JobRequest, refusal: Option<string>, outcome: Outcome, every: int, now: int)
    : (Held, Answer)
    requires Sound(h, req.operationId)
  {
    match h.job
    case Some(j) =>
      var k := CaughtUp(j, every, now);
      (h.(job := Some(k)), Entry(EntryOf(k)))
    case None =>
      if refusal.Some? then (h, Rejected(refusal.value))
      else
        var j := NewJob(req, outcome, now);
        (Held(Some(j), h.executions + 1), Entry(EntryOf(j)))
  }

  /** getJob. */
  function GetOf(h: Held, id: nat, every: int, now: int): (Held, Answer)
    requires Sound(h, id)
  {
    match h.job
    case Some(j) =>
      var k := CaughtUp(j, every, now);
      (h.(job := Some(k)), Entry(EntryOf(k)))
    case None => (h, NotFound)
  }

  /** cancelJob. */
  function CancelHeld(h: Held, id: nat, every: int, now: int): (Held, Answer)
    requires Sound(h, id)
  {
    match h.job
    case Some(j) =>
      var (k, answer) := CancelOf(CaughtUp(j, every, now));
      (h.(job := Some(k)), answer)
    case None => (h, NotFound)
  }

  /** The protocol's view of an operation agrees with what the fixture holds. */
  ghost predicate Agrees(id: nat, op: Op, h: Held) {
    && Sound(h, id)
    && op.held == h.job.Some?
    && (op.held ==> op.journal == Entries(h.job.value))
    && op.executions == h.executions
  }

  /** Steps the host takes on its own. */
  predicate OwnSteps(steps: seq<OamStep>) { forall i | 0 <= i < |steps| :: steps[i].HostAdvance? }

  /** Every extension of a journal is a sequence of journal steps of the protocol. */
  lemma {:induction false} ExtensionIsAdvances(id: nat, op: Op, free: bool, now: int, b: seq<HostJob>)
    returns (steps: seq<OamStep>)
    requires op.held && op.journal != [] && op.journal <= b && WellFormed(b)
    ensures OwnSteps(steps) && OpExec(id, op, free, now, steps) == op.(journal := b)
    decreases |b| - |op.journal|
  {
    if op.journal == b {
      steps := [];
    } else {
      var n := |op.journal|;
      var next := b[n];
      assert Last(op.journal) == b[n - 1];
      var rest := ExtensionIsAdvances(id, op.(journal := op.journal + [next]), free, now, b);
      steps := [HostAdvance(next)] + rest;
      assert steps[1..] == rest;
    }
  }

  /** Time passing is steps of the host's own, after which the two still agree. */
  lemma CatchingUpSimulated(id: nat, op: Op, h: Held, every: int, free: bool, now: int, at: int)
    returns (steps: seq<OamStep>)
    requires Agrees(id, op, h)
    ensures OwnSteps(steps)
    ensures h.job.None? ==> OpExec(id, op, free, at, steps) == op
    ensures h.job.Some? ==>
              var k := CaughtUp(h.job.value, every, now);
              && OpExec(id, op, free, at, steps) == op.(journal := Entries(k))
              && Agrees(id, op.(journal := Entries(k)), h.(job := Some(k)))
              && Last(Entries(k)) == EntryOf(k) && Usable(EntryOf(k), id) == Entry(EntryOf(k))
  {
    if h.job.None? {
      steps := [];
    } else {
      var j := h.job.value;
      var k := CaughtUp(j, every, now);
      CatchingUpKeeps(j, every, now);
      CatchingUpExtends(j, every, now);
      EntriesWellFormed(k);
      steps := ExtensionIsAdvances(id, op, free, at, Entries(k));
    }
  }

  /** submitJob is some steps of the host's own and then the protocol's submit, with the same
      answer, and the two agree again. */
  lemma SubmitSimulated(id: nat, op: Op, h: Held, req: JobRequest, refusal: Option<string>, outcome: Outcome,
      every: int, free: bool, now: int) returns (steps: seq<OamStep>, verdict: SubmitVerdict)
    requires Agrees(id, op, h) && req.operationId == id
    ensures OwnSteps(steps)
    ensures var (after, answer) := DoHostSubmit(id, OpExec(id, op, free, now, steps), verdict);
            var (k, said) := SubmitOf(h, req, refusal, outcome, every, now);
            Agrees(id, after, k) && answer == said
  {
    steps := CatchingUpSimulated(id, op, h, every, free, now, now);
    if h.job.None? && refusal.None? {
      var j := NewJob(req, outcome, now);
      FreshJob(j);
      verdict := SubmitVerdict.Start(EntryOf(j));
    } else {
      verdict := Refuse(if refusal.Some? then refusal.value else "");
    }
  }

  /** The answer a poll of the protocol gets. */
  function JobAnswer(id: nat, op: Op): Answer {
    if op.held && op.journal != [] then Usable(Last(op.journal), id) else NotFound
  }

  /** What a poll does with that answer. */
  lemma AskJobAnswers(id: nat, op: Op, free: bool, now: int, snap: Row)
    requires Following(op, snap)
    ensures OpNext(id, op, free, now, AskJob(snap)) ==
              match JobAnswer(id, op)
              case Entry(job) => op.(answers := op.answers + {job})
              case NotFound => if snap.hostGeneration != 0 then op.(absent := op.absent + {snap}) else op
              case _ => op
  {
  }

  /** getJob is some steps of the host's own and then the protocol's poll. */
  lemma GetSimulated(id: nat, op: Op, h: Held, every: int, free: bool, now: int) returns (steps: seq<OamStep>)
    requires Agrees(id, op, h)
    ensures OwnSteps(steps)
    ensures var after := OpExec(id, op, free, now, steps);
            var (k, said) := GetOf(h, id, every, now);
            Agrees(id, after, k) && JobAnswer(id, after) == said
  {
    steps := CatchingUpSimulated(id, op, h, every, free, now, now);
  }

  /** cancelJob is some steps of the host's own and then the protocol's cancel. */
  lemma CancelSimulated(id: nat, op: Op, h: Held, every: int, free: bool, now: int)
    returns (steps: seq<OamStep>, verdict: CancelVerdict)
    requires Agrees(id, op, h)
    ensures OwnSteps(steps)
    ensures var (after, answer) := DoHostCancel(id, OpExec(id, op, free, now, steps), verdict);
            var (k, said) := CancelHeld(h, id, every, now);
            Agrees(id, after, k) && answer == said
  {
    steps := CatchingUpSimulated(id, op, h, every, free, now, now);
    verdict := TooLate;
    if h.job.Some? {
      var j := CaughtUp(h.job.value, every, now);
      if Stoppable(j) { verdict := Stop(EntryOf(Stopped(j))); }
      StoppingSimulated(id, op.(journal := Entries(j)), h.(job := Some(j)), verdict);
    }
  }

  lemma StoppingSimulated(id: nat, op: Op, h: Held, verdict: CancelVerdict)
    requires Agrees(id, op, h) && h.job.Some?
    requires var j := h.job.value; verdict == if Stoppable(j) then Stop(EntryOf(Stopped(j))) else TooLate
    ensures var (after, answer) := DoHostCancel(id, op, verdict);
            var (k, said) := CancelOf(h.job.value);
            Agrees(id, after, h.(job := Some(k))) && answer == said
  {
    var j := h.job.value;
    EntriesWellFormed(j);
    CancelDecides(j);
    if Stoppable(j) { StoppingAppends(j); }
  }

  /** Advance is one step of the host's own, or none. */
  lemma AdvanceSimulated(id: nat, op: Op, h: Held, free: bool, now: int)
    requires Agrees(id, op, h) && h.job.Some? && !Done(h.job.value)
    ensures var k := Stepped(h.job.value, now);
            Agrees(id, OpNext(id, op, free, now, HostAdvance(EntryOf(k))), h.(job := Some(k)))
  {
    SteppingAppends(h.job.value, now);
  }

  /** Forget is the protocol's loss of a journal. */
  lemma ForgetSimulated(id: nat, op: Op, h: Held, free: bool, now: int)
    requires Agrees(id, op, h)
    ensures Agrees(id, OpNext(id, op, free, now, HostForget), h.(job := None))
  {
  }

  // ---- what a job of each type goes through ----

  /** A job that was started under some outcome. */
  ghost predicate Started(j: Job) { exists outcome :: StartedAs(j, j.request, outcome) }

  lemma StartedStays(j: Job, every: int, now: int)
    requires Started(j)
    ensures JobInv(j) && (!Done(j) ==> Started(Stepped(j, now)))
    ensures Started(CaughtUp(j, every, now)) && CaughtUp(j, every, now).request == j.request
    ensures Started(CancelOf(j).0) && CancelOf(j).0.request == j.request
  {
    var outcome :| StartedAs(j, j.request, outcome);
    StaysStarted(j, j.request, outcome, every, now);
  }

  /** Whether what is shown can still be stopped. */
  predicate StoppableAs(typ: OperationType, state: OperationState, phase: string) {
    state == OperationState.Cancelled || state == Queued || (state == Running && (typ == Backup || phase == "prepare"))
  }

  lemma StartedCancel(j: Job)
    requires Started(j)
    ensures JobInv(j) && (CancelOf(j).1.Entry? <==> StoppableAs(j.request.typ, Shown(j).0, Shown(j).1))
  {
    var outcome :| StartedAs(j, j.request, outcome);
    CancelByType(j, j.request, outcome);
  }

  /** A job that was started for a request, wherever it stands by now. */
  predicate StartedAs(j: Job, req: JobRequest, outcome: Outcome) {
    JobInv(j) && j.request == req && (j.script, j.irreversibleAt) == Script(req.typ, outcome)
  }

  lemma NewIsStarted(req: JobRequest, outcome: Outcome, now: int)
    ensures StartedAs(NewJob(req, outcome, now), req, outcome)
  {}

  /** Nothing that happens to a job makes it another. */
  lemma {:induction false} StaysStarted(j: Job, req: JobRequest, outcome: Outcome, every: int, now: int)
    requires StartedAs(j, req, outcome)
    ensures !Done(j) ==> StartedAs(Stepped(j, now), req, outcome)
    ensures StartedAs(CaughtUp(j, every, now), req, outcome) && StartedAs(CancelOf(j).0, req, outcome)
    decreases |j.script| - j.position
  {
    if every > 0 && !Done(j) && now - j.steppedAt >= every {
      StaysStarted(Stepped(j, j.steppedAt + every), req, outcome, every, now);
    }
  }

  /** What an operator sees of a job after n steps, if nobody cancels it. */
  function Appearance(typ: OperationType, outcome: Outcome, n: nat): (OperationState, string, string) {
    if n == 0 then (Queued, "", "")
    else if n == 1 then (Running, "prepare", "")
    else if outcome == Fail then (Failed, "", "FIXTURE_FAILURE")
    else if n == 2 then
      (Running,
       match typ
       case Backup => "archive"
       case Restore => "stop-services"
       case Update => "switch-slot"
       case Rollback => "switch-slot"
       case Reset => "wipe-state",
       "")
    else if outcome == Succeed then (if n == 3 then (Verifying, "verify", "") else (Succeeded, "", ""))
    else if n == 3 then (Compensating, "undo", "")
    else (RecoveryRequired, "", "FIXTURE_COMPENSATION_FAILED")
  }

  function Shown(j: Job): (OperationState, string, string)
    requires j.position < |j.script|
  {
    (EntryOf(j).state, EntryOf(j).phase, EntryOf(j).errorCode)
  }

  lemma AppearsAs(j: Job, req: JobRequest, outcome: Outcome)
    requires StartedAs(j, req, outcome) && !j.cancelled
    ensures Shown(j) == Appearance(req.typ, outcome, j.position)
  {}

  /** A job left alone goes through the phases of its type, one per interval, and stays at the end
      its outcome says: succeeded, failed or in need of recovery, with that end's code. */
  lemma LeftAlone(req: JobRequest, outcome: Outcome, every: int, started: int, n: nat)
    requires every > 0
    ensures Shown(CaughtUp(NewJob(req, outcome, started), every, started + n * every))
        == Appearance(req.typ, outcome, n)
  {
    var j, now := NewJob(req, outcome, started), started + n * every;
    NewIsStarted(req, outcome, started);
    StaysStarted(j, req, outcome, every, now);
    CatchingUpSteps(j, every, now);
    WholeIntervals(n, every);
    var k := CaughtUp(j, every, now);
    NeverCancelled(j, every, now);
    AppearsAs(k, req, outcome);
  }

  lemma {:induction false} NeverCancelled(j: Job, every: int, now: int)
    requires !j.cancelled
    ensures !CaughtUp(j, every, now).cancelled
    decreases |j.script| - j.position
  {
    if every > 0 && !Done(j) && j.position < |j.script| && now - j.steppedAt >= every {
      NeverCancelled(Stepped(j, j.steppedAt + every), every, now);
    }
  }

  lemma {:induction false} WholeIntervals(n: nat, every: nat)
    requires every > 0
    ensures n * every >= 0 && Whole(n * every, every) == n
  {
    if n > 0 {
      WholeIntervals(n - 1, every);
      assert n * every == (n - 1) * every + every;
    }
  }

  /** What a cancellation meets, by what the host shows of the job: a restore, update, rollback or
      reset can be stopped while it is queued or prepares, a backup as long as it is queued or
      runs, and a cancelled job again. */
  lemma CancelByType(j: Job, req: JobRequest, outcome: Outcome)
    requires StartedAs(j, req, outcome)
    ensures
      var (state, phase, _) := Shown(j);
      CancelOf(j).1.Entry? <==> StoppableAs(req.typ, state, phase)
    ensures !CancelOf(j).1.Entry? ==> CancelOf(j) == (j, Rejected("OPERATION_NOT_CANCELLABLE"))
    ensures CancelOf(j).1.Entry? ==> CancelOf(j).1.job.state == OperationState.Cancelled
  {
    if !j.cancelled { AppearsAs(j, req, outcome); }
  }

  class Host {
    const installation: nat
    const available: set<OperationType>
    const planHash: (OperationType, string, string) -> nat
    var outcome: Outcome
    var stepEvery: int
    var jobs: map<nat, Job>
    var submissions: map<nat, nat>
    var executions: map<nat, nat>

    constructor (installation: nat, available: set<OperationType>, planHash: (OperationType, string, string) -> nat)
      ensures Valid() && jobs == map[] && executions == map[] && submissions == map[] && stepEvery == 0 &&
          outcome.Succeed?
    {
      this.installation, this.available, this.planHash := installation, available, planHash;
      outcome, stepEvery := Succeed, 0;
      jobs, submissions, executions := map[], map[], map[];
    }

    ghost predicate Valid()
      reads this`jobs, this`executions
    {
      && (forall id | id in jobs :: Started(jobs[id]) && JobInv(jobs[id]) && jobs[id].request.operationId == id)
      && (forall id | id in jobs :: id in executions && executions[id] >= 1)
    }

    /** The journal of an operation, as the protocol sees it. */
    ghost function Journal(id: nat): seq<HostJob>
      requires Valid()
      reads this`jobs, this`executions
    {
      if id in jobs then Entries(jobs[id]) else []
    }

    function Executions(id: nat): nat
      reads this`executions
    {
      if id in executions then executions[id] else 0
    }

    function HeldAt(id: nat): Held
      reads this`jobs, this`executions
    {
      Held(if id in jobs then Some(jobs[id]) else None, Executions(id))
    }

    /** Why submitJob would refuse to start the job, if it would. */
    function Refusal(req: JobRequest): Option<string>
    {
      if req.typ !in available then Some("HOST_UNSUPPORTED")
      else if req.installation != installation then Some("INSTALLATION_MISMATCH")
      else if req.planHash != planHash(req.typ, req.archiveRef, req.targetReleaseRef) then Some("PLAN_STALE")
      else None
    }

    /** A job is changed in place. */
    method Put(id: nat, j: Job)
      requires Valid() && id in jobs && Started(j) && JobInv(j) && j.request.operationId == id
      modifies this`jobs
      ensures Valid() && jobs == old(jobs)[id := j]
    {
      jobs := jobs[id := j];
    }

    /** Advance: one step along the script; reports whether the job moved. */
    method Advance(id: nat, now: int) returns (moved: bool)
      requires Valid()
      modifies this`jobs
      ensures Valid() && moved == (id in old(jobs) && !Done(old(jobs)[id]))
      ensures jobs == if moved then old(jobs)[id := Stepped(old(jobs)[id], now)] else old(jobs)
      ensures forall other | other != id :: HeldAt(other) == old(HeldAt(other))
      ensures moved ==>
          id in jobs && CanAppend(old(Journal(id)), EntryOf(jobs[id])) &&
          Journal(id) == old(Journal(id)) + [EntryOf(jobs[id])]
    {
      if id !in jobs || Done(jobs[id]) {
        return false;
      }
      SteppingAppends(jobs[id], now);
      StartedStays(jobs[id], stepEvery, now);
      Put(id, Stepped(jobs[id], now));
      moved := true;
    }

    /** Forget: the host loses a job's journal, and remembers that it ran. */
    method Forget(id: nat)
      requires Valid()
      modifies this`jobs
      ensures Valid() && jobs == old(jobs) - {id}
      ensures HeldAt(id) == old(HeldAt(id)).(job := None)
    {
      jobs := jobs - {id};
    }

    /** submitJob for an operation the journal does not hold. */
    method StartJob(req: JobRequest, now: int) returns (answer: Answer)
      requires Valid() && req.operationId !in jobs
      modifies this`jobs, this`executions
      ensures Valid()
      ensures (HeldAt(req.operationId), answer)
              == SubmitOf(old(HeldAt(req.operationId)), req, Refusal(req), outcome, stepEvery, now)
      ensures forall other | other != req.operationId :: HeldAt(other) == old(HeldAt(other))
      ensures req.typ !in available ==> answer == Rejected("HOST_UNSUPPORTED")
      ensures req.typ in available && req.installation != installation ==> answer == Rejected("INSTALLATION_MISMATCH")
      ensures && req.typ in available && req.installation == installation
              && req.planHash != planHash(req.typ, req.archiveRef, req.targetReleaseRef)
              ==> answer == Rejected("PLAN_STALE")
      // refused and not started, or started once with a journal of one usable entry
      ensures if Refusal(req).None?
              then && answer == Entry(HostJob(req.operationId, Queued, "", 1, true, ""))
                   && Journal(req.operationId) == [answer.job]
                   && executions == old(executions)[req.operationId := old(Executions(req.operationId)) + 1]
              else answer.Rejected? && jobs == old(jobs) && executions == old(executions)
    {
      if req.typ !in available {
        return Rejected("HOST_UNSUPPORTED");
      }
      if req.installation != installation {
        return Rejected("INSTALLATION_MISMATCH");
      }
      if req.planHash != planHash(req.typ, req.archiveRef, req.targetReleaseRef) {
        return Rejected("PLAN_STALE");
      }
      var j := NewJob(req, outcome, now);
      FreshJob(j);
      NewIsStarted(req, outcome, now);
      executions := executions[req.operationId := Executions(req.operationId) + 1];
      jobs := jobs[req.operationId := j];
      answer := Entry(EntryOf(j));
    }

    /** submitJob: idempotent on the operation id. */
    method SubmitJob(req: JobRequest, now: int) returns (answer: Answer)
      requires Valid()
      modifies this`jobs, this`submissions, this`executions
      ensures Valid()
      ensures submissions == old(submissions)[req.operationId :=
          (if req.operationId in old(submissions) then old(submissions)[req.operationId] else 0) + 1]
      ensures (HeldAt(req.operationId), answer)
              == SubmitOf(old(HeldAt(req.operationId)), req, Refusal(req), outcome, stepEvery, now)
      ensures forall other | other != req.operationId :: HeldAt(other) == old(HeldAt(other))
    {
      var id := req.operationId;
      submissions := submissions[id := (if id in submissions then submissions[id] else 0) + 1];
      answer := ShowOrStart(req, now);
    }

    method ShowOrStart(req: JobRequest, now: int) returns (answer: Answer)
      requires Valid()
      modifies this`jobs, this`executions
      ensures Valid()
      ensures (HeldAt(req.operationId), answer)
              == SubmitOf(old(HeldAt(req.operationId)), req, Refusal(req), outcome, stepEvery, now)
      ensures forall other | other != req.operationId :: HeldAt(other) == old(HeldAt(other))
    {
      if req.operationId in jobs {
        answer := Show(req.operationId, now);
      } else {
        answer := StartJob(req, now);
      }
    }

    /** A held job as it stands now. */
    method Show(id: nat, now: int) returns (answer: Answer)
      requires Valid() && id in jobs
      modifies this`jobs
      ensures Valid() && jobs == old(jobs)[id := CaughtUp(old(jobs)[id], stepEvery, now)]
      ensures answer == Entry(EntryOf(jobs[id]))
      ensures (HeldAt(id), answer) == GetOf(old(HeldAt(id)), id, stepEvery, now)
      ensures forall other | other != id :: HeldAt(other) == old(HeldAt(other))
    {
      StartedStays(jobs[id], stepEvery, now);
      var j := CatchUp(jobs[id], stepEvery, now);
      StartedStays(j, stepEvery, now);
      Put(id, j);
      answer := Entry(EntryOf(j));
    }

    /** getJob: the entry as it stands now. */
    method GetJob(id: nat, now: int) returns (answer: Answer)
      requires Valid()
      modifies this`jobs
      ensures Valid() && jobs == if id in old(jobs) then old(jobs)[id := CaughtUp(old(jobs)[id], stepEvery, now)]
          else old(jobs)
      ensures (HeldAt(id), answer) == GetOf(old(HeldAt(id)), id, stepEvery, now)
      ensures forall other | other != id :: HeldAt(other) == old(HeldAt(other))
      ensures id in old(jobs) ==>
          answer == Entry(EntryOf(jobs[id])) && old(Journal(id)) <= Journal(id) &&
          answer.job == Last(Journal(id)) && CheckJob(answer.job, id)
    {
      if id !in jobs {
        return NotFound;
      }
      CatchingUpExtends(jobs[id], stepEvery, now);
      answer := Show(id, now);
      EntriesWellFormed(jobs[id]);
    }

    /** cancelJob: the host decides whether the job can still be stopped. */
    method CancelJob(id: nat, now: int) returns (answer: Answer)
      requires Valid()
      modifies this`jobs
      ensures Valid()
      ensures (HeldAt(id), answer) == CancelHeld(old(HeldAt(id)), id, stepEvery, now)
      // accepted exactly while what the host shows of a job of its type can be stopped
      ensures id in old(jobs) ==>
                var j := CaughtUp(old(jobs)[id], stepEvery, now);
                && (answer.Entry? <==> StoppableAs(j.request.typ, Shown(j).0, Shown(j).1))
                && (answer.Entry? ==> answer.job.state == OperationState.Cancelled)
      ensures forall other | other != id :: HeldAt(other) == old(HeldAt(other))
    {
      if id !in jobs {
        return NotFound;
      }
      StartedStays(jobs[id], stepEvery, now);
      var j := CatchUp(jobs[id], stepEvery, now);
      StartedCancel(j);
      StartedStays(j, stepEvery, now);
      j, answer := StopJob(j);
      Put(id, j);
    }
  }

  /** What cancelJob does to a job that has caught up. */
  method StopJob(job: Job) returns (j: Job, answer: Answer)
    requires JobInv(job)
    ensures (j, answer) == CancelOf(job) && JobInv(j) && j.request == job.request
  {
    j := job;
    if j.cancelled {
      return j, Entry(EntryOf(j));
    }
    if Done(j) || j.position >= j.irreversibleAt {
      return j, Rejected("OPERATION_NOT_CANCELLABLE");
    }
    j := j.(cancelled := true, generation := j.generation + 1);
    answer := Entry(EntryOf(j));
  }
}
