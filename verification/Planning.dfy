/** Idempotent planning: concurrent PlanOperation calls, interleaved statement by statement. */
module Planning {
  import opened Collections
  import opened Operations

  const MIN_KEY := 16
  const MAX_KEY := 128
  const MAX_REF := 256
  const MAX_NOTE := 500

  datatype Request = Request(schema: string, typ: OperationType, archive: string, target: string, note: string)

  /** What the request hash is taken over: everything that changes what would be done, and
      not the schema version. The digest is taken to be free of collisions. */
  datatype Identity = Identity(typ: OperationType, archive: string, target: string, note: string)

  function Hash(r: Request): Identity { Identity(r.typ, r.archive, r.target, r.note) }

  const SCHEMA := "appliance-ops/v1alpha1"

  predicate ValidKey(key: string) { MIN_KEY <= |key| <= MAX_KEY && forall i | 0 <= i < |key| :: '!' <= key[i] <= '~' }

  predicate Validates(r: Request) {
    && |r.archive| <= MAX_REF && |r.target| <= MAX_REF && |r.note| <= MAX_NOTE
    && (r.typ.Restore? <==> r.archive != "")
    && (r.typ.Update? <==> r.target != "")
  }

  /** A row as planning sees it. creator is the call whose INSERT made it; nothing reads it. */
  datatype PlannedRow = PlannedRow(user: nat, key: string, hash: Identity, state: OperationState, expires: int,
      creator: nat)

  datatype Error = BadKey | BadSchema | BadRequest | Denied | KeyReused | Failure

  datatype Answer = Answer(id: nat, created: bool) | Refused(error: Error)

  /** Where a call stands between two of its statements. */
  datatype Stage =
    | Expiring | Looking | Minting | Inserting(id: nat) | Rereading | Confirming(id: nat) | Done(answer: Answer)

  datatype Call = Call(user: nat, key: string, request: Request, stage: Stage)

  datatype State = State(rows: map<nat, PlannedRow>, calls: map<nat, Call>)

  datatype Step =
    | Begin(c: nat, user: nat, key: string, request: Request, permitted: bool)
    | Expire(c: nat, now: int)
    | Lookup(c: nat, found: Option<nat>)
    | HostPlans(c: nat, id: nat)
    | Insert(c: nat, now: int, answered: bool)   // answered: the statement's answer reached the caller
    | Reread(c: nat, found: Option<nat>)
    | Confirm(c: nat)
    | Fail(c: nat)                               // the host, the store or the process fails the call
    | Move(id: nat, state: OperationState)       // the rest of the lifecycle

  // ---- statements ----

  predicate Under(row: PlannedRow, user: nat, key: string) { row.user == user && row.key == key }

  /** The answer of operationByKey. */
  predicate Finds(rows: map<nat, PlannedRow>, user: nat, key: string, found: Option<nat>) {
    match found
    case Some(id) => id in rows && Under(rows[id], user, key)
    case None => forall id | id in rows :: !Under(rows[id], user, key)
  }

  function ExpiredRow(row: PlannedRow, now: int): PlannedRow {
    if (row.state.Planned? || row.state.AwaitingAuthorization?) && row.expires < now
    then row.(state := Cancelled) else row
  }

  function ExpirePlans(rows: map<nat, PlannedRow>, now: int): map<nat, PlannedRow> {
    map id | id in rows :: ExpiredRow(rows[id], now)
  }

  /** sameRequest. */
  function SameRequest(id: nat, row: PlannedRow, request: Request): Answer {
    if row.hash != Hash(request) then Refused(KeyReused) else Answer(id, false)
  }

  /** The checks before any statement. */
  function Checked(key: string, request: Request, permitted: bool): Option<Error> {
    if !ValidKey(key) then Some(BadKey)
    else if request.schema != SCHEMA then Some(BadSchema)
    else if !Validates(request) then Some(BadRequest)
    else if !permitted then Some(Denied)
    else None
  }

  /** What is refused before anything is asked, and as what. */
  lemma RefusedExactly(key: string, request: Request, permitted: bool)
    ensures
      var keyOk := 16 <= |key| <= 128 && forall i | 0 <= i < |key| :: 33 <= key[i] as int <= 126;
      var requestOk :=
        && |request.archive| <= 256 && |request.target| <= 256 && |request.note| <= 500
        && (request.archive == "" <==> request.typ != Restore) && (request.target == "" <==> request.typ != Update);
      Checked(key, request, permitted) ==
        if !keyOk then Some(BadKey)
        else if request.schema != "appliance-ops/v1alpha1" then Some(BadSchema)
        else if !requestOk then Some(BadRequest)
        else if !permitted then Some(Denied)
        else None
  {}

  /** Two requests are the same exactly if they agree in everything but the schema version. */
  lemma HashSeparates(a: Request, b: Request)
    ensures Hash(a) == Hash(b) <==> a == b.(schema := a.schema)
  {}

  /** Expiry cancels exactly the overdue plans, and forgets none. */
  lemma ExpiryIsExact(rows: map<nat, PlannedRow>, now: int)
    ensures
      var after := ExpirePlans(rows, now);
      && after.Keys == rows.Keys
      && forall id | id in rows ::
           after[id] == if rows[id].state in {Planned, AwaitingAuthorization} && rows[id].expires < now
                        then rows[id].(state := OperationState.Cancelled) else rows[id]
  {}

  // ---- the machine ----

  function At(s: State, c: nat, stage: Stage): State
    requires c in s.calls
  {
    s.(calls := s.calls[c := s.calls[c].(stage := stage)])
  }

  function Enabled(s: State, step: Step): bool {
    match step
    case Begin(c, _, _, _, _) => c !in s.calls
    case Expire(c, _) => c in s.calls && s.calls[c].stage.Expiring?
    case Lookup(c, found) =>
      c in s.calls && s.calls[c].stage.Looking? && Finds(s.rows, s.calls[c].user, s.calls[c].key, found)
    case HostPlans(c, _) => c in s.calls && s.calls[c].stage.Minting?
    case Insert(c, _, _) => c in s.calls && s.calls[c].stage.Inserting?
    case Reread(c, found) =>
      c in s.calls && s.calls[c].stage.Rereading? && Finds(s.rows, s.calls[c].user, s.calls[c].key, found)
    case Confirm(c) => c in s.calls && s.calls[c].stage.Confirming?
    case Fail(c) => c in s.calls && !s.calls[c].stage.Done?
    case Move(id, _) => id in s.rows
  }

  /** A step that cannot be taken changes nothing. */
  function Next(s: State, step: Step): State {
    if !Enabled(s, step) then s
    else
      match step
      case Begin(c, user, key, request, permitted) =>
        var stage := match Checked(key, request, permitted) case Some(e) => Done(Refused(e)) case None => Expiring;
        s.(calls := s.calls[c := Call(user, key, request, stage)])
      case Expire(c, now) => At(s.(rows := ExpirePlans(s.rows, now)), c, Looking)
      case Lookup(c, found) =>
        (match found
         case Some(id) => At(s, c, Done(SameRequest(id, s.rows[id], s.calls[c].request)))
         case None => At(s, c, Minting))
      case HostPlans(c, id) => At(s, c, Inserting(id))
      case Insert(c, now, answered) => InsertPlanned(s, c, now, answered)
      case Reread(c, found) =>
        (match found
         case Some(id) => At(s, c, Done(SameRequest(id, s.rows[id], s.calls[c].request)))
         case None => At(s, c, Done(Refused(Failure))))
      case Confirm(c) =>
        var id := s.calls[c].stage.id;
        At(s, c, Done(if id in s.rows then Answer(id, true) else Refused(Failure)))
      case Fail(c) => At(s, c, Done(Refused(Failure)))
      case Move(id, state) => s.(rows := s.rows[id := s.rows[id].(state := state)])
  }

  /** insertPlanned: the unique constraint on user and key turns the statement into nothing,
      a taken id makes it fail. */
  function InsertPlanned(s: State, c: nat, now: int, answered: bool): State
    requires c in s.calls && s.calls[c].stage.Inserting?
  {
    var call := s.calls[c];
    var id := call.stage.id;
    if exists other | other in s.rows :: Under(s.rows[other], call.user, call.key) then
      At(s, c, if answered then Rereading else Done(Refused(Failure)))
    else if id in s.rows then At(s, c, Done(Refused(Failure)))
    else
      var row := PlannedRow(call.user, call.key, Hash(call.request), Planned, now + PLAN_TTL, c);
      At(s.(rows := s.rows[id := row]), c, if answered then Confirming(id) else Done(Refused(Failure)))
  }

  function Exec(s: State, steps: seq<Step>): State
    decreases steps
  {
    if steps == [] then s else Exec(Next(s, steps[0]), steps[1..])
  }

  const Empty := State(map[], map[])

  // ---- what every step keeps ----

  /** At most one row per user and key. */
  predicate UniqueKeys(rows: map<nat, PlannedRow>) {
    forall a, b | a in rows && b in rows && Under(rows[a], rows[b].user, rows[b].key) :: a == b
  }

  predicate Made(row: PlannedRow, c: nat, call: Call) {
    Under(row, call.user, call.key) && row.hash == Hash(call.request) && row.creator == c
  }

  predicate NoneMade(rows: map<nat, PlannedRow>, c: nat) { forall id | id in rows :: rows[id].creator != c }

  predicate Taken(rows: map<nat, PlannedRow>, user: nat, key: string) {
    exists id :: id in rows && Under(rows[id], user, key)
  }

  /** The row that a call's stage speaks of. */
  predicate CallInv(rows: map<nat, PlannedRow>, c: nat, call: Call) {
    match call.stage
    case Confirming(id) => id in rows && Made(rows[id], c, call)
    case Rereading => NoneMade(rows, c) && Taken(rows, call.user, call.key)
    case Done(Answer(id, true)) => id in rows && Made(rows[id], c, call)
    case Done(Answer(id, false)) =>
      NoneMade(rows, c) && id in rows && Under(rows[id], call.user, call.key) && rows[id].hash == Hash(call.request)
    case Done(Refused(KeyReused)) =>
      NoneMade(rows, c) && exists id ::
          id in rows && Under(rows[id], call.user, call.key) && rows[id].hash != Hash(call.request)
    case Done(Refused(Failure)) => true
    case _ => NoneMade(rows, c)
  }

  /** The call that made a row reports it, is about to, or was cut off. */
  predicate MakerInv(calls: map<nat, Call>, id: nat, row: PlannedRow) {
    && row.creator in calls
    && calls[row.creator].stage in {Confirming(id), Done(Answer(id, true)), Done(Refused(Failure))}
  }

  predicate Inv(s: State) {
    && UniqueKeys(s.rows)
    && (forall c | c in s.calls :: CallInv(s.rows, c, s.calls[c]))
    && (forall id | id in s.rows :: MakerInv(s.calls, id, s.rows[id]))
  }

  /** What a row is stays; its state may change; no row goes away. */
  predicate RowsStay(a: map<nat, PlannedRow>, b: map<nat, PlannedRow>) {
    forall id | id in a :: id in b && b[id] == a[id].(state := b[id].state)
  }

  /** A call's stage keeps its meaning while rows stay and others make new ones. */
  lemma CallKept(a: map<nat, PlannedRow>, b: map<nat, PlannedRow>, c: nat, call: Call)
    requires RowsStay(a, b) && CallInv(a, c, call)
    requires forall id | id in b && id !in a :: b[id].creator != c
    ensures CallInv(b, c, call)
  {
    assert NoneMade(a, c) ==> NoneMade(b, c);
    if Taken(a, call.user, call.key) {
      var id :| id in a && Under(a[id], call.user, call.key);
      assert id in b && Under(b[id], call.user, call.key);
    }
    if call.stage == Done(Refused(KeyReused)) {
      var id :| id in a && Under(a[id], call.user, call.key) && a[id].hash != Hash(call.request);
      assert id in b && Under(b[id], call.user, call.key) && b[id].hash != Hash(call.request);
    }
  }

  lemma RowsChange(s: State, rows: map<nat, PlannedRow>)
    requires Inv(s) && RowsStay(s.rows, rows) && rows.Keys == s.rows.Keys
    ensures Inv(s.(rows := rows))
  {
    forall c | c in s.calls ensures CallInv(rows, c, s.calls[c]) { CallKept(s.rows, rows, c, s.calls[c]); }
    forall id | id in rows ensures MakerInv(s.calls, id, rows[id]) { assert MakerInv(s.calls, id, s.rows[id]); }
    forall a, b | a in rows && b in rows && Under(rows[a], rows[b].user, rows[b].key) ensures a == b {
      assert Under(s.rows[a], s.rows[b].user, s.rows[b].key);
    }
  }

  /** A call that made no row moves to a stage that fits. */
  lemma StageChange(s: State, c: nat, stage: Stage)
    requires Inv(s) && c in s.calls && NoneMade(s.rows, c)
    requires CallInv(s.rows, c, s.calls[c].(stage := stage))
    ensures Inv(At(s, c, stage))
  {
    var r := At(s, c, stage);
    forall id | id in r.rows ensures MakerInv(r.calls, id, r.rows[id]) {
      assert MakerInv(s.calls, id, s.rows[id]);
    }
  }

  /** The call that made a row reports it or is cut off. */
  lemma MakerFinishes(s: State, c: nat, answer: Answer)
    requires Inv(s) && c in s.calls && s.calls[c].stage.Confirming?
    requires answer == Answer(s.calls[c].stage.id, true) || answer == Refused(Failure)
    ensures Inv(At(s, c, Done(answer)))
  {
    var r := At(s, c, Done(answer));
    forall id | id in r.rows ensures MakerInv(r.calls, id, r.rows[id]) {
      assert MakerInv(s.calls, id, s.rows[id]);
    }
  }

  lemma InsertKeeps(s: State, c: nat, now: int, answered: bool)
    requires Inv(s) && Enabled(s, Insert(c, now, answered))
    ensures Inv(InsertPlanned(s, c, now, answered))
  {
    var call := s.calls[c];
    var id := call.stage.id;
    assert CallInv(s.rows, c, call);
    if exists other | other in s.rows :: Under(s.rows[other], call.user, call.key) {
      assert Taken(s.rows, call.user, call.key);
      StageChange(s, c, if answered then Rereading else Done(Refused(Failure)));
    } else if id in s.rows {
      StageChange(s, c, Done(Refused(Failure)));
    } else {
      var row := PlannedRow(call.user, call.key, Hash(call.request), Planned, now + PLAN_TTL, c);
      MakingKeeps(s, c, id, row, if answered then Confirming(id) else Done(Refused(Failure)));
    }
  }

  /** A call makes the row that no other holds the key of. */
  lemma MakingKeeps(s: State, c: nat, id: nat, row: PlannedRow, stage: Stage)
    requires Inv(s) && c in s.calls && NoneMade(s.rows, c) && id !in s.rows && Made(row, c, s.calls[c])
    requires !Taken(s.rows, row.user, row.key)
    requires stage == Confirming(id) || stage == Done(Refused(Failure))
    ensures Inv(At(s.(rows := s.rows[id := row]), c, stage))
  {
    var r := At(s.(rows := s.rows[id := row]), c, stage);
    assert RowsStay(s.rows, r.rows);
    forall d | d in r.calls ensures CallInv(r.rows, d, r.calls[d]) {
      if d != c { CallKept(s.rows, r.rows, d, s.calls[d]); }
    }
    forall i | i in r.rows ensures MakerInv(r.calls, i, r.rows[i]) {
      if i != id { assert MakerInv(s.calls, i, s.rows[i]); }
    }
    forall a, b | a in r.rows && b in r.rows && Under(r.rows[a], r.rows[b].user, r.rows[b].key) ensures a == b {
      if a != id && b != id { assert Under(s.rows[a], s.rows[b].user, s.rows[b].key); }
    }
  }

  lemma BeginKeeps(s: State, c: nat, call: Call)
    requires Inv(s) && c !in s.calls &&
        (call.stage == Expiring || (call.stage.Done? && call.stage.answer.Refused? &&
            call.stage.answer.error != KeyReused))
    ensures Inv(s.(calls := s.calls[c := call]))
  {
    var r := s.(calls := s.calls[c := call]);
    forall id | id in s.rows ensures s.rows[id].creator != c && MakerInv(r.calls, id, r.rows[id]) {
      assert MakerInv(s.calls, id, s.rows[id]);
    }
  }

  lemma FailKeeps(s: State, c: nat)
    requires Inv(s) && Enabled(s, Fail(c))
    ensures Inv(At(s, c, Done(Refused(Failure))))
  {
    assert CallInv(s.rows, c, s.calls[c]);
    if s.calls[c].stage.Confirming? {
      MakerFinishes(s, c, Refused(Failure));
    } else {
      StageChange(s, c, Done(Refused(Failure)));
    }
  }

  lemma ExpiredRowsStay(rows: map<nat, PlannedRow>, now: int)
    ensures RowsStay(rows, ExpirePlans(rows, now)) && ExpirePlans(rows, now).Keys == rows.Keys
  {}

  lemma ExpireKeeps(s: State, c: nat, now: int)
    requires Inv(s) && Enabled(s, Expire(c, now))
    ensures Inv(At(s.(rows := ExpirePlans(s.rows, now)), c, Looking))
  {
    var t := s.(rows := ExpirePlans(s.rows, now));
    ExpiredRowsStay(s.rows, now);
    RowsChange(s, t.rows);
    assert CallInv(t.rows, c, t.calls[c]);
    StageChange(t, c, Looking);
  }

  lemma ReadKeeps(s: State, c: nat, found: Option<nat>)
    requires Inv(s) && (Enabled(s, Lookup(c, found)) || Enabled(s, Reread(c, found)))
    ensures found.Some? ==> Inv(At(s, c, Done(SameRequest(found.value, s.rows[found.value], s.calls[c].request))))
    ensures found.None? ==> s.calls[c].stage.Looking? && Inv(At(s, c, Minting))
  {
    assert CallInv(s.rows, c, s.calls[c]);
    if found.Some? {
      StageChange(s, c, Done(SameRequest(found.value, s.rows[found.value], s.calls[c].request)));
    } else {
      StageChange(s, c, Minting);
    }
  }

  lemma NextKeeps(s: State, step: Step)
    requires Inv(s)
    ensures Inv(Next(s, step))
  {
    if Enabled(s, step) {
      match step
      case Begin(c, user, key, request, permitted) => BeginKeeps(s, c, Next(s, step).calls[c]);
      case Expire(c, now) => ExpireKeeps(s, c, now);
      case Lookup(c, found) => ReadKeeps(s, c, found);
      case HostPlans(c, id) =>
        assert CallInv(s.rows, c, s.calls[c]);
        StageChange(s, c, Inserting(id));
      case Insert(c, now, answered) => InsertKeeps(s, c, now, answered);
      case Reread(c, found) => ReadKeeps(s, c, found);
      case Confirm(c) =>
        assert CallInv(s.rows, c, s.calls[c]);
        MakerFinishes(s, c, Answer(s.calls[c].stage.id, true));
      case Fail(c) => FailKeeps(s, c);
      case Move(id, state) => RowsChange(s, Next(s, step).rows);
    }
  }

  /** No step removes a row or changes whose it is. */
  lemma NextRowsStay(s: State, step: Step)
    ensures RowsStay(s.rows, Next(s, step).rows)
  {}

  lemma {:induction false} RunKeeps(s: State, steps: seq<Step>)
    requires Inv(s)
    ensures Inv(Exec(s, steps)) && RowsStay(s.rows, Exec(s, steps).rows)
    decreases steps
  {
    if steps != [] {
      NextKeeps(s, steps[0]);
      NextRowsStay(s, steps[0]);
      RunKeeps(Next(s, steps[0]), steps[1..]);
    }
  }

  // ---- over all runs ----

  predicate Answered(s: State, c: nat, user: nat, key: string) {
    c in s.calls && s.calls[c].user == user && s.calls[c].key == key && s.calls[c].stage.Done?
  }

  predicate Succeeded(s: State, c: nat, user: nat, key: string) {
    Answered(s, c, user, key) && s.calls[c].stage.answer.Answer?
  }

  /** At most one row per user and key, whatever the interleaving. */
  lemma OneRowPerKey(steps: seq<Step>, a: nat, b: nat)
    requires
      var rows := Exec(Empty, steps).rows;
      a in rows && b in rows && Under(rows[a], rows[b].user, rows[b].key)
    ensures a == b
  {
    RunKeeps(Empty, steps);
  }

  /** Every successful call under a key returns the same operation, made for a request with
      the same hash as its own, and at most one of the calls reports having created it. */
  lemma SuccessesAgree(steps: seq<Step>, c: nat, d: nat, user: nat, key: string)
    requires Succeeded(Exec(Empty, steps), c, user, key) && Succeeded(Exec(Empty, steps), d, user, key)
    ensures
      var s := Exec(Empty, steps);
      var x, y := s.calls[c].stage.answer, s.calls[d].stage.answer;
      && x.id == y.id && x.id in s.rows
      && Hash(s.calls[c].request) == Hash(s.calls[d].request)
      && (x.created && y.created ==> c == d)
  {
    RunKeeps(Empty, steps);
    var s := Exec(Empty, steps);
    assert CallInv(s.rows, c, s.calls[c]) && CallInv(s.rows, d, s.calls[d]);
    var x, y := s.calls[c].stage.answer.id, s.calls[d].stage.answer.id;
    assert Under(s.rows[x], s.rows[y].user, s.rows[y].key);
  }

  /** A row was made by exactly one call under its own key: that call reports having created
      it unless it is still at work or was cut off. No other call ever reports creating it. */
  lemma OneCreator(steps: seq<Step>, id: nat, c: nat)
    requires id in Exec(Empty, steps).rows && c in Exec(Empty, steps).calls
    ensures
      var s := Exec(Empty, steps);
      var maker := s.rows[id].creator;
      && maker in s.calls
      && s.calls[maker].stage in {Confirming(id), Done(Answer(id, true)), Done(Refused(Failure))}
      && (s.calls[c].stage == Done(Answer(id, true)) ==> c == maker)
  {
    RunKeeps(Empty, steps);
    var s := Exec(Empty, steps);
    assert MakerInv(s.calls, id, s.rows[id]) && CallInv(s.rows, c, s.calls[c]);
  }

  /** Once a key has a row, whatever state the row is in then or later, a call under the key
      that is answered after more steps gets that row if its request has the same hash, and
      a conflict if it has not, unless it fails. */
  lemma KeyIsBound(steps: seq<Step>, more: seq<Step>, id: nat, c: nat, user: nat, key: string)
    requires id in Exec(Empty, steps).rows && Under(Exec(Empty, steps).rows[id], user, key)
    requires Answered(Exec(Exec(Empty, steps), more), c, user, key)
    ensures
      var call := Exec(Exec(Empty, steps), more).calls[c];
      var same := Hash(call.request) == Exec(Empty, steps).rows[id].hash;
      match call.stage.answer
      case Answer(i, _) => same && i == id
      case Refused(KeyReused) => !same
      case Refused(_) => true
  {
    RunKeeps(Empty, steps);
    RunKeeps(Exec(Empty, steps), more);
    var s := Exec(Exec(Empty, steps), more);
    assert CallInv(s.rows, c, s.calls[c]);
    assert id in s.rows && Under(s.rows[id], user, key);
  }

  /** A winner never vanishes: the second read of a call that lost the race finds a row. */
  lemma WinnerIsThere(steps: seq<Step>, c: nat)
    requires c in Exec(Empty, steps).calls && Exec(Empty, steps).calls[c].stage.Rereading?
    ensures !Enabled(Exec(Empty, steps), Reread(c, None))
  {
    RunKeeps(Empty, steps);
    var s := Exec(Empty, steps);
    assert CallInv(s.rows, c, s.calls[c]);
  }

  // ---- the call as code ----

  lemma {:induction false} ExecAppend(s: State, steps: seq<Step>, step: Step)
    ensures Exec(s, steps + [step]) == Next(Exec(s, steps), step)
    decreases steps
  {
    if steps == [] {
      assert Exec(Next(s, step), []) == Next(s, step);
    } else {
      assert (steps + [step])[1..] == steps[1..] + [step];
      ExecAppend(Next(s, steps[0]), steps[1..], step);
    }
  }

  /** The table, and one call of PlanOperation that no other call interleaves with. The
      steps it returns are the ones it took. */
  class Service {
    var rows: map<nat, PlannedRow>

    constructor ()
      ensures rows == map[]
    {
      rows := map[];
    }

    /** The machine's state while this call is at a stage. */
    ghost function During(c: nat, user: nat, key: string, request: Request, stage: Stage): State
      reads this
    {
      State(rows, map[c := Call(user, key, request, stage)])
    }

    method OperationByKey(user: nat, key: string) returns (found: Option<nat>)
      ensures Finds(rows, user, key, found)
    {
      if id :| id in rows && Under(rows[id], user, key) {
        return Some(id);
      }
      return None;
    }

    /** The id, the host's answer and the clock are the caller's to give. */
    method PlanOperation(c: nat, user: nat, key: string, request: Request, permitted: bool, now: int, id: nat,
        hostPlans: bool)
      returns (answer: Answer, ghost steps: seq<Step>)
      modifies this
      ensures During(c, user, key, request, Done(answer)) == Exec(State(old(rows), map[]), steps)
      ensures Checked(key, request, permitted).Some? ==> rows == old(rows)
      ensures answer.Answer? && answer.created ==> answer.id !in old(rows) && rows.Keys == old(rows).Keys + {answer.id}
      ensures !(answer.Answer? && answer.created) ==> rows.Keys == old(rows).Keys
      // a plan lives for fifteen minutes; a key that is taken answers with its operation or a conflict
      ensures answer.Answer? && answer.created ==>
                rows[answer.id] == PlannedRow(user, key, Hash(request), Planned, now + 15 * 60, c)
      ensures Checked(key, request, permitted).None? ==>
                forall i | i in old(rows) && Under(old(rows)[i], user, key) && UniqueKeys(old(rows)) ::
                  answer == if old(rows)[i].hash == Hash(request) then Answer(i, false) else Refused(KeyReused)
    {
      ghost var start := State(rows, map[]);
      steps := [Begin(c, user, key, request, permitted)];
      assert Exec(start, steps) == Exec(Next(start, steps[0]), []);
      var refusal := Checked(key, request, permitted);
      if refusal.Some? {
        return Refused(refusal.value), steps;
      }
      ExecAppend(start, steps, Expire(c, now));
      steps := steps + [Expire(c, now)];
      rows := ExpirePlans(rows, now);
      assert During(c, user, key, request, Looking) == Exec(start, steps);
      var existing := OperationByKey(user, key);
      ExecAppend(start, steps, Lookup(c, existing));
      steps := steps + [Lookup(c, existing)];
      if existing.Some? {
        answer := SameRequest(existing.value, rows[existing.value], request);
        return;
      }
      assert During(c, user, key, request, Minting) == Exec(start, steps);
      if !hostPlans {
        ExecAppend(start, steps, Fail(c));
        steps := steps + [Fail(c)];
        return Refused(Failure), steps;
      }
      answer, steps := Store(c, user, key, request, now, id, start, steps);
    }

    /** From the host's plan on. */
    method Store(c: nat, user: nat, key: string, request: Request, now: int, id: nat, ghost start: State,
        ghost before: seq<Step>)
      returns (answer: Answer, ghost steps: seq<Step>)
      requires During(c, user, key, request, Minting) == Exec(start, before) && Finds(rows, user, key, None)
      modifies this
      ensures During(c, user, key, request, Done(answer)) == Exec(start, steps)
      ensures answer == if id in old(rows) then Refused(Failure) else Answer(id, true)
      ensures id !in old(rows) ==>
          id in rows && rows[id] == PlannedRow(user, key, Hash(request), Planned, now + 15 * 60, c)
      ensures rows.Keys == old(rows).Keys + {id}
    {
      ExecAppend(start, before, HostPlans(c, id));
      steps := before + [HostPlans(c, id)];
      assert During(c, user, key, request, Inserting(id)) == Exec(start, steps);
      ExecAppend(start, steps, Insert(c, now, true));
      steps := steps + [Insert(c, now, true)];
      if id in rows {
        return Refused(Failure), steps;
      }
      rows := rows[id := PlannedRow(user, key, Hash(request), Planned, now + PLAN_TTL, c)];
      answer, steps := ReadBack(c, user, key, request, id, start, steps);
    }

    /** The inserted row is read back and returned. */
    method ReadBack(c: nat, user: nat, key: string, request: Request, id: nat, ghost start: State,
        ghost before: seq<Step>) returns (answer: Answer, ghost steps: seq<Step>)
      requires During(c, user, key, request, Confirming(id)) == Exec(start, before) && id in rows
      ensures During(c, user, key, request, Done(answer)) == Exec(start, steps) && answer == Answer(id, true)
    {
      ExecAppend(start, before, Confirm(c));
      return Answer(id, true), before + [Confirm(c)];
    }
  }
}
