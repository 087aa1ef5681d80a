/** Users, sessions and administrators: the transactions of the user service,
    interleaved statement by statement under the database's row and table locks.
    A statement that would have to wait is simply not a step yet; an error, a
    deadlock victim or a dead process is Abort. */
module Sessions {
  import opened Collections

  /** A stored password hash. It determines its password; current says whether it
      was made with the current parameters. */
  datatype Hash = Hash(password: string, salt: nat, current: bool)

  predicate VerifyPassword(password: string, h: Hash) { h.password == password }

  datatype Role = Admin | Operator | Viewer | LegacyUser

  /** replaced counts how often the password was replaced, for the record only: no
      statement reads it. */
  datatype User = User(username: string, hash: Hash, role: Role, replaced: nat)

  /** A session, with the password it was issued against and the user's count of
      replacements at that moment. */
  datatype Token = Token(owner: nat, password: string, replaced: nat)

  /** The columns an update names. */
  datatype Edit = Edit(username: Option<string>, hash: Option<Hash>, role: Option<Role>)

  /** A transaction between two of its statements. */
  datatype Tx =
    | Guarded(uid: nat, remainsAdmin: bool)                     // users table locked, last administrator safe
    | Updated(uid: nat, next: Option<User>, guarded: bool, passwordChanged: bool)
    | Revoked(uid: nat, next: Option<User>, guarded: bool, deletes: set<nat>)
    | Removing(uid: nat)                                        // DELETE FROM users
    | Creating(uid: nat, user: User)                            // INSERT of a fresh administrator
    | Selected(uid: nat, password: string)                      // SELECT ... FOR UPDATE, password verified
    | Issuing(uid: nat, token: nat, row: Token)

  datatype State = State(users: map<nat, User>, tokens: map<nat, Token>, nextId: nat, txs: map<nat, Tx>)

  datatype Step =
    | AddUser(username: string, hash: Hash)
    | Rename(uid: nat, username: string)
    | Rehash(uid: nat, was: Hash, password: string, salt: nat)
    | Logout(token: nat)
    | LockTable(t: nat, uid: nat, remainsAdmin: bool)
    | UpdateUser(t: nat, uid: nat, edit: Edit)
    | RevokeTokens(t: nat)
    | DeleteUser(t: nat)
    | CreateAdmin(t: nat, user: User)
    | SelectForUpdate(t: nat, uid: nat, username: string, password: string)
    | InsertToken(t: nat, token: nat)
    | Commit(t: nat)
    | Abort(t: nat)

  // ---- locks ----

  predicate HoldsRow(tx: Tx, uid: nat) {
    match tx
    case Guarded(_, _) => false
    case Updated(u, next, _, _) => u == uid && next.Some?
    case Revoked(u, next, _, _) => u == uid && next.Some?
    case Removing(u) => u == uid
    case Creating(u, _) => u == uid
    case Selected(u, _) => u == uid
    case Issuing(u, _, _) => u == uid
  }

  /** The transaction holds the users table in SHARE ROW EXCLUSIVE mode. */
  predicate HoldsTable(tx: Tx) {
    match tx
    case Guarded(_, _) => true
    case Updated(_, _, guarded, _) => guarded
    case Revoked(_, _, guarded, _) => guarded
    case Removing(_) => true
    case _ => false
  }

  /** The transaction has written to the users table. */
  predicate WritesUsers(tx: Tx) { tx.Updated? || tx.Revoked? || tx.Removing? || tx.Creating? }

  predicate RowFree(s: State, t: Option<nat>, uid: nat) {
    forall other | other in s.txs && Some(other) != t :: !HoldsRow(s.txs[other], uid)
  }

  predicate TableFree(s: State, t: Option<nat>) {
    forall other | other in s.txs && Some(other) != t :: !HoldsTable(s.txs[other])
  }

  predicate TableQuiet(s: State) {
    forall other | other in s.txs :: !HoldsTable(s.txs[other]) && !WritesUsers(s.txs[other])
  }

  // ---- statements ----

  function Edited(u: User, e: Edit): User {
    User(if e.username.Some? then e.username.value else u.username,
         if e.hash.Some? then e.hash.value else u.hash,
         if e.role.Some? then e.role.value else u.role,
         u.replaced + (if e.hash.Some? then 1 else 0))
  }

  function Admins(s: State): set<nat> { set uid | uid in s.users && s.users[uid].role.Admin? }

  function TokensOf(s: State, uid: nat): set<nat> { set k | k in s.tokens && s.tokens[k].owner == uid }

  /** protectLastAdmin, once the table is locked. */
  predicate Protected(s: State, uid: nat, remainsAdmin: bool) {
    uid in s.users && (s.users[uid].role.Admin? && !remainsAdmin ==> |Admins(s)| > 1)
  }

  function With(s: State, t: nat, tx: Tx): State { s.(txs := s.txs[t := tx]) }

  function Apply(s: State, t: nat, tx: Tx): State {
    var done := s.(txs := s.txs - {t});
    match tx
    case Guarded(_, _) => done
    case Updated(uid, next, _, passwordChanged) =>
      if passwordChanged then s
      else if next.Some? then done.(users := s.users[uid := next.value]) else done
    case Revoked(uid, next, _, deletes) =>
      var revoked := done.(tokens := s.tokens - deletes);
      if next.Some? then revoked.(users := s.users[uid := next.value]) else revoked
    case Removing(uid) => done.(users := s.users - {uid})
    case Creating(uid, user) => done.(users := s.users[uid := user])
    case Selected(_, _) => done
    case Issuing(_, token, row) => if token in s.tokens then done else done.(tokens := s.tokens[token := row])
  }

  function Next(s: State, step: Step): State {
    match step
    case AddUser(username, hash) =>
      if TableFree(s, None)
      then s.(users := s.users[s.nextId := User(username, hash, Viewer, 0)], nextId := s.nextId + 1) else s
    case Rename(uid, username) =>
      if uid in s.users && RowFree(s, None, uid) && TableFree(s, None)
      then s.(users := s.users[uid := s.users[uid].(username := username)]) else s
    case Rehash(uid, was, password, salt) =>
      // login: the password was verified against the hash read earlier; the row is
      // changed only if it still holds that hash
      if uid in s.users && RowFree(s, None, uid) && TableFree(s, None) && VerifyPassword(password, was) &&
          s.users[uid].hash == was
      then s.(users := s.users[uid := s.users[uid].(hash := Hash(password, salt, true))]) else s
    case Logout(token) => s.(tokens := s.tokens - {token})
    case LockTable(t, uid, remainsAdmin) =>
      if t !in s.txs && TableQuiet(s) && Protected(s, uid, remainsAdmin)
      then With(s, t, Guarded(uid, remainsAdmin)) else s
    case UpdateUser(t, uid, edit) =>
      // a role is changed only behind the table lock taken for this user and this role
      if (if edit.role.Some? then t in s.txs && s.txs[t] == Guarded(uid, edit.role.value.Admin?) else t !in s.txs)
         && RowFree(s, Some(t), uid) && TableFree(s, Some(t))
      then
        var next := if uid in s.users then Some(Edited(s.users[uid], edit)) else None;
        With(s, t, Updated(uid, next, edit.role.Some?, edit.hash.Some?))
      else s
    case RevokeTokens(t) =>
      if t in s.txs && s.txs[t].Updated? && s.txs[t].passwordChanged
      then With(s, t, Revoked(s.txs[t].uid, s.txs[t].next, s.txs[t].guarded, TokensOf(s, s.txs[t].uid))) else s
    case DeleteUser(t) =>
      if t in s.txs && s.txs[t].Guarded? && !s.txs[t].remainsAdmin && RowFree(s, Some(t), s.txs[t].uid)
      then With(s, t, Removing(s.txs[t].uid)) else s
    case CreateAdmin(t, user) =>
      if t !in s.txs && TableFree(s, None)
      then With(s, t, Creating(s.nextId, user.(role := Admin))).(nextId := s.nextId + 1) else s
    case SelectForUpdate(t, uid, username, password) =>
      if t !in s.txs && uid in s.users && s.users[uid].username == username && RowFree(s, None, uid) &&
          VerifyPassword(password, s.users[uid].hash)
      then With(s, t, Selected(uid, password)) else s
    case InsertToken(t, token) =>
      if t in s.txs && s.txs[t].Selected? && s.txs[t].uid in s.users
      then With(s, t, Issuing(s.txs[t].uid, token,
          Token(s.txs[t].uid, s.txs[t].password, s.users[s.txs[t].uid].replaced))) else s
    case Commit(t) => if t in s.txs then Apply(s, t, s.txs[t]) else s
    case Abort(t) => s.(txs := s.txs - {t})
  }

  function Exec(s: State, steps: seq<Step>): State
    decreases steps
  {
    if steps == [] then s else Exec(Next(s, steps[0]), steps[1..])
  }

  /** ValidateToken: the token is in the store and its owner still exists. */
  predicate Validates(s: State, token: nat) { token in s.tokens && s.tokens[token].owner in s.users }
}
