/** Sessions follow the current password, and an administrator always remains. */
module SessionsProof {
  import opened Collections
  import opened Sessions

  /** The session was issued against the password its owner has now, after the last
      time it was replaced. */
  ghost predicate CurrentFor(k: Token, u: User) { k.replaced == u.replaced && k.password == u.hash.password }

  ghost predicate Ids(s: State) {
    && (forall uid | uid in s.users :: uid < s.nextId)
    && (forall k | k in s.tokens :: s.tokens[k].owner < s.nextId)
  }

  ghost predicate Current(s: State) {
    forall k | k in s.tokens && s.tokens[k].owner in s.users :: CurrentFor(s.tokens[k], s.users[s.tokens[k].owner])
  }

  /** Two transactions never hold the same row, nor does one write users while
      another holds the table. */
  ghost predicate Exclusive(s: State) {
    && (forall a, b, uid | a in s.txs && b in s.txs && HoldsRow(s.txs[a], uid) && HoldsRow(s.txs[b], uid) :: a == b)
    && (forall a, b | a in s.txs && b in s.txs && HoldsTable(s.txs[a]) &&
        (HoldsTable(s.txs[b]) || WritesUsers(s.txs[b])) :: a == b)
  }

  /** The pending row of a transaction, against the committed one. */
  ghost predicate PendingOk(s: State, uid: nat, next: Option<User>, guarded: bool, passwordChanged: bool) {
    (next.Some? ==>
          && uid in s.users && uid < s.nextId
          && (!passwordChanged ==>
              next.value.hash.password == s.users[uid].hash.password && next.value.replaced == s.users[uid].replaced)
          && (!guarded ==> next.value.role == s.users[uid].role)
          && (s.users[uid].role.Admin? && !next.value.role.Admin? ==> OtherAdmin(s, uid)))
  }

  ghost predicate OtherAdmin(s: State, uid: nat) {
    exists v :: v in s.users && v != uid && s.users[v].role.Admin?
  }

  ghost predicate TxOk(s: State, tx: Tx) {
    match tx
    case Guarded(uid, remainsAdmin) =>
      uid in s.users && (s.users[uid].role.Admin? && !remainsAdmin ==> OtherAdmin(s, uid))
    case Updated(uid, next, guarded, passwordChanged) => PendingOk(s, uid, next, guarded, passwordChanged)
    case Revoked(uid, next, guarded, deletes) =>
        PendingOk(s, uid, next, guarded, true) && (next.Some? ==> TokensOf(s, uid) <= deletes)
    case Removing(uid) => uid in s.users && (s.users[uid].role.Admin? ==> OtherAdmin(s, uid))
    case Creating(uid, user) => uid !in s.users && uid < s.nextId && user.role.Admin? && TokensOf(s, uid) == {}
    case Selected(uid, password) => uid in s.users && s.users[uid].hash.password == password
    case Issuing(uid, token, row) => uid in s.users && row.owner == uid && CurrentFor(row, s.users[uid])
  }

  ghost predicate HasAdmin(s: State) { exists v :: v in s.users && s.users[v].role.Admin? }

  ghost predicate Inv(s: State) {
    Ids(s) && Current(s) && Exclusive(s) && forall t | t in s.txs :: TxOk(s, s.txs[t])
  }

  // ---- what steps keep ----

  /** A transaction takes a place no other transaction's locks forbid. */
  ghost predicate Compatible(s: State, t: nat, tx: Tx) {
    && (forall uid | HoldsRow(tx, uid) :: RowFree(s, Some(t), uid))
    && (HoldsTable(tx) || WritesUsers(tx) ==> TableFree(s, Some(t)))
    && (HoldsTable(tx) ==> forall other | other in s.txs && other != t :: !WritesUsers(s.txs[other]))
  }

  lemma WithKeeps(s: State, t: nat, tx: Tx)
    requires Inv(s) && TxOk(s, tx) && Compatible(s, t, tx)
    ensures Inv(With(s, t, tx))
  {
    forall a | a in With(s, t, tx).txs ensures TxOk(With(s, t, tx), With(s, t, tx).txs[a]) {
      SameTablesSameTx(s, With(s, t, tx), With(s, t, tx).txs[a]);
    }
  }

  /** Whether a transaction may commit depends on the tables alone. */
  lemma SameTablesSameTx(s: State, r: State, tx: Tx)
    requires TxOk(s, tx) && r.users == s.users && r.tokens == s.tokens && s.nextId <= r.nextId
    ensures TxOk(r, tx)
  {
    assert forall uid :: TokensOf(r, uid) == TokensOf(s, uid);
    assert forall uid :: OtherAdmin(s, uid) ==> OtherAdmin(r, uid);
  }

  lemma AbortKeeps(s: State, t: nat)
    requires Inv(s)
    ensures Inv(s.(txs := s.txs - {t}))
  {
    var r := s.(txs := s.txs - {t});
    forall a | a in r.txs ensures TxOk(r, r.txs[a]) { SameTablesSameTx(s, r, s.txs[a]); }
  }

  lemma DroppingTokensKeeps(s: State, deletes: set<nat>)
    requires Inv(s)
    ensures Inv(s.(tokens := s.tokens - deletes))
  {
    var r := s.(tokens := s.tokens - deletes);
    assert forall uid :: TokensOf(r, uid) <= TokensOf(s, uid);
    assert forall uid :: OtherAdmin(s, uid) ==> OtherAdmin(r, uid);
  }

  lemma IssuingKeeps(s: State, t: nat)
    requires Inv(s) && t in s.txs && s.txs[t].Issuing? && s.txs[t].token !in s.tokens
    ensures Inv(s.(txs := s.txs - {t}, tokens := s.tokens[s.txs[t].token := s.txs[t].row]))
  {
    var uid := s.txs[t].uid;
    var r := s.(txs := s.txs - {t}, tokens := s.tokens[s.txs[t].token := s.txs[t].row]);
    assert HoldsRow(s.txs[t], uid);
    forall a | a in r.txs ensures TxOk(r, r.txs[a]) {
      assert !HoldsRow(s.txs[a], uid);
      assert forall v :: v != uid ==> TokensOf(r, v) == TokensOf(s, v);
      assert forall v :: OtherAdmin(s, v) ==> OtherAdmin(r, v);
    }
  }

  /** One row of users is written by the only one who may. writer is the committing
      transaction, or None for a bare statement. */
  ghost predicate MayWrite(s: State, writer: Option<nat>, uid: nat) {
    RowFree(s, writer, uid) && TableFree(s, writer)
  }

  lemma WritingUserKeeps(s: State, writer: Option<nat>, uid: nat, u: User)
    requires Inv(s) && MayWrite(s, writer, uid) && uid < s.nextId
    requires forall k | k in s.tokens && s.tokens[k].owner == uid :: CurrentFor(s.tokens[k], u)
    requires writer.Some? ==> writer.value !in s.txs
    ensures Inv(s.(users := s.users[uid := u]))
  {
    var r := s.(users := s.users[uid := u]);
    forall a | a in r.txs ensures TxOk(r, r.txs[a]) {
      assert !HoldsRow(s.txs[a], uid) && !HoldsTable(s.txs[a]);
      assert forall v :: TokensOf(r, v) == TokensOf(s, v);
    }
  }

  /** The committing transaction is the one who may write its row. */
  lemma HolderMayWrite(s: State, t: nat, uid: nat)
    requires Inv(s) && t in s.txs && HoldsRow(s.txs[t], uid) && WritesUsers(s.txs[t])
    ensures MayWrite(s.(txs := s.txs - {t}), None, uid)
  {
    var r := s.(txs := s.txs - {t});
    forall other | other in r.txs ensures !HoldsRow(r.txs[other], uid) && !HoldsTable(r.txs[other]) {
      assert s.txs[other] == r.txs[other];
    }
  }

  lemma CommitUpdateKeeps(s: State, t: nat)
    requires Inv(s) && t in s.txs && s.txs[t].Updated?
    ensures Inv(Apply(s, t, s.txs[t]))
  {
    var tx := s.txs[t];
    AbortKeeps(s, t);
    if !tx.passwordChanged && tx.next.Some? {
      HolderMayWrite(s, t, tx.uid);
      WritingUserKeeps(s.(txs := s.txs - {t}), None, tx.uid, tx.next.value);
    }
  }

  lemma CommitRevokeKeeps(s: State, t: nat)
    requires Inv(s) && t in s.txs && s.txs[t].Revoked?
    ensures Inv(Apply(s, t, s.txs[t]))
    // a replaced password leaves its user without a session
    ensures s.txs[t].next.Some? ==> TokensOf(Apply(s, t, s.txs[t]), s.txs[t].uid) == {}
  {
    var tx := s.txs[t];
    var done := s.(txs := s.txs - {t});
    var revoked := done.(tokens := s.tokens - tx.deletes);
    AbortKeeps(s, t);
    DroppingTokensKeeps(done, tx.deletes);
    if tx.next.Some? {
      HolderMayWrite(s, t, tx.uid);
      forall k | k in revoked.tokens ensures revoked.tokens[k].owner != tx.uid {
        assert s.tokens[k].owner == tx.uid ==> k in TokensOf(s, tx.uid);
      }
      WritingUserKeeps(revoked, None, tx.uid, tx.next.value);
    }
  }

  lemma CommitRemoveKeeps(s: State, t: nat)
    requires Inv(s) && t in s.txs && s.txs[t].Removing?
    ensures Inv(Apply(s, t, s.txs[t]))
  {
    var uid := s.txs[t].uid;
    AbortKeeps(s, t);
    HolderMayWrite(s, t, uid);
    RemovingUserKeeps(s.(txs := s.txs - {t}), uid);
  }

  lemma RemovingUserKeeps(s: State, uid: nat)
    requires Inv(s) && MayWrite(s, None, uid)
    ensures Inv(s.(users := s.users - {uid}))
  {
    var r := s.(users := s.users - {uid});
    forall a | a in r.txs ensures TxOk(r, r.txs[a]) {
      assert !HoldsRow(s.txs[a], uid) && !HoldsTable(s.txs[a]);
      assert forall v :: TokensOf(r, v) == TokensOf(s, v);
    }
  }

  lemma CommitCreateKeeps(s: State, t: nat)
    requires Inv(s) && t in s.txs && s.txs[t].Creating?
    ensures Inv(Apply(s, t, s.txs[t]))
  {
    var tx := s.txs[t];
    AbortKeeps(s, t);
    HolderMayWrite(s, t, tx.uid);
    assert forall k :: k in s.tokens && s.tokens[k].owner == tx.uid ==> k in TokensOf(s, tx.uid);
    WritingUserKeeps(s.(txs := s.txs - {t}), None, tx.uid, tx.user);
  }

  lemma CommitKeeps(s: State, t: nat)
    requires Inv(s) && t in s.txs
    ensures Inv(Apply(s, t, s.txs[t]))
  {
    match s.txs[t]
    case Guarded(_, _) => AbortKeeps(s, t);
    case Updated(_, _, _, _) => CommitUpdateKeeps(s, t);
    case Revoked(_, _, _, _) => CommitRevokeKeeps(s, t);
    case Removing(_) => CommitRemoveKeeps(s, t);
    case Creating(_, _) => CommitCreateKeeps(s, t);
    case Selected(_, _) => AbortKeeps(s, t);
    case Issuing(_, token, _) => if token in s.tokens { AbortKeeps(s, t); } else { IssuingKeeps(s, t); }
  }

  lemma NewIdHasNothing(s: State)
    requires Inv(s)
    ensures s.nextId !in s.users && TokensOf(s, s.nextId) == {}
    ensures forall t | t in s.txs :: !HoldsRow(s.txs[t], s.nextId)
  {
    forall t | t in s.txs ensures !HoldsRow(s.txs[t], s.nextId) { assert TxOk(s, s.txs[t]); }
  }

  lemma AddUserKeeps(s: State, username: string, hash: Hash)
    requires Inv(s)
    ensures Inv(Next(s, AddUser(username, hash)))
  {
    if TableFree(s, None) {
      NewIdHasNothing(s);
      var r := s.(nextId := s.nextId + 1);
      forall t | t in r.txs ensures TxOk(r, r.txs[t]) { SameTablesSameTx(s, r, s.txs[t]); }
      forall k | k in s.tokens ensures s.tokens[k].owner != s.nextId { }
      WritingUserKeeps(r, None, s.nextId, User(username, hash, Viewer, 0));
    }
  }

  lemma OthersRemain(s: State, uid: nat)
    requires uid in Admins(s) && |Admins(s)| > 1
    ensures OtherAdmin(s, uid)
  {
    var rest := Admins(s) - {uid};
    assert Admins(s) == rest + {uid};
    HasElement(rest);
    var v :| v in rest;
    assert v in s.users && v != uid && s.users[v].role.Admin?;
  }

  lemma LockTableKeeps(s: State, t: nat, uid: nat, remainsAdmin: bool)
    requires Inv(s)
    ensures Inv(Next(s, LockTable(t, uid, remainsAdmin)))
  {
    if t !in s.txs && TableQuiet(s) && Protected(s, uid, remainsAdmin) {
      if s.users[uid].role.Admin? && !remainsAdmin { OthersRemain(s, uid); }
      WithKeeps(s, t, Guarded(uid, remainsAdmin));
    }
  }

  lemma UpdateUserKeeps(s: State, t: nat, uid: nat, edit: Edit)
    requires Inv(s)
    ensures Inv(Next(s, UpdateUser(t, uid, edit)))
  {
    var r := Next(s, UpdateUser(t, uid, edit));
    if r != s {
      if edit.role.Some? { assert TxOk(s, s.txs[t]) && HoldsTable(s.txs[t]); }
      WithKeeps(s, t, r.txs[t]);
    }
  }

  lemma StatementKeeps(s: State, step: Step)
    requires Inv(s) && (step.RevokeTokens? || step.DeleteUser? || step.SelectForUpdate? || step.InsertToken?)
    ensures Inv(Next(s, step))
  {
    var r := Next(s, step);
    if r != s {
      if step.t in s.txs { assert TxOk(s, s.txs[step.t]); }
      assert step.RevokeTokens? || step.DeleteUser? ==> WritesUsers(s.txs[step.t]) || HoldsTable(s.txs[step.t]);
      WithKeeps(s, step.t, r.txs[step.t]);
    }
  }

  lemma CreateAdminKeeps(s: State, t: nat, user: User)
    requires Inv(s)
    ensures Inv(Next(s, CreateAdmin(t, user)))
  {
    if t !in s.txs && TableFree(s, None) {
      NewIdHasNothing(s);
      var r := s.(nextId := s.nextId + 1);
      forall a | a in r.txs ensures TxOk(r, r.txs[a]) { SameTablesSameTx(s, r, s.txs[a]); }
      assert TokensOf(r, s.nextId) == TokensOf(s, s.nextId);
      WithKeeps(r, t, Creating(s.nextId, user.(role := Admin)));
    }
  }

  lemma NextKeeps(s: State, step: Step)
    requires Inv(s)
    ensures Inv(Next(s, step))
  {
    match step
    case AddUser(username, hash) => AddUserKeeps(s, username, hash);
    case Rename(uid, username) =>
      if uid in s.users && RowFree(s, None, uid) && TableFree(s, None) {
        WritingUserKeeps(s, None, uid, s.users[uid].(username := username));
      }
    case Rehash(uid, was, password, salt) =>
      if uid in s.users && RowFree(s, None, uid) && TableFree(s, None) && VerifyPassword(password, was) &&
          s.users[uid].hash == was {
        WritingUserKeeps(s, None, uid, s.users[uid].(hash := Hash(password, salt, true)));
      }
    case Logout(token) => DroppingTokensKeeps(s, {token});
    case LockTable(t, uid, remainsAdmin) => LockTableKeeps(s, t, uid, remainsAdmin);
    case UpdateUser(t, uid, edit) => UpdateUserKeeps(s, t, uid, edit);
    case RevokeTokens(t) => StatementKeeps(s, step);
    case DeleteUser(t) => StatementKeeps(s, step);
    case CreateAdmin(t, user) => CreateAdminKeeps(s, t, user);
    case SelectForUpdate(t, uid, username, password) => StatementKeeps(s, step);
    case InsertToken(t, token) => StatementKeeps(s, step);
    case Commit(t) => if t in s.txs { CommitKeeps(s, t); }
    case Abort(t) => AbortKeeps(s, t);
  }

  /** No step removes the last administrator. */
  lemma NextKeepsAdmin(s: State, step: Step)
    requires Inv(s) && HasAdmin(s)
    ensures HasAdmin(Next(s, step))
  {
    var r := Next(s, step);
    var v :| v in s.users && s.users[v].role.Admin?;
    if v in r.users && r.users[v].role.Admin? {
      assert HasAdmin(r);
    } else {
      var tx := s.txs[step.t];
      assert TxOk(s, tx);
      var w :| w in s.users && w != v && s.users[w].role.Admin?;
      assert w in r.users && r.users[w].role.Admin?;
    }
  }

  lemma {:induction false} RunKeeps(s: State, steps: seq<Step>)
    requires Inv(s)
    ensures Inv(Exec(s, steps)) && (HasAdmin(s) ==> HasAdmin(Exec(s, steps)))
    decreases steps
  {
    if steps != [] {
      NextKeeps(s, steps[0]);
      if HasAdmin(s) { NextKeepsAdmin(s, steps[0]); }
      RunKeeps(Next(s, steps[0]), steps[1..]);
    }
  }

  // ---- theorems ----

  /** A database between transactions: no session of an existing user is stale, and
      ids are handed out once. Tokens of users who are gone may remain. */
  ghost predicate Quiescent(s: State) { s.txs == map[] && Ids(s) && Current(s) }

  /** Sessions follow the current password: whatever transactions ran and however
      their statements interleaved, a token that validates was issued against the
      password its owner has now, since it was last replaced. */
  lemma SessionsFollowPassword(s: State, steps: seq<Step>, token: nat)
    requires Quiescent(s) && Validates(Exec(s, steps), token)
    ensures var r := Exec(s, steps);
            var u := r.users[r.tokens[token].owner];
            VerifyPassword(r.tokens[token].password, u.hash) && r.tokens[token].replaced == u.replaced
  {
    RunKeeps(s, steps);
  }

  /** Committing a password replacement ends every session of the user at once. */
  lemma ReplacementEndsSessions(s: State, steps: seq<Step>, t: nat, token: nat)
    requires Quiescent(s)
    requires var r := Exec(s, steps);
             t in r.txs && r.txs[t].Revoked? && r.txs[t].next.Some? && Validates(r, token) &&
                 r.tokens[token].owner == r.txs[t].uid
    ensures !Validates(Next(Exec(s, steps), Commit(t)), token)
    ensures var r := Exec(s, steps); Next(r, Commit(t)).users[r.txs[t].uid] == r.txs[t].next.value
  {
    RunKeeps(s, steps);
    var r := Exec(s, steps);
    CommitRevokeKeeps(r, t);
  }

  /** A system with an administrator never loses the last one, however demotions and
      deletions interleave. */
  lemma AdministratorRemains(s: State, steps: seq<Step>)
    requires Quiescent(s) && Admins(s) != {}
    ensures Admins(Exec(s, steps)) != {}
  {
    HasElement(Admins(s));
    var v :| v in Admins(s);
    assert s.users[v].role.Admin?;
    RunKeeps(s, steps);
    var r := Exec(s, steps);
    var w :| w in r.users && r.users[w].role.Admin?;
    assert w in Admins(r);
  }

  // ---- the transactions do what they are for ----

  lemma Exec3(s: State, a: Step, b: Step, c: Step)
    ensures Exec(s, [a, b, c]) == Next(Next(Next(s, a), b), c)
  {
    var x, y := Next(s, a), Next(Next(s, a), b);
    assert [a, b, c][1..] == [b, c] && [b, c][1..] == [c] && [c][1..] == [];
    assert Exec(y, [c]) == Exec(Next(y, c), []);
    assert Exec(x, [b, c]) == Exec(y, [c]);
  }

  /** A password update, run undisturbed: the user has the new password and no
      session, and everyone else's sessions stay. */
  lemma PasswordUpdateTakesEffect(s: State, t: nat, uid: nat, h: Hash)
    requires Quiescent(s) && uid in s.users
    ensures var r := Exec(s, [UpdateUser(t, uid, Edit(None, Some(h), None)), RevokeTokens(t), Commit(t)]);
            && r.users == s.users[uid := s.users[uid].(hash := h, replaced := s.users[uid].replaced + 1)]
            && TokensOf(r, uid) == {} && r.txs == map[]
            && forall k | k in s.tokens && s.tokens[k].owner != uid :: k in r.tokens && r.tokens[k] == s.tokens[k]
  {
    Exec3(s, UpdateUser(t, uid, Edit(None, Some(h), None)), RevokeTokens(t), Commit(t));
  }

  /** A login, run undisturbed: the session is issued exactly if the password is
      right, and then it validates. */
  lemma LoginIssuesSession(s: State, t: nat, uid: nat, password: string, token: nat)
    requires Quiescent(s) && uid in s.users && token !in s.tokens
    ensures var r := Exec(s, [SelectForUpdate(t, uid, s.users[uid].username, password), InsertToken(t, token),
        Commit(t)]);
            && (Validates(r, token) <==> VerifyPassword(password, s.users[uid].hash))
            && (Validates(r, token) ==> r.tokens[token].owner == uid)
            && r.users == s.users && r.txs == map[]
  {
    Exec3(s, SelectForUpdate(t, uid, s.users[uid].username, password), InsertToken(t, token), Commit(t));
  }

  /** Deleting a user, run undisturbed, succeeds exactly if it is not the last
      administrator. */
  lemma DeletionRefusedForLastAdmin(s: State, t: nat, uid: nat)
    requires Quiescent(s) && uid in s.users
    ensures var r := Exec(s, [LockTable(t, uid, false), DeleteUser(t), Commit(t)]);
            && r.txs == map[] && r.users == (if Admins(s) == {uid} then s.users else s.users - {uid})
            && (Admins(s) != {uid} ==> forall token | token in r.tokens && r.tokens[token].owner == uid ::
                !Validates(r, token))
            && forall token | Validates(s, token) && s.tokens[token].owner != uid :: Validates(r, token)
  {
    Exec3(s, LockTable(t, uid, false), DeleteUser(t), Commit(t));
    if uid in Admins(s) { AnotherElement(Admins(s), uid); }
  }

  lemma AnotherElement(ids: set<nat>, uid: nat)
    requires uid in ids
    ensures |ids| > 1 <==> ids != {uid}
  {
    var rest := ids - {uid};
    assert ids == rest + {uid};
  }

  /** Logging out ends that session and no other. */
  lemma LogoutEndsSession(s: State, token: nat)
    ensures !Validates(Next(s, Logout(token)), token)
    ensures forall other | other != token :: Validates(Next(s, Logout(token)), other) <==> Validates(s, other)
    ensures Next(s, Logout(token)).users == s.users
  {}

  /** The rehash of a login changes how the password is stored and nothing a user could notice; it
      does nothing if the stored hash is no longer the one that was verified. */
  lemma RehashTakesEffect(s: State, uid: nat, was: Hash, password: string, salt: nat)
    requires Quiescent(s) && uid in s.users && VerifyPassword(password, was)
    ensures
      var r := Next(s, Rehash(uid, was, password, salt));
      && r.tokens == s.tokens
      && (s.users[uid].hash != was ==> r == s)
      && (s.users[uid].hash == was ==>
            && r.users[uid].hash.current && r.users[uid] == s.users[uid].(hash := r.users[uid].hash)
            && forall p :: VerifyPassword(p, r.users[uid].hash) <==> VerifyPassword(p, s.users[uid].hash))
      && forall token :: Validates(r, token) <==> Validates(s, token)
  {}

  /** A change of role, run undisturbed, takes effect unless it would demote the only administrator. */
  lemma RoleChangeTakesEffect(s: State, t: nat, uid: nat, role: Role)
    requires Quiescent(s) && uid in s.users
    ensures
      var r := Exec(s, [LockTable(t, uid, role == Admin), UpdateUser(t, uid, Edit(None, None, Some(role))), Commit(t)]);
      && r.tokens == s.tokens && r.txs == map[]
      && r.users == (if Admins(s) == {uid} && role != Admin then s.users
          else s.users[uid := s.users[uid].(role := role)])
  {
    Exec3(s, LockTable(t, uid, role == Admin), UpdateUser(t, uid, Edit(None, None, Some(role))), Commit(t));
    if uid in Admins(s) { AnotherElement(Admins(s), uid); }
  }

  /** The first setup, run undisturbed, replaces name and password and ends the old sessions. */
  lemma SetupTakesEffect(s: State, t: nat, uid: nat, username: string, h: Hash)
    requires Quiescent(s) && uid in s.users
    ensures
      var r := Exec(s, [UpdateUser(t, uid, Edit(Some(username), Some(h), None)), RevokeTokens(t), Commit(t)]);
      && r.users == s.users[uid := User(username, h, s.users[uid].role, s.users[uid].replaced + 1)]
      && TokensOf(r, uid) == {} && r.txs == map[]
  {
    Exec3(s, UpdateUser(t, uid, Edit(Some(username), Some(h), None)), RevokeTokens(t), Commit(t));
  }

  /** A reset without an administrator creates one, with the password it was given. */
  lemma ResetCreatesAdmin(s: State, t: nat, user: User, password: string)
    requires Quiescent(s) && VerifyPassword(password, user.hash)
    ensures
      var r := Next(Next(s, CreateAdmin(t, user)), Commit(t));
      && s.nextId !in s.users && r.txs == map[]
      && r.users.Keys == s.users.Keys + {s.nextId}
      && r.users[s.nextId].role == Admin && r.users[s.nextId].username == user.username
      && VerifyPassword(password, r.users[s.nextId].hash)
      && TokensOf(r, s.nextId) == {}
  {}

  /** A new user is there under a new id, without administrator's rights; a new name is that name. */
  lemma UserAddedAndRenamed(s: State, username: string, h: Hash, other: string)
    requires Quiescent(s)
    ensures
      var a := Next(s, AddUser(username, h));
      var b := Next(a, Rename(s.nextId, other));
      && a.users == s.users[s.nextId := User(username, h, a.users[s.nextId].role, 0)]
      && a.users[s.nextId].role != Admin
      && b.users == a.users[s.nextId := a.users[s.nextId].(username := other)] && b.tokens == s.tokens
  {}

  /** A transaction that is rolled back leaves no trace. */
  lemma AbortLeavesNothing(s: State, t: nat)
    ensures Next(s, Abort(t)).users == s.users && Next(s, Abort(t)).tokens == s.tokens && t !in Next(s, Abort(t)).txs
  {}
}
