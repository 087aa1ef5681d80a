/** Login lockout with exponential backoff. Times are seconds. Attempts for one user
    and address are serialised: each is checked, and then recorded, before the next. */
module Lockout {
  import opened Collections

  const MAX_FAILED_LOGIN_ATTEMPTS := 5
  const LOGIN_LOCKOUT_BASE := 60
  const LOGIN_LOCKOUT_MAX := 900
  const LOGIN_ATTEMPT_WINDOW := 600

  /** One row of login_attempts. */
  datatype Row = Row(failedCount: nat, lastFailedAt: int, blockedUntil: Option<int>)

  function Pow2(n: nat): nat { if n == 0 then 1 else 2 * Pow2(n - 1) }

  /** The lockout that failure number n triggers. */
  function Duration(n: nat): int
    requires n > MAX_FAILED_LOGIN_ATTEMPTS
  {
    var d := LOGIN_LOCKOUT_BASE * Pow2(n - MAX_FAILED_LOGIN_ATTEMPTS - 1);
    if d > LOGIN_LOCKOUT_MAX then LOGIN_LOCKOUT_MAX else d
  }

  lemma {:induction false} Pow2Monotone(a: nat, b: nat)
    requires a <= b
    ensures Pow2(a) <= Pow2(b)
    decreases b
  {
    if a < b { Pow2Monotone(a, b - 1); }
  }

  /** The doubling loop of RecordFailedLogin. */
  method LockoutFor(n: nat) returns (duration: int)
    requires n > MAX_FAILED_LOGIN_ATTEMPTS
    ensures duration == Duration(n)
  {
    duration := LOGIN_LOCKOUT_BASE;
    var i := n - MAX_FAILED_LOGIN_ATTEMPTS;
    while i > 1 && duration < LOGIN_LOCKOUT_MAX
      invariant 1 <= i <= n - MAX_FAILED_LOGIN_ATTEMPTS
      invariant duration == LOGIN_LOCKOUT_BASE * Pow2(n - MAX_FAILED_LOGIN_ATTEMPTS - i)
    {
      duration := duration * 2;
      i := i - 1;
    }
    Pow2Monotone(n - MAX_FAILED_LOGIN_ATTEMPTS - i, n - MAX_FAILED_LOGIN_ATTEMPTS - 1);
    if duration > LOGIN_LOCKOUT_MAX {
      duration := LOGIN_LOCKOUT_MAX;
    }
  }

  predicate Blocked(row: Option<Row>, now: int) {
    row.Some? && row.value.blockedUntil.Some? && now < row.value.blockedUntil.value
  }

  /** The row after a recorded failure. */
  function Recorded(row: Option<Row>, now: int): Row {
    if row.Some? && now - row.value.lastFailedAt > LOGIN_ATTEMPT_WINDOW then Row(1, now, None)
    else
      var n := if row.Some? then row.value.failedCount + 1 else 1;
      Row(n, now, if n > MAX_FAILED_LOGIN_ATTEMPTS then Some(now + Duration(n)) else None)
  }

  datatype Key = Key(username: string, clientIP: string)

  class LoginAttempts {
    var rows: map<Key, Row>

    constructor ()
      ensures rows == map[]
    {
      rows := map[];
    }

    function At(k: Key): Option<Row>
      reads this
    {
      if k in rows then Some(rows[k]) else None
    }

    /** IsLoginBlocked, with the time that remains. */
    method IsLoginBlocked(k: Key, now: int) returns (blocked: bool, remaining: int)
      ensures blocked == Blocked(At(k), now)
      ensures blocked ==> remaining > 0 && !Blocked(At(k), now + remaining)
      ensures !blocked ==> remaining == 0
    {
      if k in rows && rows[k].blockedUntil.Some? && now < rows[k].blockedUntil.value {
        return true, rows[k].blockedUntil.value - now;
      }
      return false, 0;
    }

    /** RecordFailedLogin: reports the lockout it triggered, if any. */
    method RecordFailedLogin(k: Key, now: int) returns (blockedUntil: Option<int>)
      modifies this
      ensures rows == old(rows)[k := Recorded(old(At(k)), now)]
      ensures blockedUntil == rows[k].blockedUntil
    {
      if k in rows && now - rows[k].lastFailedAt > LOGIN_ATTEMPT_WINDOW {
        rows := rows[k := Row(1, now, None)];
        return None;
      }
      var count := 1;
      if k in rows {
        count := rows[k].failedCount + 1;
      }
      blockedUntil := None;
      if count > MAX_FAILED_LOGIN_ATTEMPTS {
        var duration := LockoutFor(count);
        blockedUntil := Some(now + duration);
      }
      rows := rows[k := Row(count, now, blockedUntil)];
    }

    /** ClearLoginAttempts, after a successful login. */
    method ClearLoginAttempts(k: Key)
      modifies this
      ensures rows == old(rows) - {k}
    {
      rows := rows - {k};
    }

    /** Login, as far as it concerns the lockout: refused while blocked, then cleared or recorded. */
    method Attempt(k: Key, l: Login) returns (refused: bool)
      modifies this
      ensures refused == Blocked(old(At(k)), l.at)
      ensures At(k) == Step(old(At(k)), l)
      ensures !refused && l.right ==> At(k) == None
      ensures forall other | other != k :: At(other) == old(At(other))
    {
      var remaining;
      refused, remaining := IsLoginBlocked(k, l.at);
      if refused {
        return;
      }
      if l.right {
        ClearLoginAttempts(k);
      } else {
        var blockedUntil := RecordFailedLogin(k, l.at);
      }
    }
  }

  /** Seconds of lockout that failure number n within the window earns. */
  const SCHEDULE: seq<int> := [0, 0, 0, 0, 0, 0, 60, 120, 240, 480, 900]

  /** The schedule: five failures are free, the sixth costs a minute, each further one twice the
      one before, and from the tenth on a quarter of an hour. A pause of more than ten minutes
      starts the count over. */
  lemma Scheduled(row: Option<Row>, now: int)
    ensures
      var n := if row.Some? && now - row.value.lastFailedAt <= 10 * 60 then row.value.failedCount + 1 else 1;
      var lockout := if n < 10 then SCHEDULE[n] else 900;
      Recorded(row, now) == Row(n, now, if lockout == 0 then None else Some(now + lockout))
  {
    Durations();
    var n := if row.Some? && now - row.value.lastFailedAt <= 10 * 60 then row.value.failedCount + 1 else 1;
    if n >= 10 { Pow2Monotone(4, n - 6); }
  }

  // ---- whole runs, for one user and address ----

  /** A login attempt: when, and whether the password was right. */
  datatype Login = Login(at: int, right: bool)

  ghost predicate Chronological(run: seq<Login>) { forall i, j | 0 <= i < j < |run| :: run[i].at <= run[j].at }

  /** Login: refused while blocked; otherwise a success clears the row and a failure is recorded. */
  function Step(row: Option<Row>, l: Login): Option<Row> {
    if Blocked(row, l.at) then row else if l.right then None else Some(Recorded(row, l.at))
  }

  function RowBefore(run: seq<Login>, i: nat): Option<Row>
    requires i <= |run|
  {
    if i == 0 then None else Step(RowBefore(run, i - 1), run[i - 1])
  }

  /** Attempt i is one whose failure was recorded. */
  predicate FailureAt(run: seq<Login>, i: nat)
    requires i < |run|
  {
    !Blocked(RowBefore(run, i), run[i].at) && !run[i].right
  }

  lemma Durations()
    ensures Duration(6) == 60 && Duration(7) == 120 && Duration(8) == 240 && Duration(9) == 480 && Duration(10) == 900
  {
    assert Pow2(1) == 2 && Pow2(2) == 4 && Pow2(3) == 8 && Pow2(4) == 16;
  }

  ghost predicate RowOk(row: Option<Row>, now: int) {
    row.Some? ==>
      && 1 <= row.value.failedCount <= 10 && row.value.lastFailedAt <= now
      && row.value.blockedUntil ==
         (if row.value.failedCount > MAX_FAILED_LOGIN_ATTEMPTS
             then Some(row.value.lastFailedAt + Duration(row.value.failedCount)) else None)
  }

  /** The count never exceeds 10: the fifteen minutes that the tenth failure earns
      outlast the ten-minute window, so the next failure starts over. */
  lemma {:induction false} CountIsBounded(run: seq<Login>, i: nat)
    requires i <= |run| && Chronological(run)
    ensures RowOk(RowBefore(run, i), if i == 0 then 0 else run[i - 1].at)
    ensures RowBefore(run, i).Some? ==> RowBefore(run, i).value.failedCount <= 10
    decreases i
  {
    if i > 0 {
      CountIsBounded(run, i - 1);
      Durations();
    }
  }

  /** Between attempts i and j no login succeeded. */
  ghost predicate NoSuccess(run: seq<Login>, i: nat, j: nat) {
    forall k | i <= k < j && k < |run| :: !run[k].right
  }

  /** The row moves only with recorded failures. */
  lemma {:induction false} RowUnchanged(run: seq<Login>, i: nat, j: nat)
    requires i <= j <= |run| && NoSuccess(run, i, j) && (forall k | i <= k < j :: !FailureAt(run, k))
    ensures RowBefore(run, j) == RowBefore(run, i)
    decreases j
  {
    if i < j {
      RowUnchanged(run, i, j - 1);
      assert !FailureAt(run, j - 1) && !run[j - 1].right;
    }
  }

  /** One recorded failure and the next one after it, within the window: the count goes
      up by one and the lockout in between was waited out. */
  lemma NextFailure(run: seq<Login>, i: nat, j: nat)
    requires i < j < |run| && Chronological(run) && NoSuccess(run, i, j)
    requires FailureAt(run, i) && FailureAt(run, j) && (forall k | i < k < j :: !FailureAt(run, k))
    requires run[j].at - run[i].at <= LOGIN_ATTEMPT_WINDOW
    ensures var before := RowBefore(run, i + 1); var after := RowBefore(run, j + 1);
            && before.Some? && after.Some? && after.value.failedCount == before.value.failedCount + 1
            && (before.value.failedCount > MAX_FAILED_LOGIN_ATTEMPTS ==>
                run[j].at - run[i].at >= Duration(before.value.failedCount))
  {
    RowUnchanged(run, i + 1, j);
    FailurePair(run, i, j);
  }

  lemma FailurePair(run: seq<Login>, i: nat, j: nat)
    requires i < j < |run| && FailureAt(run, i) && FailureAt(run, j) && RowBefore(run, j) == RowBefore(run, i + 1)
    requires run[i].at <= run[j].at <= run[i].at + LOGIN_ATTEMPT_WINDOW
    ensures var before := RowBefore(run, i + 1); var after := RowBefore(run, j + 1);
            && before.Some? && after.Some? && after.value.failedCount == before.value.failedCount + 1
            && (before.value.failedCount > MAX_FAILED_LOGIN_ATTEMPTS ==>
                run[j].at - run[i].at >= Duration(before.value.failedCount))
  {
    FailureStep(run, i);
    FailureStep(run, j);
    FailureAfter(RowBefore(run, i), run[i].at, run[j].at);
  }

  lemma FailureStep(run: seq<Login>, i: nat)
    requires i < |run| && FailureAt(run, i)
    ensures RowBefore(run, i + 1) == Some(Recorded(RowBefore(run, i), run[i].at))
  {}

  /** A failure recorded at t and another, not blocked, within the window. */
  lemma FailureAfter(row: Option<Row>, t: int, u: int)
    requires t <= u <= t + LOGIN_ATTEMPT_WINDOW && !Blocked(Some(Recorded(row, t)), u)
    ensures
      var count := Recorded(row, t).failedCount;
      && Recorded(Some(Recorded(row, t)), u).failedCount == count + 1
      && (count > MAX_FAILED_LOGIN_ATTEMPTS ==> u - t >= Duration(count))
  {}

  /** The recorded failures of a run, by position: an increasing selection that skips none. */
  ghost predicate ConsecutiveFailures(run: seq<Login>, f: seq<nat>) {
    && (forall n | 0 <= n < |f| :: f[n] < |run| && FailureAt(run, f[n]))
    && (forall n | 0 <= n < |f| - 1 :: f[n] < f[n + 1] && forall k | f[n] < k < f[n + 1] :: !FailureAt(run, k))
  }

  lemma {:induction false} CountsRise(run: seq<Login>, f: seq<nat>, n: nat)
    requires Chronological(run) && ConsecutiveFailures(run, f) && n < |f| && NoSuccess(run, f[0], f[n])
    requires f[0] <= f[n] && run[f[n]].at - run[f[0]].at <= LOGIN_ATTEMPT_WINDOW
    ensures RowBefore(run, f[0] + 1).Some? && RowBefore(run, f[n] + 1).Some?
    ensures RowBefore(run, f[n] + 1).value.failedCount == RowBefore(run, f[0] + 1).value.failedCount + n
    decreases n
  {
    if n > 0 {
      Ascending(run, f, 0, n - 1);
      CountsRise(run, f, n - 1);
      NextFailure(run, f[n - 1], f[n]);
    }
  }

  lemma {:induction false} Ascending(run: seq<Login>, f: seq<nat>, a: nat, b: nat)
    requires ConsecutiveFailures(run, f) && a <= b < |f|
    ensures f[a] <= f[b]
    decreases b
  {
    if a < b { Ascending(run, f, a, b - 1); }
  }

  /** Two neighbouring failures of a chain within one window: the lockout of the earlier
      one, which its place in the chain determines, lies between them. */
  lemma LockoutWaited(run: seq<Login>, f: seq<nat>, n: nat)
    requires Chronological(run) && ConsecutiveFailures(run, f) && n + 1 < |f| && NoSuccess(run, f[0], f[n + 1])
    requires f[0] <= f[n + 1] && run[f[n + 1]].at - run[f[0]].at <= LOGIN_ATTEMPT_WINDOW
    ensures RowBefore(run, f[0] + 1).Some?
    ensures var count := RowBefore(run, f[0] + 1).value.failedCount + n;
            count > MAX_FAILED_LOGIN_ATTEMPTS ==> run[f[n + 1]].at - run[f[n]].at >= Duration(count)
  {
    Ascending(run, f, 0, n);
    CountsRise(run, f, n);
    NextFailure(run, f[n], f[n + 1]);
  }

  /** Ten failures in one window would be numbers one to ten of one chain. */
  lemma TenWouldStartAtOne(run: seq<Login>, f: seq<nat>)
    requires Chronological(run) && ConsecutiveFailures(run, f) && |f| == 10 && NoSuccess(run, f[0], f[9])
    ensures run[f[9]].at - run[f[0]].at <= LOGIN_ATTEMPT_WINDOW ==>
              RowBefore(run, f[0] + 1).Some? && RowBefore(run, f[0] + 1).value.failedCount == 1
  {
    Ascending(run, f, 0, 9);
    if run[f[9]].at - run[f[0]].at <= LOGIN_ATTEMPT_WINDOW {
      CountsRise(run, f, 9);
      CountIsBounded(run, f[0] + 1);
      CountIsBounded(run, f[9] + 1);
    }
  }

  /** Without a success in between, ten recorded failures in a row do not fit into one closed
      ten-minute window. */
  lemma TenDoNotFit(run: seq<Login>, f: seq<nat>)
    requires Chronological(run) && ConsecutiveFailures(run, f) && |f| == 10 && NoSuccess(run, f[0], f[9])
    ensures run[f[9]].at - run[f[0]].at > LOGIN_ATTEMPT_WINDOW
  {
    TenWouldStartAtOne(run, f);
    Ascending(run, f, 0, 5); Ascending(run, f, 5, 6); Ascending(run, f, 6, 7); Ascending(run, f, 7, 8);
    Ascending(run, f, 8, 9);
    Durations();
    if run[f[9]].at - run[f[0]].at <= LOGIN_ATTEMPT_WINDOW {
      LockoutWaited(run, f, 5);
      LockoutWaited(run, f, 6);
      LockoutWaited(run, f, 7);
      LockoutWaited(run, f, 8);
      assert false;
    }
  }

  // ---- the count per window ----

  predicate InWindow(run: seq<Login>, i: nat, t: int)
    requires i < |run|
  {
    t <= run[i].at <= t + LOGIN_ATTEMPT_WINDOW
  }

  /** The recorded failures among the first n attempts that fall into the window from t. */
  function FailuresIn(run: seq<Login>, t: int, n: nat): seq<nat>
    requires n <= |run|
  {
    if n == 0 then []
    else FailuresIn(run, t, n - 1) + if FailureAt(run, n - 1) && InWindow(run, n - 1, t) then [n - 1] else []
  }

  predicate Rising(f: seq<nat>) { forall a, b | 0 <= a < b < |f| :: f[a] < f[b] }

  /** The list holds exactly those failures, in order. */
  lemma {:induction false} FailuresListed(run: seq<Login>, t: int, n: nat)
    requires n <= |run|
    ensures Rising(FailuresIn(run, t, n))
    ensures forall a | 0 <= a < |FailuresIn(run, t, n)| :: FailuresIn(run, t, n)[a] < n
    ensures forall i | 0 <= i < n :: i in FailuresIn(run, t, n) <==> FailureAt(run, i) && InWindow(run, i, t)
    decreases n
  {
    if n > 0 { FailuresListed(run, t, n - 1); }
  }

  lemma NothingBetween(f: seq<nat>, a: nat, k: nat)
    requires Rising(f) && a + 1 < |f| && f[a] < k < f[a + 1]
    ensures k !in f
  {
    forall b | 0 <= b < |f| ensures f[b] != k { assert b < a || b == a || b == a + 1 || b > a + 1; }
  }

  /** Between two listed failures that follow each other none was recorded. */
  lemma NoFailureBetween(run: seq<Login>, t: int, f: seq<nat>, a: nat, k: nat)
    requires Chronological(run) && f == FailuresIn(run, t, |run|) && a + 1 < |f| && f[a] < k < f[a + 1] < |run|
    ensures !FailureAt(run, k)
  {
    FailuresListed(run, t, |run|);
    NothingBetween(f, a, k);
    assert f[a] in f && f[a + 1] in f;
    assert InWindow(run, k, t);
  }

  /** They are failures in a row, all in the window. */
  lemma ListedInARow(run: seq<Login>, t: int, f: seq<nat>)
    requires Chronological(run) && f == FailuresIn(run, t, |run|)
    ensures ConsecutiveFailures(run, f)
    ensures forall a | 0 <= a < |f| :: f[a] < |run| && InWindow(run, f[a], t)
  {
    FailuresListed(run, t, |run|);
    forall a | 0 <= a < |f| ensures f[a] < |run| && FailureAt(run, f[a]) && InWindow(run, f[a], t) {
      assert f[a] in f;
    }
    forall a | 0 <= a < |f| - 1 ensures f[a] < f[a + 1] && forall k | f[a] < k < f[a + 1] :: !FailureAt(run, k) {
      forall k | f[a] < k < f[a + 1] ensures !FailureAt(run, k) { NoFailureBetween(run, t, f, a, k); }
    }
  }

  lemma PrefixInARow(run: seq<Login>, f: seq<nat>, n: nat)
    requires ConsecutiveFailures(run, f) && n <= |f|
    ensures ConsecutiveFailures(run, f[..n])
  {
  }

  /** At most nine guesses in any ten minutes: a closed window in which no login succeeds holds
      at most nine recorded failures. */
  lemma NineGuessesPerWindow(run: seq<Login>, t: int)
    requires Chronological(run) && forall i | 0 <= i < |run| && InWindow(run, i, t) :: !run[i].right
    ensures |FailuresIn(run, t, |run|)| <= 9
  {
    var f := FailuresIn(run, t, |run|);
    if |f| >= 10 {
      ListedInARow(run, t, f);
      PrefixInARow(run, f, 10);
      var g := f[..10];
      forall k | g[0] <= k < g[9] ensures !run[k].right { assert InWindow(run, k, t); }
      TenDoNotFit(run, g);
      assert false;
    }
  }
}
