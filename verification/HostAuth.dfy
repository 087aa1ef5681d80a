/** Authentication of requests between OAM and the host adapter: what is signed, the
    acceptance window, and the pruned cache of used nonces. Times are nanoseconds. */
module HostAuth {
  import opened Collections

  const SECOND := 1_000_000_000
  const MAX_CLOCK_SKEW := 60 * SECOND

  /** How long a used nonce is kept. */
  const RETENTION := 2 * MAX_CLOCK_SKEW

  type Cache = map<string, int>

  /** What is left of a cache that keeps nonces for keep. */
  function Pruned(seen: Cache, now: int, keep: int): Cache {
    map n | n in seen && now - seen[n] <= keep :: seen[n]
  }

  function Used(seen: Cache, nonce: string, now: int, keep: int): (bool, Cache) {
    var kept := Pruned(seen, now, keep);
    if nonce in kept then (false, kept) else (true, kept[nonce := now])
  }

  // ---- what is signed ----

  datatype Request = Request(verb: string, uri: string, timestamp: string, nonce: string, bodyHash: string,
      signature: string)

  function SigningInput(r: Request): string {
    r.verb + "\n" + r.uri + "\n" + r.timestamp + "\n" + r.nonce + "\n" + r.bodyHash
  }

  predicate OneLine(s: string) { '\n' !in s }

  predicate OneLiners(r: Request) {
    OneLine(r.verb) && OneLine(r.uri) && OneLine(r.timestamp) && OneLine(r.nonce) && OneLine(r.bodyHash)
  }

  /** The first line of a text determines where it ends. */
  lemma FirstLineUnique(a: string, x: string, b: string, y: string)
    requires OneLine(a) && OneLine(b) && a + "\n" + x == b + "\n" + y
    ensures a == b && x == y
  {
    var t := a + "\n" + x;
    assert t == b + "\n" + y;
    assert forall k | 0 <= k < |a| :: t[k] == a[k] && a[k] in a;
    assert forall k | 0 <= k < |b| :: t[k] == b[k] && b[k] in b;
    assert t[|a|] == '\n' && t[|b|] == '\n';
    assert a == t[..|a|] && b == t[..|b|];
    assert x == t[|a| + 1..] && y == t[|b| + 1..];
  }

  /** The MAC covers every part: two requests whose parts are single lines, as headers
      and request lines are, have the same signing input only if they have the same
      verb, URI, timestamp, nonce and body. */
  lemma SigningInputIsInjective(p: Request, q: Request)
    requires OneLiners(p) && OneLiners(q) && SigningInput(p) == SigningInput(q)
    ensures p == q.(signature := p.signature)
  {
    var p1 := p.bodyHash; var q1 := q.bodyHash;
    var p2 := p.nonce + "\n" + p1; var q2 := q.nonce + "\n" + q1;
    var p3 := p.timestamp + "\n" + p2; var q3 := q.timestamp + "\n" + q2;
    var p4 := p.uri + "\n" + p3; var q4 := q.uri + "\n" + q3;
    assert SigningInput(p) == p.verb + "\n" + p4;
    assert SigningInput(q) == q.verb + "\n" + q4;
    FirstLineUnique(p.verb, p4, q.verb, q4);
    FirstLineUnique(p.uri, p3, q.uri, q3);
    FirstLineUnique(p.timestamp, p2, q.timestamp, q2);
    FirstLineUnique(p.nonce, p1, q.nonce, q1);
  }

  // ---- verification ----

  datatype Verdict = Accepted | SignatureMissing | SignatureInvalid | SignatureExpired | SignatureReplay

  /** A correctly signed request: its nonce, its timestamp and when it arrived. */
  datatype Attempt = Attempt(nonce: string, stamp: int, at: int)

  predicate InWindow(a: Attempt) { -MAX_CLOCK_SKEW <= a.at - a.stamp <= MAX_CLOCK_SKEW }

  function Judge(seen: Cache, a: Attempt, keep: int): (bool, Cache) {
    if InWindow(a) then Used(seen, a.nonce, a.at, keep) else (false, seen)
  }

  /** "v1=" followed by the code. */
  function Signature(code: string): string { "v1=" + code }

  predicate WellSigned(r: Request, mac: string -> string) {
    r.timestamp != "" && r.nonce != "" && r.signature == Signature(mac(SigningInput(r)))
  }

  /** The lines that are signed, in order. */
  lemma SignedLines(signature: string)
    ensures SigningInput(Request("GET", "/v1/jobs", "17", "abc", "e3b0", signature)) == "GET\n/v1/jobs\n17\nabc\ne3b0"
  {}

  class NonceCache {
    var seen: Cache

    constructor ()
      ensures seen == map[]
    {
      seen := map[];
    }

    /** use: forget what is too old, then record the nonce; reports whether it was new. */
    method Use(nonce: string, now: int) returns (isNew: bool)
      modifies this
      ensures (isNew, seen) == Used(old(seen), nonce, now, RETENTION)
    {
      var todo := seen.Keys;
      while todo != {}
        invariant todo <= old(seen).Keys
        invariant forall n :: n in seen <==> n in old(seen) && (n in todo || now - old(seen)[n] <= RETENTION)
        invariant forall n | n in seen :: seen[n] == old(seen)[n]
        decreases |todo|
      {
        var n :| n in todo;
        todo := todo - {n};
        if now - seen[n] > RETENTION {
          seen := seen - {n};
        }
      }
      assert seen == Pruned(old(seen), now, RETENTION);
      if nonce in seen {
        return false;
      }
      seen := seen[nonce := now];
      return true;
    }

    /** VerifyRequest: headers, signature, window, nonce, in that order. mac is the
        keyed hash and parse the reading of the timestamp in seconds. Only a request
        that passes everything else reaches the cache. */
    method Verify(r: Request, mac: string -> string, parse: string -> Option<int>, now: int) returns (v: Verdict)
      modifies this
      ensures v.SignatureMissing? <==> r.signature == "" || r.timestamp == "" || r.nonce == ""
      ensures v.Accepted? || v.SignatureReplay? || v.SignatureExpired? ==>
                r.signature == Signature(mac(SigningInput(r))) && parse(r.timestamp).Some?
      ensures v.Accepted? || v.SignatureReplay? ==>
                (v.Accepted?, seen) == Judge(old(seen), Attempt(r.nonce, parse(r.timestamp).value * SECOND, now),
                    RETENTION)
      // exactly what is refused, and as what: sixty seconds either way
      ensures v.SignatureExpired? <==>
                && WellSigned(r, mac) && parse(r.timestamp).Some?
                && (now - parse(r.timestamp).value * SECOND > 60 * SECOND ||
                    now - parse(r.timestamp).value * SECOND < -60 * SECOND)
      ensures v.SignatureInvalid? <==>
                && r.signature != "" && r.timestamp != "" && r.nonce != ""
                && (!WellSigned(r, mac) || parse(r.timestamp).None?)
      ensures !v.Accepted? && !v.SignatureReplay? ==> seen == old(seen)
      // a request its own key signed, in the window, is judged by its nonce alone
      ensures && r.timestamp != "" && r.nonce != "" && r.signature == Signature(mac(SigningInput(r)))
              && parse(r.timestamp).Some? && InWindow(Attempt(r.nonce, parse(r.timestamp).value * SECOND, now))
              ==> v.Accepted? || v.SignatureReplay?
    {
      if r.signature == "" || r.timestamp == "" || r.nonce == "" {
        return SignatureMissing;
      }
      if |r.signature| < 3 || r.signature[..3] != "v1=" {
        return SignatureInvalid;
      }
      var got := r.signature[3..];
      if got != mac(SigningInput(r)) {
        return SignatureInvalid;
      }
      assert r.signature == Signature(got);
      var seconds := parse(r.timestamp);
      if seconds.None? {
        return SignatureInvalid;
      }
      var skew := now - seconds.value * SECOND;
      if skew > MAX_CLOCK_SKEW || skew < -MAX_CLOCK_SKEW {
        return SignatureExpired;
      }
      var ok := Use(r.nonce, now);
      return if ok then Accepted else SignatureReplay;
    }
  }

  // ---- whole runs ----

  ghost predicate Chronological(run: seq<Attempt>) { forall i, j | 0 <= i < j < |run| :: run[i].at <= run[j].at }

  /** The cache before attempt i, when nonces are kept for keep. */
  function SeenBefore(run: seq<Attempt>, i: nat, keep: int): Cache
    requires i <= |run|
  {
    if i == 0 then map[] else Judge(SeenBefore(run, i - 1, keep), run[i - 1], keep).1
  }

  predicate AcceptedAt(run: seq<Attempt>, i: nat, keep: int)
    requires i < |run|
  {
    Judge(SeenBefore(run, i, keep), run[i], keep).0
  }

  /** An accepted nonce stays in the cache as long as nonces are kept. */
  lemma {:induction false} Remembered(run: seq<Attempt>, i: nat, j: nat, keep: int)
    requires i < j <= |run| && Chronological(run) && AcceptedAt(run, i, keep) && run[j - 1].at - run[i].at <= keep
    ensures run[i].nonce in SeenBefore(run, j, keep) && SeenBefore(run, j, keep)[run[i].nonce] == run[i].at
    decreases j
  {
    if j > i + 1 { Remembered(run, i, j - 1, keep); }
  }

  /** With a clock that does not go back, the same signed request, that is the same
      nonce and timestamp, is accepted at most once in any run, whatever else arrives. */
  lemma AcceptedAtMostOnce(run: seq<Attempt>, i: nat, j: nat, keep: int)
    requires keep >= 2 * MAX_CLOCK_SKEW
    requires i < j < |run| && Chronological(run) && AcceptedAt(run, i, keep)
    requires run[j].nonce == run[i].nonce && run[j].stamp == run[i].stamp
    ensures !AcceptedAt(run, j, keep)
  {
    if InWindow(run[j]) {
      assert InWindow(run[i]);
      Remembered(run, i, j, keep);
    }
  }

  lemma {:induction false} CachedWasUsed(run: seq<Attempt>, i: nat, nonce: string, keep: int)
    requires i <= |run| && nonce in SeenBefore(run, i, keep)
    ensures exists k | 0 <= k < i :: InWindow(run[k]) && run[k].nonce == nonce
    decreases i
  {
    var last := run[i - 1];
    if !(InWindow(last) && last.nonce == nonce) {
      CachedWasUsed(run, i - 1, nonce, keep);
    }
  }

  /** What a cache that never forgets accepts: the first use of a nonce in the window. */
  ghost predicate FirstUse(run: seq<Attempt>, i: nat)
    requires i < |run|
  {
    InWindow(run[i]) && forall k | 0 <= k < i :: InWindow(run[k]) ==> run[k].nonce != run[i].nonce
  }

  /** Honest signers draw a fresh nonce for every request. */
  ghost predicate NonceNamesStamp(run: seq<Attempt>) {
    forall i, j | 0 <= i < |run| && 0 <= j < |run| && run[i].nonce == run[j].nonce :: run[i].stamp == run[j].stamp
  }

  /** Pruning costs nothing: as long as a nonce is never used with two timestamps, the
      pruned cache accepts exactly what one that never forgets accepts. */
  lemma PruningIsHarmless(run: seq<Attempt>, i: nat)
    requires i < |run| && Chronological(run) && NonceNamesStamp(run)
    ensures AcceptedAt(run, i, RETENTION) <==> FirstUse(run, i)
    decreases i
  {
    if InWindow(run[i]) {
      if FirstUse(run, i) {
        if run[i].nonce in SeenBefore(run, i, RETENTION) { CachedWasUsed(run, i, run[i].nonce, RETENTION); }
      } else {
        var k := EarliestUse(run, i);
        PruningIsHarmless(run, k);
        AcceptedAtMostOnce(run, k, i, RETENTION);
      }
    }
  }

  lemma EarliestUse(run: seq<Attempt>, i: nat) returns (k: nat)
    requires i < |run| && InWindow(run[i]) && !FirstUse(run, i)
    ensures k < i && FirstUse(run, k) && run[k].nonce == run[i].nonce
  {
    k :| 0 <= k < i && InWindow(run[k]) && run[k].nonce == run[i].nonce;
    if !FirstUse(run, k) { k := EarliestUse(run, k); }
  }

  /** Attempts i and j of a run are the same signed request, and both are accepted. */
  ghost predicate Replayed(run: seq<Attempt>, i: nat, j: nat, keep: int) {
    && i < j < |run| && run[j].nonce == run[i].nonce && run[j].stamp == run[i].stamp
    && AcceptedAt(run, i, keep) && AcceptedAt(run, j, keep)
  }

  /** No chronological run gets the same signed request accepted twice. */
  ghost predicate ReplayProof(keep: int) {
    forall run, i, j | Chronological(run) :: !Replayed(run, i, j, keep)
  }

  /** A cache that keeps nonces for less has dropped one while its request is still in the
      window: the request is accepted at the first and again at the last moment. */
  lemma ShorterRetentionReplays(nonce: string, stamp: int, keep: int) returns (run: seq<Attempt>)
    requires keep < 2 * MAX_CLOCK_SKEW
    ensures Chronological(run) && Replayed(run, 0, 1, keep)
    ensures run == [Attempt(nonce, stamp, stamp - MAX_CLOCK_SKEW), Attempt(nonce, stamp, stamp + MAX_CLOCK_SKEW)]
  {
    run := [Attempt(nonce, stamp, stamp - MAX_CLOCK_SKEW), Attempt(nonce, stamp, stamp + MAX_CLOCK_SKEW)];
    assert SeenBefore(run, 0, keep) == map[];
    assert SeenBefore(run, 1, keep) == map[nonce := run[0].at];
    assert nonce !in Pruned(SeenBefore(run, 1, keep), run[1].at, keep);
  }

  /** The retention is tight: keeping nonces for a given time is enough exactly when it is at
      least twice the clock skew, and so RETENTION is the shortest one that is. */
  lemma RetentionIsTight(keep: int)
    ensures ReplayProof(keep) <==> keep >= RETENTION
  {
    if keep >= RETENTION {
      forall run, i, j | Chronological(run) ensures !Replayed(run, i, j, keep) {
        if Replayed(run, i, j, keep) { AcceptedAtMostOnce(run, i, j, keep); }
      }
    } else {
      var run := ShorterRetentionReplays("n", 0, keep);
    }
  }
}
