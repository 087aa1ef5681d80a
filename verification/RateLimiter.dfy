/** The token-bucket rate limiter. Floating-point tokens and seconds are reals. */
module RateLimiter {
  import opened Collections

  datatype Bucket = Bucket(tokens: real, last: real)

  /** rps tokens a second, at most burst of them. */
  datatype Rate = Rate(rps: real, burst: real) {
    predicate Valid() { rps >= 0.0 }
  }

  const GC_INTERVAL := 600.0

  type Buckets = map<string, Bucket>

  /** Tokens that accrue in a span of time. */
  function Gain(seconds: real, r: Rate): real { seconds * r.rps }

  /** Tokens a bucket has at time now, before they are capped. */
  function Accrued(b: Bucket, now: real, r: Rate): real { b.tokens + Gain(now - b.last, r) }

  function Capped(x: real, r: Rate): real { if x > r.burst then r.burst else x }

  /** Tokens the key has at time now. A key without a bucket has all of them. */
  function Level(m: Buckets, key: string, now: real, r: Rate): real {
    if key in m then Capped(Accrued(m[key], now, r), r) else r.burst
  }

  /** One request, on a limiter that never drops a bucket. */
  function Decide(m: Buckets, key: string, now: real, r: Rate): (bool, Buckets) {
    var level := Level(m, key, now, r);
    if level < 1.0 then (false, m[key := Bucket(level, now)]) else (true, m[key := Bucket(level - 1.0, now)])
  }

  /** Time has not gone back for any bucket, and none is overfull. */
  ghost predicate Sound(m: Buckets, now: real, r: Rate) {
    forall k | k in m :: m[k].last <= now && m[k].tokens <= r.burst
  }

  /** The buckets that are kept agree, and those that were dropped are full again. */
  ghost predicate Simulates(kept: Buckets, all: Buckets, now: real, r: Rate) {
    && (forall k | k in kept :: k in all && kept[k] == all[k])
    && (forall k | k in all && k !in kept :: Accrued(all[k], now, r) >= r.burst)
  }

  lemma GainMonotone(a: real, b: real, r: Rate)
    requires a <= b && r.Valid()
    ensures Gain(a, r) <= Gain(b, r)
  {
  }

  lemma GainAdds(a: real, b: real, r: Rate)
    ensures Gain(a + b, r) == Gain(a, r) + Gain(b, r)
  {
  }

  lemma AccruedLater(b: Bucket, now: real, later: real, r: Rate)
    requires r.Valid() && now <= later
    ensures Accrued(b, later, r) == Accrued(b, now, r) + Gain(later - now, r)
    ensures Gain(later - now, r) >= 0.0
  {
    GainAdds(now - b.last, later - now, r);
    assert now - b.last + (later - now) == later - b.last;
    GainMonotone(0.0, later - now, r);
  }

  lemma SimulatesLater(kept: Buckets, all: Buckets, now: real, later: real, r: Rate)
    requires r.Valid() && now <= later && Simulates(kept, all, now, r)
    ensures Simulates(kept, all, later, r)
  {
    forall k | k in all && k !in kept ensures Accrued(all[k], later, r) >= r.burst {
      AccruedLater(all[k], now, later, r);
    }
  }

  /** A bucket that is full again decides like one that was never made. */
  lemma SimulationDecides(kept: Buckets, all: Buckets, key: string, now: real, r: Rate)
    requires Simulates(kept, all, now, r)
    ensures Level(kept, key, now, r) == Level(all, key, now, r)
    ensures Decide(kept, key, now, r).0 == Decide(all, key, now, r).0
    ensures Simulates(Decide(kept, key, now, r).1, Decide(all, key, now, r).1, now, r)
  {
  }

  class Limiter {
    const rate: Rate
    var buckets: Buckets
    var lastGC: real
    /** What a limiter that never drops a bucket would hold, and when it was last asked. */
    ghost var all: Buckets
    ghost var clock: real

    ghost predicate Valid()
      reads this
    {
      rate.Valid() && Simulates(buckets, all, clock, rate) && Sound(all, clock, rate)
    }

    constructor (rps: real, burst: int, now: real)
      requires rps >= 0.0
      ensures Valid() && buckets == map[] && all == map[] && clock == now && rate == Rate(rps, burst as real)
    {
      rate := Rate(rps, burst as real);
      buckets, lastGC := map[], now;
      all, clock := map[], now;
    }

    /** gcLocked: drop the buckets that have fully refilled. */
    method Gc(now: real)
      requires Valid() && clock <= now
      modifies this`buckets, this`lastGC
      ensures Simulates(buckets, all, now, rate) && lastGC == now
      ensures forall k :: k in buckets <==> k in old(buckets) && Accrued(old(buckets)[k], now, rate) < rate.burst
    {
      SimulatesLater(buckets, all, clock, now, rate);
      var todo := buckets.Keys;
      while todo != {}
        invariant todo <= old(buckets).Keys
        invariant forall k ::
            k in buckets <==> k in old(buckets) && (k in todo || Accrued(old(buckets)[k], now, rate) < rate.burst)
        invariant forall k | k in buckets :: buckets[k] == old(buckets)[k]
        decreases |todo|
      {
        var k :| k in todo;
        todo := todo - {k};
        if Accrued(buckets[k], now, rate) >= rate.burst {
          buckets := buckets - {k};
        }
      }
      lastGC := now;
    }

    /** Allow: the decision is the one a limiter that never drops a bucket makes. */
    method Allow(key: string, now: real) returns (ok: bool)
      requires Valid() && clock <= now
      modifies this
      ensures Valid() && clock == now
      ensures (ok, all) == Decide(old(all), key, now, rate)
    {
      SimulatesLater(buckets, all, clock, now, rate);
      if now - lastGC > GC_INTERVAL {
        Gc(now);
      }
      SimulationDecides(buckets, all, key, now, rate);
      var b: Bucket;
      if key !in buckets {
        b := Bucket(rate.burst, now);
      } else {
        var tokens := Accrued(buckets[key], now, rate);
        if tokens > rate.burst {
          tokens := rate.burst;
        }
        b := Bucket(tokens, now);
      }
      if b.tokens < 1.0 {
        ok := false;
      } else {
        b := b.(tokens := b.tokens - 1.0);
        ok := true;
      }
      buckets := buckets[key := b];
      all, clock := Decide(all, key, now, rate).1, now;
    }
  }

  // ---- how many requests get through ----

  datatype Call = Call(key: string, at: real)

  ghost predicate Ordered(calls: seq<Call>) { forall i, j | 0 <= i < j < |calls| :: calls[i].at <= calls[j].at }

  /** How many of the calls for key are allowed, starting from m. */
  function Allowed(m: Buckets, calls: seq<Call>, key: string, r: Rate): nat
    decreases calls
  {
    if calls == [] then 0
    else
      var (ok, next) := Decide(m, calls[0].key, calls[0].at, r);
      (if ok && calls[0].key == key then 1 else 0) + Allowed(next, calls[1..], key, r)
  }

  /** The buckets after some calls. */
  function After(m: Buckets, calls: seq<Call>, r: Rate): Buckets
    decreases calls
  {
    if calls == [] then m else After(Decide(m, calls[0].key, calls[0].at, r).1, calls[1..], r)
  }

  /** What a key can gain from now to later is what accrues in between. */
  lemma LevelGrows(m: Buckets, key: string, now: real, later: real, r: Rate)
    requires r.Valid() && now <= later
    ensures Level(m, key, later, r) <= Level(m, key, now, r) + Gain(later - now, r)
  {
    GainMonotone(0.0, later - now, r);
    if key in m { AccruedLater(m[key], now, later, r); }
  }

  /** One call spends what it takes, and touches no other key. */
  lemma DecideSpends(m: Buckets, caller: string, key: string, now: real, r: Rate)
    requires r.Valid()
    ensures var (ok, next) := Decide(m, caller, now, r);
            Level(next, key, now, r) == Level(m, key, now, r) - (if ok && caller == key then 1.0 else 0.0)
  {
    assert Gain(now - now, r) == 0.0;
  }

  /** Requests let through are paid for by what was there and what accrued. */
  lemma {:induction false} AllowedIsPaidFor(m: Buckets, calls: seq<Call>, key: string, r: Rate)
    requires r.Valid() && calls != [] && Ordered(calls) && Level(m, key, calls[0].at, r) >= 0.0
    ensures Allowed(m, calls, key, r) as real
        <= Level(m, key, calls[0].at, r) + Gain(calls[|calls| - 1].at - calls[0].at, r)
    decreases calls
  {
    var now := calls[0].at;
    var (ok, next) := Decide(m, calls[0].key, now, r);
    DecideSpends(m, calls[0].key, key, now, r);
    if |calls| == 1 {
      assert calls[1..] == [];
      assert Allowed(next, [], key, r) == 0;
      assert Gain(now - now, r) == 0.0;
    } else {
      var later, end := calls[1].at, calls[|calls| - 1].at;
      LevelGrows(next, key, now, later, r);
      LevelStaysPositive(next, key, now, later, r);
      AllowedIsPaidFor(next, calls[1..], key, r);
      GainAdds(later - now, end - later, r);
      assert later - now + (end - later) == end - now;
    }
  }

  lemma LevelStaysPositive(m: Buckets, key: string, now: real, later: real, r: Rate)
    requires r.Valid() && now <= later && Level(m, key, now, r) >= 0.0
    ensures Level(m, key, later, r) >= 0.0
  {
    GainMonotone(0.0, later - now, r);
    if key in m { AccruedLater(m[key], now, later, r); }
  }

  /** In any window of the calls that lasts at most T, a key gets through at most
      burst + rps * T times, whatever came before and whatever other keys do. */
  lemma WindowBound(calls: seq<Call>, i: nat, j: nat, key: string, r: Rate, T: real)
    requires r.Valid() && r.burst >= 0.0 && Ordered(calls) && i < j <= |calls| && calls[j - 1].at - calls[i].at <= T
    ensures Allowed(After(map[], calls[..i], r), calls[i..j], key, r) as real <= r.burst + Gain(T, r)
  {
    var m := After(map[], calls[..i], r);
    AfterIsPositive(map[], calls[..i], key, calls[i].at, r);
    AllowedIsPaidFor(m, calls[i..j], key, r);
    GainMonotone(calls[j - 1].at - calls[i].at, T, r);
  }

  lemma {:induction false} AfterIsPositive(m: Buckets, calls: seq<Call>, key: string, now: real, r: Rate)
    requires r.Valid() && r.burst >= 0.0 && Ordered(calls)
    requires calls != [] ==> calls[|calls| - 1].at <= now
    requires forall t: real | (if calls == [] then now else calls[0].at) <= t :: Level(m, key, t, r) >= 0.0
    ensures Level(After(m, calls, r), key, now, r) >= 0.0
    decreases calls
  {
    if calls != [] {
      var (ok, next) := Decide(m, calls[0].key, calls[0].at, r);
      DecideSpends(m, calls[0].key, key, calls[0].at, r);
      forall t: real | calls[0].at <= t ensures Level(next, key, t, r) >= 0.0 {
        assert Level(m, key, calls[0].at, r) >= 0.0;
        LevelStaysPositive(next, key, calls[0].at, t, r);
      }
      AfterIsPositive(next, calls[1..], key, now, r);
    }
  }

  // ---- and how many do ----

  /** A request passes exactly if a whole token is there, and takes exactly that. */
  lemma PassesExactly(m: Buckets, key: string, now: real, r: Rate)
    requires r.Valid()
    ensures Decide(m, key, now, r).0 <==> Level(m, key, now, r) >= 1.0
    ensures key !in m ==> Level(m, key, now, r) == r.burst
  {}

  /** n requests of one key at one instant. */
  function Volley(key: string, at: real, n: nat): seq<Call> { seq(n, _ => Call(key, at)) }

  /** Of requests of one key at one instant as many pass as there are whole tokens, and no more. */
  lemma {:induction false} VolleyPasses(m: Buckets, key: string, at: real, n: nat, tokens: nat, r: Rate)
    requires r.Valid() && tokens as real <= Level(m, key, at, r) < tokens as real + 1.0
    ensures Allowed(m, Volley(key, at, n), key, r) == if n <= tokens then n else tokens
    decreases n
  {
    if n > 0 {
      var volley := Volley(key, at, n);
      var (ok, next) := Decide(m, key, at, r);
      assert volley[0] == Call(key, at) && volley[1..] == Volley(key, at, n - 1);
      DecideSpends(m, key, key, at, r);
      VolleyPasses(next, key, at, n - 1, if ok then tokens - 1 else tokens, r);
    }
  }

  /** From a fresh key a burst passes at once, and nothing beyond it. */
  lemma BurstPasses(key: string, at: real, burst: nat, rps: real, n: nat)
    requires rps >= 0.0
    ensures Allowed(map[], Volley(key, at, n), key, Rate(rps, burst as real)) == if n <= burst then n else burst
  {
    VolleyPasses(map[], key, at, n, burst, Rate(rps, burst as real));
  }

  /** A key that asks no faster than tokens accrue is never refused. */
  lemma {:induction false} SteadyIsNeverRefused(m: Buckets, calls: seq<Call>, key: string, r: Rate)
    requires r.Valid() && r.burst >= 1.0 && (forall i | 0 <= i < |calls| :: calls[i].key == key)
    requires forall i | 0 <= i < |calls| - 1 :: Gain(calls[i + 1].at - calls[i].at, r) >= 1.0
    requires calls != [] ==> Level(m, key, calls[0].at, r) >= 1.0
    ensures Allowed(m, calls, key, r) == |calls|
    decreases |calls|
  {
    if calls != [] {
      var (ok, next) := Decide(m, key, calls[0].at, r);
      if |calls| > 1 { RefilledBy(m, key, calls[0].at, calls[1].at, r); }
      forall i | 0 <= i < |calls[1..]| ensures calls[1..][i] == calls[i + 1] {}
      SteadyIsNeverRefused(next, calls[1..], key, r);
    }
  }

  lemma RefilledBy(m: Buckets, key: string, now: real, later: real, r: Rate)
    requires r.burst >= 1.0 && Level(m, key, now, r) >= 1.0 && Gain(later - now, r) >= 1.0
    ensures Level(Decide(m, key, now, r).1, key, later, r) >= 1.0
  {}
}
