/** Token-bucket admission. Seconds and tokens are reals; the steady clock is a parameter. */
module RateLimit {
  import opened Wrappers

  const MAX_BUCKETS := 8192
  const IDLE_LIMIT := 300.0

  datatype Bucket = Bucket(tokens: real, last: real)

  type Buckets = map<string, Bucket>

  datatype Call = Call(key: string, ratePerSec: real, burst: real, penalty: real, now: real)

  /** `retryAfter` is left alone when limiting is disabled. */
  datatype Grant = Grant(ok: bool, retryAfter: Option<real>)

  function RealMin(a: real, b: real): real {
    if a < b then a else b
  }

  /** The refill rate under a penalty. */
  function EffectiveRate(c: Call): (rate: real)
    requires Enabled(c)
    ensures 0.0 < rate <= c.ratePerSec
  {
    var divisor := if c.penalty < 1.0 then 1.0 else c.penalty;
    DividedLowers(c.ratePerSec, divisor);
    c.ratePerSec / divisor
  }

  /** Tokens refilled in some time. */
  function Gain(elapsed: real, rate: real): real {
    elapsed * rate
  }

  /** The time until so many tokens are back. */
  function Delay(missing: real, rate: real): real
    requires rate > 0.0
  {
    missing / rate
  }

  function Refilled(b: Bucket, rate: real, burst: real, now: real): real {
    RealMin(burst, b.tokens + Gain(now - b.last, rate))
  }

  /** What a call finds in its bucket. */
  function Level(buckets: Buckets, key: string, rate: real, burst: real, now: real): real {
    if key in buckets then Refilled(buckets[key], rate, burst, now) else burst
  }

  predicate Prunable(b: Bucket, burst: real, now: real) {
    now - b.last > IDLE_LIMIT || b.tokens >= burst
  }

  predicate Enabled(c: Call) {
    c.ratePerSec > 0.0 && c.burst > 0.0
  }

  /** The table as a call sees it: pruned, by the caller's own burst, when it has grown too large. */
  function Kept(buckets: Buckets, c: Call): Buckets {
    if |buckets| > MAX_BUCKETS then map k | k in buckets && !Prunable(buckets[k], c.burst, c.now) :: buckets[k]
    else buckets
  }

  function Taken(buckets: Buckets, c: Call): (Buckets, Grant)
    requires Enabled(c)
  {
    var rate := EffectiveRate(c);
    var level := Level(buckets, c.key, rate, c.burst, c.now);
    if level >= 1.0 then (buckets[c.key := Bucket(level - 1.0, c.now)], Grant(true, Some(0.0)))
    else (buckets[c.key := Bucket(level, c.now)], Grant(false, Some(Delay(1.0 - level, rate))))
  }

  function Allowed(buckets: Buckets, c: Call): (Buckets, Grant) {
    if !Enabled(c) then (buckets, Grant(true, None)) else Taken(Kept(buckets, c), c)
  }

  class RateLimiter {
    var buckets: Buckets

    constructor ()
      ensures buckets == map[]
    {
      buckets := map[];
    }

    method Allow(c: Call) returns (g: Grant)
      modifies this
      ensures (buckets, g) == Allowed(old(buckets), c)
    {
      hide EffectiveRate, Gain, Delay;
      if c.ratePerSec <= 0.0 || c.burst <= 0.0 {
        return Grant(true, None);
      }
      var rate := EffectiveRate(c);
      if |buckets| > MAX_BUCKETS {
        Prune(c.burst, c.now);
      }
      assert buckets == Kept(old(buckets), c);
      var tokens := c.burst;
      if c.key in buckets {
        var b := buckets[c.key];
        tokens := RealMin(c.burst, b.tokens + Gain(c.now - b.last, rate));
      }
      if tokens >= 1.0 {
        buckets := buckets[c.key := Bucket(tokens - 1.0, c.now)];
        return Grant(true, Some(0.0));
      }
      buckets := buckets[c.key := Bucket(tokens, c.now)];
      return Grant(false, Some(Delay(1.0 - tokens, rate)));
    }

    method Prune(burst: real, now: real)
      modifies this
      ensures buckets == map k | k in old(buckets) && !Prunable(old(buckets)[k], burst, now) :: old(buckets)[k]
    {
      var todo := buckets.Keys;
      while todo != {}
        invariant todo <= buckets.Keys
        invariant buckets ==
                  map k | k in old(buckets) && (k in todo || !Prunable(old(buckets)[k], burst, now)) :: old(buckets)[k]
      {
        var k :| k in todo;
        if now - buckets[k].last > IDLE_LIMIT || buckets[k].tokens >= burst {
          buckets := buckets - {k};
        }
        todo := todo - {k};
      }
    }
  }

  // ---- runs of calls ----

  function Run(calls: seq<Call>): Buckets {
    if calls == [] then map[] else Allowed(Run(calls[..|calls| - 1]), calls[|calls| - 1]).0
  }

  /** The outcome of call `i`. */
  function Outcome(calls: seq<Call>, i: nat): Grant
    requires i < |calls|
  {
    Allowed(Run(calls[..i]), calls[i]).1
  }

  /** Calls of `key` allowed among numbers `i` to `j - 1`. */
  function Admitted(calls: seq<Call>, key: string, i: nat, j: nat): nat
    requires i <= j <= |calls|
  {
    if i == j then 0
    else Admitted(calls, key, i, j - 1) + if calls[j - 1].key == key && Outcome(calls, j - 1).ok then 1 else 0
  }

  /** Whether call `i` throws the bucket of `key` away. */
  predicate Drops(calls: seq<Call>, key: string, i: nat)
    requires i < |calls|
  {
    var before := Run(calls[..i]);
    Enabled(calls[i]) && key in before && key !in Kept(before, calls[i])
  }

  function Dropped(calls: seq<Call>, key: string, i: nat, j: nat): nat
    requires i <= j <= |calls|
  {
    if i == j then 0 else Dropped(calls, key, i, j - 1) + if Drops(calls, key, j - 1) then 1 else 0
  }

  ghost predicate ClockForward(calls: seq<Call>) {
    forall i, j :: 0 <= i < j < |calls| ==> calls[i].now <= calls[j].now
  }

  /** Every call on `key` uses this rate and burst; its penalties are arbitrary. */
  ghost predicate Uses(calls: seq<Call>, key: string, rate: real, burst: real) {
    forall c :: c in calls && c.key == key ==> c.ratePerSec == rate && c.burst == burst
  }

  // ---- arithmetic ----

  lemma Positive(e: real, d: real)
    requires d > 0.0 && e * d > 0.0
    ensures e > 0.0
  {
    assert e <= 0.0 ==> (0.0 - e) * d >= 0.0;
  }

  lemma DividedLowers(r: real, d: real)
    requires r > 0.0 && d >= 1.0
    ensures 0.0 < r / d <= r
  {
    var e := r / d;
    assert e * d == r;
    Positive(e, d);
    assert e * (d - 1.0) >= 0.0;
    assert e * (d - 1.0) == e * d - e;
  }

  lemma GainMonotone(dt: real, r: real, s: real)
    requires dt >= 0.0 && 0.0 <= r <= s
    ensures 0.0 <= Gain(dt, r) <= Gain(dt, s)
  {
    assert dt * (s - r) >= 0.0;
    assert dt * (s - r) == dt * s - dt * r;
  }

  lemma GainAdds(d: real, e: real, rate: real)
    ensures Gain(d + e, rate) == Gain(d, rate) + Gain(e, rate) && Gain(0.0, rate) == 0.0
  {
  }

  lemma DelayExact(dt: real, rate: real, missing: real)
    requires rate > 0.0
    ensures dt >= Delay(missing, rate) <==> Gain(dt, rate) >= missing
  {
    var s := missing / rate;
    assert s * rate == missing;
    assert (dt - s) * rate == dt * rate - missing;
    if dt < s {
      Positive2(s - dt, rate);
    } else {
      assert (dt - s) * rate >= 0.0;
    }
  }

  lemma Positive2(d: real, r: real)
    requires d > 0.0 && r > 0.0
    ensures d * r > 0.0
  {
  }

  // ---- the bound ----

  /** Every bucket holds a non-negative number of tokens and was last touched by now. */
  ghost predicate BucketsOk(buckets: Buckets, now: real) {
    forall k :: k in buckets ==> buckets[k].tokens >= 0.0 && buckets[k].last <= now
  }

  lemma AllowedKeeps(buckets: Buckets, c: Call)
    requires BucketsOk(buckets, c.now)
    ensures BucketsOk(Allowed(buckets, c).0, c.now)
  {
    hide EffectiveRate, Gain, Delay;
    if Enabled(c) {
      LevelBounds(Kept(buckets, c), c.key, EffectiveRate(c), c.burst, c.now);
    }
  }

  lemma RefillMonotone(b: Bucket, low: real, rate: real, burst: real, now: real)
    requires b.last <= now && 0.0 <= low <= rate
    ensures Refilled(b, low, burst, now) <= Refilled(b, rate, burst, now)
    ensures b.tokens >= 0.0 && burst > 0.0 ==> 0.0 <= Refilled(b, low, burst, now) <= burst
  {
    hide Gain;
    GainMonotone(now - b.last, low, rate);
  }

  lemma LevelBounds(buckets: Buckets, key: string, rate: real, burst: real, now: real)
    requires BucketsOk(buckets, now) && rate > 0.0 && burst > 0.0
    ensures 0.0 <= Level(buckets, key, rate, burst, now) <= burst
  {
    if key in buckets {
      RefillMonotone(buckets[key], rate, rate, burst, now);
    }
  }

  lemma {:induction false} RunOk(calls: seq<Call>, now: real)
    requires ClockForward(calls) && (calls != [] ==> calls[|calls| - 1].now <= now)
    ensures BucketsOk(Run(calls), now)
  {
    hide Allowed;
    if calls != [] {
      var c := calls[|calls| - 1];
      RunOk(calls[..|calls| - 1], c.now);
      AllowedKeeps(Run(calls[..|calls| - 1]), c);
    }
  }

  /** A smaller refill rate finds no more in the bucket. */
  lemma LevelMonotone(buckets: Buckets, key: string, low: real, rate: real, burst: real, now: real)
    requires BucketsOk(buckets, now) && 0.0 < low <= rate
    ensures Level(buckets, key, low, burst, now) <= Level(buckets, key, rate, burst, now)
  {
    if key in buckets {
      RefillMonotone(buckets[key], low, rate, burst, now);
    }
  }

  lemma TakenPays(kept: Buckets, c: Call, key: string, rate: real, burst: real)
    requires BucketsOk(kept, c.now) && rate > 0.0 && burst > 0.0 && Enabled(c)
    requires c.key == key ==> c.ratePerSec == rate && c.burst == burst
    ensures var (after, g) := Taken(kept, c);
            (if c.key == key && g.ok then 1.0 else 0.0) + Level(after, key, rate, burst, c.now)
            <= Level(kept, key, rate, burst, c.now)
  {
    hide EffectiveRate, Gain, Delay;
    GainAdds(0.0, 0.0, rate);
    if c.key == key {
      LevelMonotone(kept, key, EffectiveRate(c), rate, burst, c.now);
    }
  }

  /** One call: what it admits comes out of the level, and throwing the bucket away gives back one burst at most. */
  lemma CallPays(buckets: Buckets, c: Call, key: string, rate: real, burst: real)
    requires BucketsOk(buckets, c.now) && rate > 0.0 && burst > 0.0
    requires c.key == key ==> c.ratePerSec == rate && c.burst == burst
    ensures var (after, g) := Allowed(buckets, c);
            (if c.key == key && g.ok then 1.0 else 0.0) + Level(after, key, rate, burst, c.now)
            <= Level(buckets, key, rate, burst, c.now)
               + if Enabled(c) && key in buckets && key !in Kept(buckets, c) then burst else 0.0
  {
    hide Taken, Gain;
    LevelBounds(buckets, key, rate, burst, c.now);
    if Enabled(c) {
      TakenPays(Kept(buckets, c), c, key, rate, burst);
    }
  }

  /** What a number of bursts and a time of refilling can pay for. */
  function Budget(bursts: nat, burst: real, rate: real, elapsed: real): real {
    bursts as real * burst + Gain(elapsed, rate)
  }

  lemma LevelOverTime(buckets: Buckets, key: string, rate: real, burst: real, t: real, u: real)
    requires t <= u && rate > 0.0
    ensures Level(buckets, key, rate, burst, u) <= Level(buckets, key, rate, burst, t) + Gain(u - t, rate)
  {
    hide Gain;
    GainMonotone(u - t, rate, rate);
    if key in buckets {
      GainAdds(t - buckets[key].last, u - t, rate);
    }
  }

  lemma BudgetAdds(n: nat, burst: real, rate: real, d: real, e: real)
    ensures Budget(n, burst, rate, d) + Gain(e, rate) == Budget(n, burst, rate, d + e)
    ensures Budget(n + 1, burst, rate, d) == Budget(n, burst, rate, d) + burst
    ensures Budget(1, burst, rate, 0.0) == burst
  {
    hide Gain;
    GainAdds(d, e, rate);
    assert (n + 1) as real == n as real + 1.0;
    assert (n as real + 1.0) * burst == n as real * burst + burst;
  }

  /** Admitted calls and what is left are paid for by one burst, the refill, and one burst per thrown-away bucket. */
  lemma {:induction false} Paid(calls: seq<Call>, key: string, rate: real, burst: real, i: nat, j: nat)
    requires i < j <= |calls| && ClockForward(calls) && Uses(calls, key, rate, burst) && rate > 0.0 && burst > 0.0
    ensures Admitted(calls, key, i, j) as real + Level(Run(calls[..j]), key, rate, burst, calls[j - 1].now)
            <= Budget(1 + Dropped(calls, key, i, j), burst, rate, calls[j - 1].now - calls[i].now)
    decreases j
  {
    hide Level, Allowed, Kept, BucketsOk, Budget, Gain, Run, ClockForward;
    var c, before := calls[j - 1], Run(calls[..j - 1]);
    RunStep(calls, j);
    ClockPrefix(calls, j - 1);
    RunOk(calls[..j - 1], c.now);
    CallPays(before, c, key, rate, burst);
    LevelBounds(before, key, rate, burst, c.now);
    var t := calls[if i < j - 1 then j - 2 else i].now;
    if i < j - 1 {
      Paid(calls, key, rate, burst, i, j - 1);
    }
    LevelOverTime(before, key, rate, burst, t, c.now);
    var n := 1 + Dropped(calls, key, i, j - 1);
    BudgetAdds(n, burst, rate, t - calls[i].now, c.now - t);
    BudgetAdds(n, burst, rate, c.now - calls[i].now, 0.0);
  }

  lemma ClockPrefix(calls: seq<Call>, j: nat)
    requires ClockForward(calls) && j < |calls|
    ensures ClockForward(calls[..j]) && (j > 0 ==> calls[j - 1].now <= calls[j].now)
  {
  }

  lemma RunStep(calls: seq<Call>, j: nat)
    requires 0 < j <= |calls|
    ensures Run(calls[..j]) == Allowed(Run(calls[..j - 1]), calls[j - 1]).0
  {
    assert calls[..j][..j - 1] == calls[..j - 1];
  }

  /** Between any two moments at most `burst + rate * elapsed` calls of a key are let through, whatever its penalties
      and whatever other keys do, plus one burst for each time its bucket was thrown away in between. */
  lemma AdmissionBound(calls: seq<Call>, key: string, rate: real, burst: real, i: nat, j: nat)
    requires i < j <= |calls| && ClockForward(calls) && Uses(calls, key, rate, burst) && rate > 0.0 && burst > 0.0
    ensures Admitted(calls, key, i, j) as real
            <= Budget(1 + Dropped(calls, key, i, j), burst, rate, calls[j - 1].now - calls[i].now)
    ensures Dropped(calls, key, i, j) == 0 ==>
              Admitted(calls, key, i, j) as real <= burst + Gain(calls[j - 1].now - calls[i].now, rate)
  {
    hide Run, Admitted, Dropped, Gain;
    Paid(calls, key, rate, burst, i, j);
    RunOk(calls[..j], calls[j - 1].now);
    LevelBounds(Run(calls[..j]), key, rate, burst, calls[j - 1].now);
  }

  /** The promised delay is exact: with no other call of the key in between, the next one passes if and only if that
      much time has gone by. A burst below one token lets nothing through, so there the promise is void. */
  lemma RetryAfterExact(buckets: Buckets, c: Call, later: Call)
    requires Enabled(c) && !Allowed(buckets, c).1.ok
    requires later == c.(now := later.now) && later.now >= c.now && |Allowed(buckets, c).0| <= MAX_BUCKETS
    ensures var (after, g) := Allowed(buckets, c);
            g.retryAfter.Some? &&
            (Allowed(after, later).1.ok <==> c.burst >= 1.0 && later.now - c.now >= g.retryAfter.value)
  {
    hide Kept, EffectiveRate, Gain, Delay;
    var rate, dt := EffectiveRate(c), later.now - c.now;
    var level := Level(Kept(buckets, c), c.key, rate, c.burst, c.now);
    SmallTableKept(Allowed(buckets, c).0, later);
    SameRate(c, later);
    DelayExact(dt, rate, 1.0 - level);
  }

  lemma SameRate(c: Call, d: Call)
    requires Enabled(c) && d == c.(now := d.now)
    ensures EffectiveRate(d) == EffectiveRate(c)
  {
  }

  /** A penalty above one slows the refill by so much; a smaller one does nothing. */
  lemma PenaltyDivides(buckets: Buckets, c: Call)
    ensures c.penalty >= 1.0 ==>
              Allowed(buckets, c) == Allowed(buckets, c.(ratePerSec := c.ratePerSec / c.penalty, penalty := 1.0))
    ensures c.penalty <= 1.0 ==> Allowed(buckets, c) == Allowed(buckets, c.(penalty := 1.0))
  {
    hide Gain, Delay, Level;
    if c.penalty >= 1.0 {
      var slow := c.(ratePerSec := c.ratePerSec / c.penalty, penalty := 1.0);
      QuotientPositive(c.ratePerSec, c.penalty);
      assert Kept(buckets, c) == Kept(buckets, slow);
    } else {
      assert Kept(buckets, c) == Kept(buckets, c.(penalty := 1.0));
    }
  }

  lemma QuotientPositive(rate: real, penalty: real)
    requires penalty >= 1.0
    ensures rate / penalty > 0.0 <==> rate > 0.0
    ensures rate / penalty / 1.0 == rate / penalty
  {
  }

  /** Without a penalty, in a table that need not be pruned: a newcomer finds the burst, others their tokens and what
      has come back, never more than the burst; one whole token buys the call, otherwise nothing is taken and the
      time until it would is told. Nobody else's bucket is touched. */
  lemma AllowExact(buckets: Buckets, c: Call)
    requires |buckets| <= 8192 && c.penalty == 1.0 && c.ratePerSec > 0.0 && c.burst > 0.0
    ensures var (after, g) := Allowed(buckets, c);
            var back := if c.key in buckets then buckets[c.key].tokens + Gain(c.now - buckets[c.key].last, c.ratePerSec)
                        else c.burst;
            var found := if back > c.burst then c.burst else back;
            && g.ok == (found >= 1.0)
            && after == buckets[c.key := Bucket(if g.ok then found - 1.0 else found, c.now)]
            && g.retryAfter == Some(if g.ok then 0.0 else Delay(1.0 - found, c.ratePerSec))
  {
    hide EffectiveRate, Gain, Delay, Kept;
    SmallTableKept(buckets, c);
    PlainRate(c);
  }

  /** Tokens come back in proportion to time and rate, and a delay brings back just what is missing. */
  lemma RefillExact(elapsed: real, missing: real, rate: real)
    requires rate > 0.0
    ensures Gain(elapsed, rate) == elapsed * rate && Gain(Delay(missing, rate), rate) == missing
  {
  }

  lemma PlainRate(c: Call)
    requires Enabled(c) && c.penalty == 1.0
    ensures EffectiveRate(c) == c.ratePerSec
  {
  }

  lemma SmallTableKept(buckets: Buckets, c: Call)
    requires |buckets| <= MAX_BUCKETS
    ensures Kept(buckets, c) == buckets
  {
  }

  // ---- what pruning forgets ----

  /** Above 8192 buckets those go that were idle for more than 300 seconds or hold the caller's burst; no other is
      touched. */
  lemma KeptExact(buckets: Buckets, c: Call, key: string)
    ensures key in Kept(buckets, c) <==>
              key in buckets &&
              (|buckets| <= 8192 || (c.now - buckets[key].last <= 300.0 && buckets[key].tokens < c.burst))
    ensures key in Kept(buckets, c) ==> Kept(buckets, c)[key] == buckets[key]
  {
  }

  /** A pruned bucket is found full, so its owner notices nothing exactly if it would have been full again. */
  lemma PruneUnnoticed(buckets: Buckets, c: Call, key: string, rate: real, burst: real)
    requires key in buckets && key !in Kept(buckets, c)
    ensures Level(Kept(buckets, c), key, rate, burst, c.now) == Level(buckets, key, rate, burst, c.now)
            <==> buckets[key].tokens + Gain(c.now - buckets[key].last, rate) >= burst
  {
    hide Gain, Kept;
  }

  /** Whoever prunes with burst `cb`, an owner with this rate and burst finds in its bucket what it would have found. */
  ghost predicate PruneHidden(rate: real, burst: real, cb: real) {
    forall buckets: Buckets, c: Call, key: string ::
      c.burst == cb && key in buckets && 0.0 <= buckets[key].tokens <= burst && buckets[key].last <= c.now ==>
        Level(Kept(buckets, c), key, rate, burst, c.now) == Level(buckets, key, rate, burst, c.now)
  }

  /** Pruning is harmless to an owner exactly when every caller that prunes has at least the owner's burst and the idle
      limit is long enough to refill it. */
  lemma PruneExact(rate: real, burst: real, cb: real)
    requires rate > 0.0 && burst > 0.0 && cb > 0.0
    ensures PruneHidden(rate, burst, cb) <==> cb >= burst && Gain(IDLE_LIMIT, rate) >= burst
  {
    hide Gain, Kept, Level;
    if cb >= burst && Gain(IDLE_LIMIT, rate) >= burst {
      forall buckets: Buckets, c: Call, key: string |
        c.burst == cb && key in buckets && 0.0 <= buckets[key].tokens <= burst && buckets[key].last <= c.now
        ensures Level(Kept(buckets, c), key, rate, burst, c.now) == Level(buckets, key, rate, burst, c.now)
      {
        PruneHarmless(buckets, c, key, rate, burst);
      }
    }
    if cb < burst {
      GainAdds(0.0, 0.0, rate);
      PruneNoticed(Bucket(cb, 0.0), Call("", 1.0, cb, 1.0, 0.0), rate, burst);
    }
    if Gain(IDLE_LIMIT, rate) < burst {
      var late := JustPastIdle(rate, burst);
      PruneNoticed(Bucket(0.0, 0.0), Call("", 1.0, cb, 1.0, late), rate, burst);
    }
  }

  lemma PruneHarmless(buckets: Buckets, c: Call, key: string, rate: real, burst: real)
    requires key in buckets && 0.0 <= buckets[key].tokens <= burst && buckets[key].last <= c.now
    requires c.burst >= burst && rate > 0.0 && Gain(IDLE_LIMIT, rate) >= burst
    ensures Level(Kept(buckets, c), key, rate, burst, c.now) == Level(buckets, key, rate, burst, c.now)
  {
    hide Gain;
    var dt := c.now - buckets[key].last;
    GainMonotone(dt, rate, rate);
    if dt > IDLE_LIMIT {
      GainAdds(IDLE_LIMIT, dt - IDLE_LIMIT, rate);
      GainMonotone(dt - IDLE_LIMIT, rate, rate);
    }
  }

  /** A moment past the idle limit at which an empty bucket is not yet full. */
  lemma JustPastIdle(rate: real, burst: real) returns (late: real)
    requires rate > 0.0 && Gain(IDLE_LIMIT, rate) < burst
    ensures late > IDLE_LIMIT && Gain(late, rate) < burst
  {
    var missing := burst - Gain(IDLE_LIMIT, rate);
    var extra := missing / (2.0 * rate);
    assert extra * (2.0 * rate) == missing;
    Positive(extra, 2.0 * rate);
    late := IDLE_LIMIT + extra;
    assert Gain(late, rate) == Gain(IDLE_LIMIT, rate) + extra * rate;
  }

  /** In a table above the limit, a bucket that may be pruned before it is full again is, and its owner notices. */
  lemma PruneNoticed(b: Bucket, c: Call, rate: real, burst: real)
    requires Prunable(b, c.burst, c.now) && 0.0 <= b.tokens <= burst && b.last <= c.now
    requires b.tokens + Gain(c.now - b.last, rate) < burst
    ensures !PruneHidden(rate, burst, c.burst)
  {
    hide Gain, Prunable;
    var buckets, key := Crowd(MAX_BUCKETS + 1, b), Name(1);
    CrowdIs(MAX_BUCKETS + 1, b);
    CrowdHas(MAX_BUCKETS + 1, b, 1);
    PruneUnnoticed(buckets, c, key, rate, burst);
  }

  /** Names as long as their number. */
  function Name(i: nat): string {
    seq(i, _ => 'x')
  }

  /** A table of `n` equal buckets. */
  function Crowd(n: nat, b: Bucket): Buckets {
    if n == 0 then map[] else Crowd(n - 1, b)[Name(n) := b]
  }

  lemma {:induction false} CrowdIs(n: nat, b: Bucket)
    ensures |Crowd(n, b)| == n
    ensures forall k :: k in Crowd(n, b) ==> k == Name(|k|) && 1 <= |k| <= n && Crowd(n, b)[k] == b
  {
    if n > 0 {
      CrowdIs(n - 1, b);
      assert |Name(n)| == n && Name(n) !in Crowd(n - 1, b);
    }
  }

  lemma {:induction false} CrowdHas(n: nat, b: Bucket, i: nat)
    requires 1 <= i <= n
    ensures Name(i) in Crowd(n, b)
  {
    if i < n {
      CrowdHas(n - 1, b, i);
    }
  }

  /** `n` users make one API call each at the same moment: 30 calls per second, burst 90. */
  function CrowdCalls(n: nat): (calls: seq<Call>)
    ensures |calls| == n
  {
    if n == 0 then [] else CrowdCalls(n - 1) + [Call(Name(n), 30.0, 90.0, 1.0, 0.0)]
  }

  /** A newcomer's API call on a table that need not be pruned leaves it with all but one token. */
  lemma NewcomerCalls(buckets: Buckets, name: string)
    requires |buckets| <= MAX_BUCKETS && name !in buckets
    ensures Allowed(buckets, Call(name, 30.0, 90.0, 1.0, 0.0)).0 == buckets[name := Bucket(89.0, 0.0)]
  {
    hide Kept, Gain, Delay, EffectiveRate;
    SmallTableKept(buckets, Call(name, 30.0, 90.0, 1.0, 0.0));
  }

  lemma {:induction false} CrowdRun(n: nat)
    requires n <= MAX_BUCKETS + 1
    ensures Run(CrowdCalls(n)) == Crowd(n, Bucket(89.0, 0.0))
  {
    hide Allowed, Run;
    var calls, b := CrowdCalls(n), Bucket(89.0, 0.0);
    RunEmpty();
    if n > 0 {
      CrowdRun(n - 1);
      CrowdIs(n - 1, b);
      RunStep(calls, n);
      assert calls[..n] == calls && calls[..n - 1] == CrowdCalls(n - 1);
      assert |Name(n)| == n;
      NewcomerCalls(Crowd(n - 1, b), Name(n));
    }
  }

  lemma RunEmpty()
    ensures Run([]) == map[]
  {
  }

  /** A login attempt: one call per two seconds, burst 6. */
  const LOGIN := Call("ip", 0.5, 6.0, 1.0, 0.0)

  /** With the bursts the server uses pruning does hand tokens back: after one API call by each of 8193 users, a login
      attempt throws all their buckets away, and each user finds the full burst of 90 again. */
  lemma PruneForgives()
    ensures var before, after := CrowdCalls(MAX_BUCKETS + 1), CrowdCalls(MAX_BUCKETS + 1) + [LOGIN];
            forall i: nat :: 1 <= i <= MAX_BUCKETS + 1 ==>
              && Drops(after, Name(i), MAX_BUCKETS + 1)
              && Level(Run(before), Name(i), 30.0, 90.0, 0.0) == 89.0
              && Level(Run(after), Name(i), 30.0, 90.0, 0.0) == 90.0
  {
    hide CrowdCalls, Crowd, Run;
    var before, b := CrowdCalls(MAX_BUCKETS + 1), Bucket(89.0, 0.0);
    CrowdRun(MAX_BUCKETS + 1);
    CrowdIs(MAX_BUCKETS + 1, b);
    var after := before + [LOGIN];
    RunStep(after, MAX_BUCKETS + 2);
    assert after[..MAX_BUCKETS + 1] == before && after[..MAX_BUCKETS + 2] == after;
    forall i: nat | 1 <= i <= MAX_BUCKETS + 1
      ensures Name(i) != "ip" && Name(i) in Crowd(MAX_BUCKETS + 1, b)
    {
      CrowdHas(MAX_BUCKETS + 1, b, i);
      assert Name(i)[0] == 'x';
    }
  }
}
