/**
 * Inbound throttling: one token bucket per key, refilled by the clock. The
 * router keeps two such tables, one by peer and one by origin key.
 */
module TokenBucket {
  // Tokens per interval, interval length and capacity; rates are real numbers.
  datatype Limit = Limit(tokensPerInterval: real, intervalMs: real, burst: real)

  predicate ValidLimit(limit: Limit) {
    limit.tokensPerInterval >= 0.0 && limit.intervalMs > 0.0 && limit.burst >= 0.0
  }

  datatype Bucket = Bucket(tokens: real, lastRefillAt: int)

  type Buckets = map<string, Bucket>

  function Rate(limit: Limit): real
    requires ValidLimit(limit)
  {
    limit.tokensPerInterval / limit.intervalMs
  }

  // Tokens that come in during a number of milliseconds.
  function Accrued(elapsed: int, limit: Limit): real
    requires ValidLimit(limit)
  {
    elapsed as real * Rate(limit)
  }

  lemma AccruedFacts(a: int, b: int, limit: Limit)
    requires ValidLimit(limit)
    ensures Accrued(0, limit) == 0.0
    ensures Accrued(a + b, limit) == Accrued(a, limit) + Accrued(b, limit)
    ensures a >= 0 ==> Accrued(a, limit) >= 0.0
  {
    NonNegativeQuotient(limit.tokensPerInterval, limit.intervalMs);
    hide Rate;
    SplitProduct(a, b, Rate(limit));
    if a >= 0 {
      NonNegativeProduct(a as real, Rate(limit));
    }
  }

  function Min(a: real, b: real): real {
    if a <= b then a else b
  }

  function BucketOf(buckets: Buckets, key: string, now: int, limit: Limit): Bucket {
    if key in buckets then buckets[key] else Bucket(limit.burst, now)
  }

  // A clock that stepped backwards refills nothing and moves nothing.
  function Refilled(b: Bucket, now: int, limit: Limit): Bucket
    requires ValidLimit(limit)
  {
    if now - b.lastRefillAt > 0 then
      Bucket(Min(limit.burst, b.tokens + Accrued(now - b.lastRefillAt, limit)), now)
    else b
  }

  function Allows(buckets: Buckets, key: string, now: int, limit: Limit): bool
    requires ValidLimit(limit)
  {
    Refilled(BucketOf(buckets, key, now, limit), now, limit).tokens >= 1.0
  }

  function Step(buckets: Buckets, key: string, now: int, limit: Limit): Buckets
    requires ValidLimit(limit)
  {
    var b := Refilled(BucketOf(buckets, key, now, limit), now, limit);
    buckets[key := if b.tokens >= 1.0 then b.(tokens := b.tokens - 1.0) else b]
  }

  class Throttle {
    const limit: Limit
    var buckets: Buckets

    constructor (limit: Limit)
      ensures this.limit == limit && buckets == map[]
    {
      this.limit := limit;
      buckets := map[];
    }

    method AllowInbound(key: string, now: int) returns (allowed: bool)
      requires ValidLimit(limit)
      modifies this`buckets
      ensures allowed == Allows(old(buckets), key, now, limit)
      ensures buckets == Step(old(buckets), key, now, limit)
    {
      var bucket := if key in buckets then buckets[key] else Bucket(limit.burst, now);
      var elapsed := now - bucket.lastRefillAt;
      if elapsed > 0 {
        var refill := (elapsed as real / limit.intervalMs) * limit.tokensPerInterval;
        RefillIsRate(elapsed as real, limit);
        bucket := Bucket(Min(limit.burst, bucket.tokens + refill), now);
      }
      if bucket.tokens < 1.0 {
        buckets := buckets[key := bucket];
        return false;
      }
      bucket := bucket.(tokens := bucket.tokens - 1.0);
      buckets := buckets[key := bucket];
      return true;
    }
  }

  lemma RefillIsRate(elapsed: real, limit: Limit)
    requires ValidLimit(limit)
    ensures (elapsed / limit.intervalMs) * limit.tokensPerInterval == elapsed * Rate(limit)
  {
    var i, t := limit.intervalMs, limit.tokensPerInterval;
    assert (elapsed / i) * t * i == elapsed * t;
    assert (elapsed * (t / i)) * i == elapsed * t;
  }

  // ---------------------------------------------------------------- runs

  datatype Call = Call(key: string, now: int)

  function Run(buckets: Buckets, calls: seq<Call>, limit: Limit): Buckets
    requires ValidLimit(limit)
  {
    if calls == [] then buckets
    else
      var last := calls[|calls| - 1];
      Step(Run(buckets, calls[..|calls| - 1], limit), last.key, last.now, limit)
  }

  // How many of the calls for one key are let through.
  function Allowed(buckets: Buckets, calls: seq<Call>, key: string, limit: Limit): nat
    requires ValidLimit(limit)
  {
    if calls == [] then 0
    else
      var front, last := calls[..|calls| - 1], calls[|calls| - 1];
      Allowed(buckets, front, key, limit) +
        if last.key == key && Allows(Run(buckets, front, limit), key, last.now, limit) then 1 else 0
  }

  ghost predicate TokensInRange(buckets: Buckets, limit: Limit) {
    forall key :: key in buckets ==> 0.0 <= buckets[key].tokens <= limit.burst
  }

  lemma {:induction false} RunInRange(buckets: Buckets, calls: seq<Call>, limit: Limit)
    requires ValidLimit(limit) && TokensInRange(buckets, limit)
    ensures TokensInRange(Run(buckets, calls, limit), limit)
  {
    if calls != [] {
      var front, last := calls[..|calls| - 1], calls[|calls| - 1];
      RunInRange(buckets, front, limit);
      StepInRange(Run(buckets, front, limit), last.key, last.now, limit);
    }
  }

  lemma RefillInRange(b: Bucket, now: int, limit: Limit)
    requires ValidLimit(limit) && 0.0 <= b.tokens <= limit.burst
    ensures var r := Refilled(b, now, limit);
            && 0.0 <= r.tokens <= limit.burst && b.lastRefillAt <= r.lastRefillAt
            && r.tokens <= b.tokens + Accrued(r.lastRefillAt - b.lastRefillAt, limit)
  {
    AccruedFacts(now - b.lastRefillAt, 0, limit);
    hide Accrued;
  }

  lemma NonNegativeQuotient(a: real, b: real)
    requires a >= 0.0 && b > 0.0
    ensures a / b >= 0.0
  {
  }

  lemma NonNegativeProduct(a: real, b: real)
    requires a >= 0.0 && b >= 0.0
    ensures a * b >= 0.0
  {
  }

  lemma StepInRange(buckets: Buckets, key: string, now: int, limit: Limit)
    requires ValidLimit(limit) && TokensInRange(buckets, limit)
    ensures TokensInRange(Step(buckets, key, now, limit), limit)
  {
    RefillInRange(BucketOf(buckets, key, now, limit), now, limit);
  }

  // The latest time that the key's bucket has seen.
  function HighWater(buckets: Buckets, key: string): int
    requires key in buckets
  {
    buckets[key].lastRefillAt
  }

  lemma {:induction false} KeyStays(buckets: Buckets, calls: seq<Call>, key: string, limit: Limit)
    requires ValidLimit(limit) && key in buckets
    ensures key in Run(buckets, calls, limit)
  {
    if calls != [] {
      KeyStays(buckets, calls[..|calls| - 1], key, limit);
    }
  }

  // Every token let through was in the bucket at the start or came in later.
  lemma {:induction false} TokensAccounted(buckets: Buckets, calls: seq<Call>, key: string, limit: Limit)
    requires ValidLimit(limit) && TokensInRange(buckets, limit) && key in buckets
    ensures key in Run(buckets, calls, limit)
    ensures var after := Run(buckets, calls, limit);
            && HighWater(buckets, key) <= HighWater(after, key)
            && Allowed(buckets, calls, key, limit) as real + after[key].tokens
               <= buckets[key].tokens + Accrued(HighWater(after, key) - HighWater(buckets, key), limit)
  {
    KeyStays(buckets, calls, key, limit);
    AccruedFacts(0, 0, limit);
    hide Accrued, Refilled;
    if calls != [] {
      var front, last := calls[..|calls| - 1], calls[|calls| - 1];
      TokensAccounted(buckets, front, key, limit);
      RunInRange(buckets, front, limit);
      var mid := Run(buckets, front, limit);
      if last.key == key {
        RefillInRange(mid[key], last.now, limit);
        var r := Refilled(mid[key], last.now, limit);
        AccruedFacts(r.lastRefillAt - mid[key].lastRefillAt, mid[key].lastRefillAt - buckets[key].lastRefillAt, limit);
      }
    }
  }

  lemma SplitProduct(a: int, b: int, r: real)
    ensures (a + b) as real * r == a as real * r + b as real * r
  {
  }

  // In any window of calls that starts with a call for the key, with calls for
  // other keys and backward steps of the clock mixed in anywhere, at most the
  // burst plus the rate times the time since that first call is let through.
  lemma WindowBound(before: seq<Call>, first: Call, window: seq<Call>, limit: Limit)
    requires ValidLimit(limit)
    ensures var start := Step(Run(map[], before, limit), first.key, first.now, limit);
            && first.key in start && first.key in Run(start, window, limit)
            && var b := Allows(Run(map[], before, limit), first.key, first.now, limit);
               (if b then 1 else 0) as real + Allowed(start, window, first.key, limit) as real
               <= limit.burst
                  + Accrued(HighWater(Run(start, window, limit), first.key) - HighWater(start, first.key), limit)
  {
    hide Accrued, Refilled;
    var s0 := Run(map[], before, limit);
    RunInRange(map[], before, limit);
    StepInRange(s0, first.key, first.now, limit);
    RefillInRange(BucketOf(s0, first.key, first.now, limit), first.now, limit);
    TokensAccounted(Step(s0, first.key, first.now, limit), window, first.key, limit);
    RunInRange(Step(s0, first.key, first.now, limit), window, limit);
  }

  // What the high water is: the latest time of any call for the key.
  lemma {:induction false} HighWaterIsLatest(buckets: Buckets, calls: seq<Call>, key: string, limit: Limit)
    requires ValidLimit(limit) && key in buckets
    ensures key in Run(buckets, calls, limit)
    ensures var high := HighWater(Run(buckets, calls, limit), key);
            && high >= HighWater(buckets, key)
            && (forall i :: 0 <= i < |calls| && calls[i].key == key ==> calls[i].now <= high)
            && (high == HighWater(buckets, key) || exists i :: 0 <= i < |calls| && calls[i].key == key && calls[i].now == high)
  {
    KeyStays(buckets, calls, key, limit);
    if calls != [] {
      var front, last := calls[..|calls| - 1], calls[|calls| - 1];
      HighWaterIsLatest(buckets, front, key, limit);
      var mid := HighWater(Run(buckets, front, limit), key);
      assert forall i :: 0 <= i < |front| ==> front[i] == calls[i];
      if last.key == key && last.now > mid {
        assert calls[|calls| - 1].now == HighWater(Run(buckets, calls, limit), key);
      } else if mid != HighWater(buckets, key) {
        var i :| 0 <= i < |front| && front[i].key == key && front[i].now == mid;
        assert calls[i].key == key && calls[i].now == mid;
      }
    }
  }

  function CallsFor(calls: seq<Call>, key: string): nat {
    if calls == [] then 0
    else CallsFor(calls[..|calls| - 1], key) + if calls[|calls| - 1].key == key then 1 else 0
  }

  // As many calls as the burst allows are all let through, at whatever times.
  lemma {:induction false} BurstIsAllowed(calls: seq<Call>, key: string, limit: Limit)
    requires ValidLimit(limit) && CallsFor(calls, key) as real <= limit.burst
    ensures Allowed(map[], calls, key, limit) == CallsFor(calls, key)
    ensures var after := Run(map[], calls, limit);
            if key in after then after[key].tokens >= limit.burst - CallsFor(calls, key) as real
            else CallsFor(calls, key) == 0
  {
    hide Accrued;
    if calls != [] {
      var front, last := calls[..|calls| - 1], calls[|calls| - 1];
      BurstIsAllowed(front, key, limit);
      var mid := Run(map[], front, limit);
      if last.key == key && key in mid {
        AccruedFacts(last.now - mid[key].lastRefillAt, 0, limit);
      }
    }
  }

  // ---------------------------------------------------------- what comes back

  lemma RefillGains(b: Bucket, now: int, limit: Limit)
    requires ValidLimit(limit) && 0.0 <= b.tokens <= limit.burst
    ensures var r := Refilled(b, now, limit);
            && r.lastRefillAt == (if now > b.lastRefillAt then now else b.lastRefillAt)
            && r.tokens >= Min(limit.burst, b.tokens + Accrued(r.lastRefillAt - b.lastRefillAt, limit))
  {
    AccruedFacts(0, 0, limit);
    hide Accrued;
  }

  // The other half of the account: the tokens at the start and those that came in
  // up to the latest call are in the bucket or were spent, except for what a full
  // bucket cannot take.
  lemma {:induction false} TokensKept(buckets: Buckets, calls: seq<Call>, key: string, limit: Limit)
    requires ValidLimit(limit) && TokensInRange(buckets, limit) && key in buckets
    ensures key in Run(buckets, calls, limit)
    ensures var after := Run(buckets, calls, limit);
            Allowed(buckets, calls, key, limit) as real + after[key].tokens
            >= Min(limit.burst, buckets[key].tokens + Accrued(HighWater(after, key) - HighWater(buckets, key), limit))
  {
    KeyStays(buckets, calls, key, limit);
    AccruedFacts(0, 0, limit);
    hide Accrued, Refilled;
    if calls != [] {
      var front, last := calls[..|calls| - 1], calls[|calls| - 1];
      TokensKept(buckets, front, key, limit);
      RunInRange(buckets, front, limit);
      var mid := Run(buckets, front, limit);
      if last.key == key {
        RefillGains(mid[key], last.now, limit);
        var r := Refilled(mid[key], last.now, limit);
        AccruedFacts(r.lastRefillAt - mid[key].lastRefillAt, mid[key].lastRefillAt - buckets[key].lastRefillAt, limit);
      }
    }
  }

  // Time enough for an amount of tokens is time enough for it to accrue.
  lemma EnoughTime(elapsed: int, amount: real, limit: Limit)
    requires ValidLimit(limit) && elapsed as real * limit.tokensPerInterval >= amount * limit.intervalMs
    ensures Accrued(elapsed, limit) >= amount
  {
    RefillIsRate(elapsed as real, limit);
    var e, t, i := elapsed as real, limit.tokensPerInterval, limit.intervalMs;
    assert Accrued(elapsed, limit) * i == e * t;
    SmallerProduct(Accrued(elapsed, limit), amount, i);
  }

  lemma SmallerProduct(a: real, b: real, c: real)
    requires c > 0.0
    ensures a < b ==> a * c < b * c
  {
  }

  // In every run: once the time of one token has passed since the latest call for
  // a key, the next call for it is let through, whatever happened before; and so
  // is the first call of a key.
  lemma TokenComesBack(calls: seq<Call>, key: string, now: int, limit: Limit)
    requires ValidLimit(limit) && limit.burst >= 1.0
    requires key in Run(map[], calls, limit) ==>
      (now - HighWater(Run(map[], calls, limit), key)) as real * limit.tokensPerInterval >= limit.intervalMs
    ensures Allows(Run(map[], calls, limit), key, now, limit)
  {
    var buckets := Run(map[], calls, limit);
    RunInRange(map[], calls, limit);
    if key in buckets {
      var elapsed := now - HighWater(buckets, key);
      EnoughTime(elapsed, 1.0, limit);
      PositiveTime(elapsed, limit);
      RefillGains(buckets[key], now, limit);
      hide Accrued, Refilled;
    } else {
      AccruedFacts(0, 0, limit);
    }
  }

  lemma PositiveTime(elapsed: int, limit: Limit)
    requires ValidLimit(limit) && elapsed as real * limit.tokensPerInterval >= limit.intervalMs
    ensures elapsed > 0
  {
    NonPositiveProduct(elapsed as real, limit.tokensPerInterval);
  }

  lemma NonPositiveProduct(a: real, b: real)
    requires b >= 0.0
    ensures a <= 0.0 ==> a * b <= 0.0
  {
  }

  ghost predicate NotBefore(calls: seq<Call>, key: string, time: int) {
    forall i :: 0 <= i < |calls| && calls[i].key == key ==> calls[i].now >= time
  }

  lemma {:induction false} AllowedIsFew(buckets: Buckets, calls: seq<Call>, key: string, limit: Limit)
    requires ValidLimit(limit)
    ensures Allowed(buckets, calls, key, limit) <= CallsFor(calls, key)
  {
    if calls != [] {
      AllowedIsFew(buckets, calls[..|calls| - 1], key, limit);
    }
  }

  // A key that was left alone for the time of a whole burst can spend its whole
  // burst again, at whatever times from then on.
  lemma {:induction false} BurstComesBack(buckets: Buckets, calls: seq<Call>, key: string, time: int, limit: Limit)
    requires ValidLimit(limit) && TokensInRange(buckets, limit) && key in buckets
    requires time >= HighWater(buckets, key) && NotBefore(calls, key, time)
    requires (time - HighWater(buckets, key)) as real * limit.tokensPerInterval >= limit.burst * limit.intervalMs
    requires CallsFor(calls, key) as real <= limit.burst
    ensures Allowed(buckets, calls, key, limit) == CallsFor(calls, key)
  {
    hide Accrued, Refilled, HighWater;
    if calls != [] {
      var front, last := calls[..|calls| - 1], calls[|calls| - 1];
      assert NotBefore(front, key, time);
      BurstComesBack(buckets, front, key, time, limit);
      if last.key == key {
        LastOfBurst(buckets, front, key, last.now, time, limit);
      }
    }
  }

  lemma LastOfBurst(buckets: Buckets, front: seq<Call>, key: string, now: int, time: int, limit: Limit)
    requires ValidLimit(limit) && TokensInRange(buckets, limit) && key in buckets
    requires now >= time >= HighWater(buckets, key)
    requires (time - HighWater(buckets, key)) as real * limit.tokensPerInterval >= limit.burst * limit.intervalMs
    requires CallsFor(front, key) as real + 1.0 <= limit.burst
    ensures Allows(Run(buckets, front, limit), key, now, limit)
  {
    hide Accrued, Refilled, Run, Allowed, CallsFor, Rate;
    TokensKept(buckets, front, key, limit);
    AllowedIsFew(buckets, front, key, limit);
    RunInRange(buckets, front, limit);
    var mid := Run(buckets, front, limit);
    var high := HighWater(mid, key);
    RefillGains(mid[key], now, limit);
    var r := Refilled(mid[key], now, limit);
    EnoughTime(time - HighWater(buckets, key), limit.burst, limit);
    AccruedFacts(r.lastRefillAt - high, high - HighWater(buckets, key), limit);
    AccruedFacts(r.lastRefillAt - time, time - HighWater(buckets, key), limit);
    assert r.tokens >= 1.0 by {
      EnoughTokens(limit.burst, Allowed(buckets, front, key, limit) as real, mid[key].tokens, buckets[key].tokens,
                   Accrued(high - HighWater(buckets, key), limit), Accrued(r.lastRefillAt - high, limit));
    }
  }

  // What was spent, what is left, what there was, what came in since and comes in now.
  lemma EnoughTokens(burst: real, spent: real, left: real, start: real, before: real, now: real)
    requires spent + 1.0 <= burst && start >= 0.0 && spent >= 0.0 && now >= 0.0
    requires before + now >= burst && spent + left >= Min(burst, start + before)
    ensures Min(burst, left + now) >= 1.0
  {
  }
}
