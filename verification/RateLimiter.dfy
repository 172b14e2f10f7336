/** The token bucket. Times are nanoseconds; a process clock stays far below 2^63 microseconds. */
module TokenBucket {
  import opened Words

  const TOKEN_SCALE := 1_000_000

  type Instant = t: int | 0 <= t < (I64_MAX + 1) * 1000

  datatype Bucket = Bucket(tokens: i64, max: i64, refill: i64, lastRefill: Instant, ratePps: u64) {
    predicate Valid() {
      && 0 <= tokens <= max
      && TOKEN_SCALE <= max
      && 1 <= refill
    }

    // `saturating_mul` and `saturating_add`, on operands that are not negative.
    static function SaturatingMul(a: i64, b: i64): i64
      requires a >= 0 && b >= 0
    {
      Min(a * b, I64_MAX)
    }

    static function SaturatingAdd(a: i64, b: i64): i64
      requires a >= 0 && b >= 0
    {
      Min(a + b, I64_MAX)
    }

    /** Whole microseconds since the last refill; zero if the clock reads earlier. */
    function ElapsedMicros(now: Instant): (elapsed: i64)
      ensures elapsed >= 0
    {
      if now >= lastRefill then (now - lastRefill) / 1000 else 0
    }

    function Refill(now: Instant): (b: Bucket)
      requires Valid()
      ensures b.Valid()
    {
      var elapsed := ElapsedMicros(now);
      if elapsed > 0 then
        var filled := SaturatingAdd(tokens, SaturatingMul(elapsed, refill));
        this.(tokens := Min(filled, max), lastRefill := now)
      else
        this
    }

    /** At most n tokens are taken, after a refill. */
    function Take(n: u64, now: Instant): (r: (Bucket, u64))
      requires Valid()
      ensures r.0.Valid()
    {
      var b := Refill(now);
      var taken := Min(b.tokens / TOKEN_SCALE, n);
      (b.(tokens := b.tokens - taken * TOKEN_SCALE), taken)
    }

    function Retarget(rate: u64): (b: Bucket)
      requires Valid()
      ensures b.Valid()
    {
      this.(ratePps := rate, refill := RefillFor(rate))
    }
  }

  function RefillFor(rate: u64): (refill: i64)
    ensures 1 <= refill
  {
    if rate == 0 then I64_MAX / 2 else Max(Min(rate, I64_MAX), 1)
  }

  function NewBucket(rate: u64, burst: u64, now: Instant): (b: Bucket)
    ensures b.Valid()
  {
    var tokens: i64 := Min(Max(burst, 1), I64_MAX / TOKEN_SCALE) * TOKEN_SCALE;
    Bucket(tokens, tokens, RefillFor(rate), now, rate)
  }

  /** Taking is greedy and conserves tokens: what was refilled is either taken or kept, and fewer
      than n are taken only when less than one token is left. */
  lemma TakeIsGreedy(b: Bucket, n: u64, now: Instant)
    requires b.Valid()
    ensures var (after, taken) := b.Take(n, now);
            && taken <= n
            && after.tokens + taken * TOKEN_SCALE == b.Refill(now).tokens
            && (taken < n ==> after.tokens < TOKEN_SCALE)
            && after == b.Refill(now).(tokens := after.tokens)
  {
  }

  /** Single tokens taken one after the other at the same instant. */
  function TakeSingles(b: Bucket, n: u64, now: Instant): (r: (Bucket, u64))
    requires b.Valid()
    ensures r.0.Valid() && r.1 <= n
  {
    if n == 0 then (b.Refill(now), 0)
    else
      var before := TakeSingles(b, n - 1, now);
      var last := before.0.Take(1, now);
      (last.0, before.1 + last.1)
  }

  /** A batch of n grants what n single requests would grant, and leaves the same bucket. */
  lemma {:induction false} BatchIsSingles(b: Bucket, n: u64, now: Instant)
    requires b.Valid()
    ensures b.Take(n, now) == TakeSingles(b, n, now)
    decreases n
  {
    hide Bucket.Refill, Bucket.Take;
    TakeIsGreedy(b, n, now);
    if n > 0 {
      BatchIsSingles(b, n - 1, now);
      TakeIsGreedy(b, n - 1, now);
      var before := b.Take(n - 1, now).0;
      TakeIsGreedy(before, 1, now);
      RefillAgain(b, before, now);
    }
  }

  lemma RefillAgain(b: Bucket, spent: Bucket, now: Instant)
    requires b.Valid() && spent.Valid()
    requires spent == b.Refill(now).(tokens := spent.tokens)
    ensures spent.Refill(now) == spent
  {
  }

  /** From the moment of the change the bucket earns at the new rate, and nothing that is in it is lost. */
  lemma EarnsAtNewRate(b: Bucket, rate: u64, now: Instant)
    requires b.Valid() && 1 <= rate <= I64_MAX && b.lastRefill <= now
    ensures var micros := (now - b.lastRefill) / 1000;
            b.Retarget(rate).Refill(now).tokens == Min(b.tokens + micros * rate, b.max)
  {
    var micros := (now - b.lastRefill) / 1000;
    assert micros == 0 ==> micros * rate == 0;
    assert b.Retarget(rate).refill == rate;
  }

  /** With rate 0 three microseconds fill the bucket, whatever its size. */
  lemma UnlimitedFills(b: Bucket, now: Instant)
    requires b.Valid() && b.lastRefill + 3000 <= now
    ensures b.Retarget(0).Refill(now).tokens == b.max
  {
    var micros := b.ElapsedMicros(now);
    assert micros * (I64_MAX / 2) >= 3 * (I64_MAX / 2) >= I64_MAX;
  }

  class RateLimiter {
    var tokensX1m: i64
    var maxTokensX1m: i64
    var refillPerUsX1m: i64
    var lastRefill: Instant
    var ratePps: u64

    function State(): Bucket
      reads this
    {
      Bucket(tokensX1m, maxTokensX1m, refillPerUsX1m, lastRefill, ratePps)
    }

    constructor (rate: u64, burst: u64, now: Instant)
      ensures State() == NewBucket(rate, burst, now)
    {
      var capped := Min(Max(burst, 1), I64_MAX / TOKEN_SCALE);
      tokensX1m := capped * TOKEN_SCALE;
      maxTokensX1m := capped * TOKEN_SCALE;
      refillPerUsX1m := if rate == 0 then I64_MAX / 2 else Max(Min(rate, I64_MAX), 1);
      lastRefill := now;
      ratePps := rate;
    }

    method TryConsume(now: Instant) returns (granted: bool)
      requires State().Valid()
      modifies this
      ensures State().Valid()
      ensures (State(), if granted then 1 else 0) == old(State()).Take(1, now)
    {
      Refill(now);
      if tokensX1m >= TOKEN_SCALE {
        tokensX1m := tokensX1m - TOKEN_SCALE;
        return true;
      }
      return false;
    }

    method TryConsumeBatch(n: u64, now: Instant) returns (consumed: u64)
      requires State().Valid()
      modifies this
      ensures State().Valid()
      ensures (State(), consumed) == old(State()).Take(n, now)
    {
      Refill(now);
      var available: u64 := Max(tokensX1m / TOKEN_SCALE, 0);
      consumed := Min(available, n);
      tokensX1m := tokensX1m - consumed * TOKEN_SCALE;
    }

    method SetRatePps(rate: u64)
      requires State().Valid()
      modifies this
      ensures State() == old(State()).Retarget(rate)
    {
      ratePps := rate;
      refillPerUsX1m := if rate == 0 then I64_MAX / 2 else Max(Min(rate, I64_MAX), 1);
    }

    method Refill(now: Instant)
      requires State().Valid()
      modifies this
      ensures State() == old(State()).Refill(now)
    {
      var elapsedUs := State().ElapsedMicros(now);
      if elapsedUs > 0 {
        var newTokens := Bucket.SaturatingMul(elapsedUs, refillPerUsX1m);
        tokensX1m := Min(Bucket.SaturatingAdd(tokensX1m, newTokens), maxTokensX1m);
        lastRefill := now;
      }
    }
  }
}
