/** What a limiter grants in any window of a run, and exactly when rounding the window's length down
    to whole microseconds gives a bound. */
module Windows {
  import opened Words
  import opened TokenBucket
  import opened Aimd
  import opened Pacing

  // ---- Any window of any run ----

  /** What the events of a run from a given moment on are granted. */
  function GrantedFrom(p: Pacer, events: seq<Event>, from: Instant): nat
    requires p.Valid()
    decreases events
  {
    if events == [] then 0
    else
      var (next, granted) := p.Step(events[0]);
      (if events[0].Consume? && events[0].now >= from then granted else 0) + GrantedFrom(next, events[1..], from)
  }

  lemma {:induction false} AllFrom(p: Pacer, events: seq<Event>, from: Instant, to: Instant)
    requires p.Valid() && Timed(events, from, to)
    ensures GrantedFrom(p, events, from) == p.Granted(events)
    decreases events
  {
    if events != [] {
      var next := p.Step(events[0]).0;
      if events[0].Consume? {
        TimedEarlier(events[1..], events[0].now, from, to);
      }
      AllFrom(next, events[1..], from, to);
    }
  }

  /** A run may have come to any state by `at`: a window that opens later, or before the limiter was
      there, grants at most a full bucket and what the ceiling earns in its length rounded up. */
  lemma {:induction false} AnyWindow(p: Pacer, events: seq<Event>, at: Instant, from: Instant, to: Instant)
    requires p.Valid() && p.bucket.lastRefill <= at <= to && Timed(events, at, to) && from <= to
    ensures GrantedFrom(p, events, from) * TOKEN_SCALE <= p.bucket.max + MicrosUp(from, to) * p.loop.rate.max
    decreases events
  {
    hide Bucket.Take, MicrosUp, MicrosDown;
    if events == [] {
      Scale(0, MicrosUp(from, to), p.loop.rate.max);
    } else if events[0].Consume? && events[0].now >= from {
      AllFrom(p, events, from, to);
      WindowFromHere(p, events, at, from, to);
    } else {
      var next := p.Step(events[0]).0;
      if events[0].Consume? {
        TakeEarns(p.bucket, events[0].n, events[0].now, p.loop.rate.max);
        AnyWindow(next, events[1..], events[0].now, from, to);
      } else {
        AnyWindow(next, events[1..], at, from, to);
      }
    }
  }

  lemma WindowFromHere(p: Pacer, events: seq<Event>, at: Instant, from: Instant, to: Instant)
    requires p.Valid() && p.bucket.lastRefill <= at && events != [] && events[0].Consume?
    requires Timed(events, at, to) && Timed(events, from, to)
    ensures p.Granted(events) * TOKEN_SCALE <= p.bucket.max + MicrosUp(from, to) * p.loop.rate.max
  {
    hide Bucket.Take;
    var last := p.bucket.lastRefill;
    if last <= from {
      WindowBound(p, events, from, to);
    } else {
      TimedEarlier(events, at, last, to);
      GrantsAreEarned(p, events, to);
      Scale(MicrosDown(last, to), MicrosUp(from, to), p.loop.rate.max);
    }
  }

  /** In any window of a limiter's life, rounded up. */
  lemma AnyWindowOfRun(rate: u64, burst: u64, start: Instant, events: seq<Event>, from: Instant, to: Instant)
    requires 1 <= rate <= U64_MAX / ADAPTIVE_MD_NUMER
    requires start <= to && Timed(events, start, to) && from <= to
    ensures GrantedFrom(NewPacer(rate, burst, start), events, from) * TOKEN_SCALE
            <= Max(burst, 1) * TOKEN_SCALE + MicrosUp(from, to) * rate
  {
    AnyWindow(NewPacer(rate, burst, start), events, start, from, to);
  }

  /** In windows of whole microseconds nothing is rounded: at most burst + rate * E. */
  lemma WholeMicrosecondWindow(rate: u64, burst: u64, start: Instant, events: seq<Event>, from: Instant, to: Instant)
    requires 1 <= rate <= U64_MAX / ADAPTIVE_MD_NUMER
    requires start <= to && Timed(events, start, to) && from <= to && (to - from) % 1000 == 0
    ensures GrantedFrom(NewPacer(rate, burst, start), events, from) * TOKEN_SCALE
            <= Max(burst, 1) * TOKEN_SCALE + (to - from) / 1000 * rate
  {
    AnyWindowOfRun(rate, burst, start, events, from, to);
  }

  // ---- The most that can be granted ----

  /** The tokens granted by taking all there are now and after each of the next microseconds. */
  function Best(cap: nat, rate: nat, tokens: nat, micros: nat): nat
    decreases micros
  {
    tokens / TOKEN_SCALE + (if micros == 0 then 0 else Best(cap, rate, Min(tokens % TOKEN_SCALE + rate, cap), micros - 1))
  }

  /** Tokens that are there can be taken first. */
  lemma BestShift(cap: nat, rate: nat, a: nat, x: nat, m: nat)
    ensures Best(cap, rate, a * TOKEN_SCALE + x, m) == a + Best(cap, rate, x, m)
  {
    assert (a * TOKEN_SCALE + x) / TOKEN_SCALE == a + x / TOKEN_SCALE;
    assert (a * TOKEN_SCALE + x) % TOKEN_SCALE == x % TOKEN_SCALE;
  }

  /** More tokens are never worse. */
  lemma {:induction false} BestMonotone(cap: nat, rate: nat, t: nat, more: nat, m: nat)
    requires t <= more
    ensures Best(cap, rate, t, m) <= Best(cap, rate, more, m)
    decreases m
  {
    hide Best;
    BestStep(cap, rate, t, m);
    BestStep(cap, rate, more, m);
    if m > 0 {
      var x, y := Min(t % TOKEN_SCALE + rate, cap), Min(more % TOKEN_SCALE + rate, cap);
      if t / TOKEN_SCALE == more / TOKEN_SCALE {
        BestMonotone(cap, rate, x, y, m - 1);
      } else {
        BestMonotone(cap, rate, x, 1 * TOKEN_SCALE + y, m - 1);
        BestShift(cap, rate, 1, y, m - 1);
      }
    }
  }

  lemma BestStep(cap: nat, rate: nat, t: nat, m: nat)
    ensures Best(cap, rate, t, m)
            == t / TOKEN_SCALE + (if m == 0 then 0 else Best(cap, rate, Min(t % TOKEN_SCALE + rate, cap), m - 1))
  {
  }

  /** Waiting a microsecond without taking is never better. */
  lemma BestSkip(cap: nat, rate: nat, t: nat, m: nat)
    requires m > 0
    ensures Best(cap, rate, Min(t + rate, cap), m - 1) <= Best(cap, rate, t, m)
  {
    hide Best;
    var a, x := t / TOKEN_SCALE, Min(t % TOKEN_SCALE + rate, cap);
    assert Min(t + rate, cap) <= a * TOKEN_SCALE + x;
    BestMonotone(cap, rate, Min(t + rate, cap), a * TOKEN_SCALE + x, m - 1);
    BestShift(cap, rate, a, x, m - 1);
    BestStep(cap, rate, t, m);
  }

  /** Nor is waiting longer, nor having less time. */
  lemma {:induction false} BestWait(cap: nat, rate: nat, t: nat, k: nat, m: nat)
    requires k <= m && t <= cap
    ensures Best(cap, rate, Min(t + k * rate, cap), m - k) <= Best(cap, rate, t, m)
    decreases k
  {
    hide Best;
    if k > 0 {
      BestWait(cap, rate, t, k - 1, m);
      BestSkip(cap, rate, Min(t + (k - 1) * rate, cap), m - k + 1);
      WaitOnce(cap, rate, t, k);
    }
  }

  lemma WaitOnce(cap: nat, rate: nat, t: nat, k: nat)
    requires k > 0
    ensures Min(Min(t + (k - 1) * rate, cap) + rate, cap) == Min(t + k * rate, cap)
  {
    assert k * rate == (k - 1) * rate + rate;
  }

  lemma {:induction false} BestLonger(cap: nat, rate: nat, t: nat, m: nat, n: nat)
    requires m <= n
    ensures Best(cap, rate, t, m) <= Best(cap, rate, t, n)
    decreases m
  {
    if m > 0 {
      BestLonger(cap, rate, Min(t % TOKEN_SCALE + rate, cap), m - 1, n - 1);
    }
  }

  /** A refill leaves no more than crediting the elapsed microseconds at the ceiling does, and taking
      conserves tokens. */
  lemma TakeAtCeiling(b: Bucket, n: u64, now: Instant, rate: nat)
    requires b.Valid() && b.refill <= rate && b.lastRefill <= now
    ensures var (after, taken) := b.Take(n, now);
            && after.max == b.max
            && b.lastRefill <= after.lastRefill <= now
            && taken * TOKEN_SCALE + after.tokens <= Min(b.tokens + MicrosDown(b.lastRefill, after.lastRefill) * rate, b.max)
  {
    TakeEarns(b, n, now, rate);
    TakeIsGreedy(b, n, now);
  }

  /** Whatever a run asks for and when, it is not granted more than the best. */
  lemma {:induction false} GrantedAtMostBest(p: Pacer, events: seq<Event>, to: Instant)
    requires p.Valid() && p.bucket.lastRefill <= to && Timed(events, p.bucket.lastRefill, to)
    ensures p.Granted(events) <= Best(p.bucket.max, p.loop.rate.max, p.bucket.tokens, MicrosDown(p.bucket.lastRefill, to))
    decreases events
  {
    hide Bucket.Take, MicrosDown, Best;
    if events != [] {
      var (next, granted) := p.Step(events[0]);
      var cap, rate, last := p.bucket.max, p.loop.rate.max, p.bucket.lastRefill;
      if events[0].Consume? {
        TakeAtCeiling(p.bucket, events[0].n, events[0].now, rate);
        var after := next.bucket;
        TimedEarlier(events[1..], events[0].now, after.lastRefill, to);
        GrantedAtMostBest(next, events[1..], to);
        MicrosSum(last, after.lastRefill, to);
        TakeAtMostBest(cap, rate, p.bucket.tokens, granted, after.tokens,
                       MicrosDown(last, after.lastRefill), MicrosDown(after.lastRefill, to), MicrosDown(last, to));
      } else {
        GrantedAtMostBest(next, events[1..], to);
      }
    }
  }

  lemma MicrosSum(a: Instant, b: Instant, c: Instant)
    requires a <= b <= c
    ensures MicrosDown(a, b) + MicrosDown(b, c) <= MicrosDown(a, c)
  {
  }

  lemma TakeAtMostBest(cap: nat, rate: nat, before: nat, taken: nat, after: nat, k: nat, m: nat, n: nat)
    requires before <= cap && taken * TOKEN_SCALE + after <= Min(before + k * rate, cap)
    requires k + m <= n
    ensures taken + Best(cap, rate, after, m) <= Best(cap, rate, before, n)
  {
    hide Best;
    BestShift(cap, rate, taken, after, m);
    BestMonotone(cap, rate, taken * TOKEN_SCALE + after, Min(before + k * rate, cap), m);
    BestWait(cap, rate, before, k, k + m);
    BestLonger(cap, rate, before, k + m, n);
  }

  lemma {:induction false} WindowAtMostBest(p: Pacer, events: seq<Event>, from: Instant, to: Instant)
    requires p.Valid() && p.bucket.lastRefill <= from <= to && Timed(events, from, to)
    ensures p.Granted(events) <= Best(p.bucket.max, p.loop.rate.max, p.bucket.max, MicrosUp(from, to))
    decreases events
  {
    hide Best;
    var cap, rate, last := p.bucket.max, p.loop.rate.max, p.bucket.lastRefill;
    if from - last < 1000 {
      TimedEarlier(events, from, last, to);
      GrantedAtMostBest(p, events, to);
      BestMonotone(cap, rate, p.bucket.tokens, cap, MicrosDown(last, to));
      BestLonger(cap, rate, cap, MicrosDown(last, to), MicrosUp(from, to));
    } else if events != [] {
      var (next, granted) := p.Step(events[0]);
      if events[0].Consume? {
        TakeIsGreedy(p.bucket, events[0].n, events[0].now);
        assert next.bucket.lastRefill == events[0].now;
        GrantedAtMostBest(next, events[1..], to);
        var m := MicrosDown(events[0].now, to);
        TakeAtMostBest(cap, rate, cap, granted, next.bucket.tokens, 0, m, MicrosUp(from, to));
      } else {
        WindowAtMostBest(next, events[1..], from, to);
      }
    }
  }

  // ---- A run that is granted the best ----

  /** All tokens, at each whole microsecond after the first j, up to the last. */
  function Drains(n: u64, j: nat, last: nat): seq<Event>
    requires last * 1000 < (I64_MAX + 1) * 1000
    decreases last - j
  {
    if j >= last then [] else [Consume(n, (j + 1) * 1000)] + Drains(n, j + 1, last)
  }

  lemma {:induction false} DrainsTimed(n: u64, j: nat, last: nat, from: Instant, to: Instant)
    requires last <= I64_MAX && from <= to && (j < last ==> from <= (j + 1) * 1000) && last * 1000 <= to
    ensures Timed(Drains(n, j, last), from, to)
    decreases last - j
  {
    if j < last {
      DrainsTimed(n, j + 1, last, (j + 1) * 1000, to);
    }
  }

  /** One microsecond after a drain the bucket is drained again. */
  lemma DrainOnce(b: Bucket, n: u64, j: nat)
    requires b.Valid() && j < I64_MAX && b.lastRefill == j * 1000 && b.tokens < TOKEN_SCALE
    requires b.max <= n * TOKEN_SCALE
    ensures var (after, taken) := b.Take(n, (j + 1) * 1000);
            var filled := Min(b.tokens + b.refill, b.max);
            && taken == filled / TOKEN_SCALE
            && after == b.(tokens := filled % TOKEN_SCALE, lastRefill := (j + 1) * 1000)
  {
    assert b.ElapsedMicros((j + 1) * 1000) == 1;
    assert 1 * b.refill == b.refill;
    assert b.Refill((j + 1) * 1000).tokens == Min(b.tokens + b.refill, b.max);
  }

  lemma {:induction false} DrainsGrantBest(p: Pacer, n: u64, j: nat, last: nat)
    requires p.Valid() && j < last <= I64_MAX && p.bucket.lastRefill == j * 1000 && p.bucket.tokens < TOKEN_SCALE
    requires p.bucket.max <= n * TOKEN_SCALE
    ensures p.Granted(Drains(n, j, last))
            == Best(p.bucket.max, p.bucket.refill, Min(p.bucket.tokens + p.bucket.refill, p.bucket.max), last - j - 1)
    decreases last - j
  {
    hide Bucket.Take, Best;
    var events := Drains(n, j, last);
    var (next, granted) := p.Step(events[0]);
    DrainOnce(p.bucket, n, j);
    assert events[1..] == Drains(n, j + 1, last);
    BestStep(p.bucket.max, p.bucket.refill, Min(p.bucket.tokens + p.bucket.refill, p.bucket.max), last - j - 1);
    if j + 1 < last {
      DrainsGrantBest(next, n, j + 1, last);
    }
  }

  // ---- Exactly when rounding down fails ----

  /** The capacity of a bucket for a burst. */
  function Capacity(burst: u64): i64 { Min(Max(burst, 1), I64_MAX / TOKEN_SCALE) * TOKEN_SCALE }

  /** Some run is granted more, in some window of that length, than a full bucket and what the rate
      earns in the length rounded down to microseconds. */
  ghost predicate SomeWindowExceeds(rate: u64, burst: u64, length: nat) {
    exists p: Pacer, events: seq<Event>, from: Instant, to: Instant ::
      && to == from + length
      && Exceeds(p, events, from, to, rate, burst)
  }

  ghost predicate Exceeds(p: Pacer, events: seq<Event>, from: Instant, to: Instant, rate: u64, burst: u64) {
    && p.Valid() && p.loop.rate.max == rate && p.bucket.max == Capacity(burst)
    && p.bucket.lastRefill <= from <= to && Timed(events, from, to)
    && p.Granted(events) * TOKEN_SCALE > Capacity(burst) + MicrosDown(from, to) * rate
  }

  lemma ExceedsOnlyIf(p: Pacer, events: seq<Event>, from: Instant, to: Instant, rate: u64, burst: u64)
    requires Exceeds(p, events, from, to, rate, burst)
    ensures var d := (to - from) / 1000;
            && (to - from) % 1000 != 0
            && Best(Capacity(burst), rate, Capacity(burst), d + 1) * TOKEN_SCALE > Capacity(burst) + d * rate
  {
    hide Best;
    WindowBound(p, events, from, to);
    WindowAtMostBest(p, events, from, to);
  }

  /** The run that takes all it can just before a whole microsecond and at each one after. */
  lemma DrainExceeds(rate: u64, burst: u64, length: nat)
    requires 1 <= rate <= U64_MAX / ADAPTIVE_MD_NUMER && length + 999 < (I64_MAX + 1) * 1000
    requires length % 1000 != 0
    requires var d := length / 1000;
             Best(Capacity(burst), rate, Capacity(burst), d + 1) * TOKEN_SCALE > Capacity(burst) + d * rate
    ensures SomeWindowExceeds(rate, burst, length)
  {
    hide Best, Bucket.Take;
    var p, d := NewPacer(rate, burst, 0), length / 1000;
    var n: u64 := Capacity(burst) / TOKEN_SCALE;
    var to: Instant := 999 + length;
    var first, rest := Consume(n, 999), Drains(n, 0, d + 1);
    DrainsTimed(n, 0, d + 1, 999, to);
    assert ([first] + rest)[1..] == rest;
    DrainedRun(p, n, d);
    assert Exceeds(p, [first] + rest, 999, to, rate, burst);
  }

  lemma DrainedRun(p: Pacer, n: u64, d: nat)
    requires p.Valid() && p.bucket.tokens == p.bucket.max == n * TOKEN_SCALE && p.bucket.lastRefill == 0
    requires p.bucket.refill == p.loop.rate.max && d + 1 <= I64_MAX
    ensures p.Granted([Consume(n, 999)] + Drains(n, 0, d + 1))
            == Best(p.bucket.max, p.loop.rate.max, p.bucket.max, d + 1)
  {
    hide Best, Bucket.Take, Drains;
    var first, rest := Consume(n, 999), Drains(n, 0, d + 1);
    assert ([first] + rest)[1..] == rest;
    var (next, granted) := p.Step(first);
    FirstDrain(p.bucket, n);
    DrainsGrantBest(next, n, 0, d + 1);
    BestStep(p.bucket.max, p.loop.rate.max, p.bucket.max, d + 1);
    DivideShift(n, 0);
  }

  lemma FirstDrain(b: Bucket, n: u64)
    requires b.Valid() && b.tokens == b.max == n * TOKEN_SCALE && b.lastRefill == 0
    ensures b.Take(n, 999) == (b.(tokens := 0), n)
  {
    assert b.ElapsedMicros(999) == 0;
  }

  /** Rounding down fails for a window length exactly when the length is not whole and the best that
      one more microsecond grants is more than the bound. */
  lemma RoundedDownFailsIff(rate: u64, burst: u64, length: nat)
    requires 1 <= rate <= U64_MAX / ADAPTIVE_MD_NUMER && length + 999 < (I64_MAX + 1) * 1000
    ensures var d := length / 1000;
            SomeWindowExceeds(rate, burst, length)
            <==> length % 1000 != 0
                 && Best(Capacity(burst), rate, Capacity(burst), d + 1) * TOKEN_SCALE > Capacity(burst) + d * rate
  {
    hide Best;
    if SomeWindowExceeds(rate, burst, length) {
      var p: Pacer, events: seq<Event>, from: Instant, to: Instant :|
        to == from + length && Exceeds(p, events, from, to, rate, burst);
      ExceedsOnlyIf(p, events, from, to, rate, burst);
    } else if length % 1000 != 0
              && Best(Capacity(burst), rate, Capacity(burst), length / 1000 + 1) * TOKEN_SCALE
                 > Capacity(burst) + length / 1000 * rate {
      DrainExceeds(rate, burst, length);
    }
  }

  // ---- The condition in closed form ----

  /** Where a microsecond never fills the bucket, nothing is lost to the cap. */
  lemma {:induction false} BestUncapped(cap: nat, rate: nat, t: nat, m: nat)
    requires rate + TOKEN_SCALE - 1 <= cap
    ensures Best(cap, rate, t, m) == (t + m * rate) / TOKEN_SCALE
    decreases m
  {
    if m > 0 {
      var a, x := t / TOKEN_SCALE, t % TOKEN_SCALE + rate;
      BestUncapped(cap, rate, x, m - 1);
      assert m * rate == (m - 1) * rate + rate;
      assert t + m * rate == a * TOKEN_SCALE + (x + (m - 1) * rate);
      DivideShift(a, x + (m - 1) * rate);
    }
  }

  lemma DivideShift(a: nat, x: nat)
    ensures (a * TOKEN_SCALE + x) / TOKEN_SCALE == a + x / TOKEN_SCALE
  {
  }

  /** Where a microsecond always fills it, each grants a full burst. */
  lemma {:induction false} BestCapped(b: nat, rate: nat, m: nat)
    requires rate >= b * TOKEN_SCALE
    ensures Best(b * TOKEN_SCALE, rate, b * TOKEN_SCALE, m) == (m + 1) * b
    decreases m
  {
    assert b * TOKEN_SCALE / TOKEN_SCALE == b && b * TOKEN_SCALE % TOKEN_SCALE == 0;
    if m > 0 {
      BestCapped(b, rate, m - 1);
      assert (m + 1) * b == m * b + b;
    }
  }

  /** Rounding down fails for rates of at least a burst a microsecond: what counts is the burst. */
  lemma FailsIffCapped(rate: u64, burst: u64, length: nat)
    requires 1 <= rate <= U64_MAX / ADAPTIVE_MD_NUMER && length + 999 < (I64_MAX + 1) * 1000
    requires rate >= Capacity(burst)
    ensures var d := length / 1000;
            SomeWindowExceeds(rate, burst, length) <==> length % 1000 != 0 && (d + 1) * Capacity(burst) > d * rate
  {
    hide SomeWindowExceeds, Best, Capacity;
    RoundedDownFailsIff(rate, burst, length);
    CapacityWhole(burst);
    CappedCondition(Capacity(burst), rate, length / 1000);
  }

  lemma CappedCondition(cap: nat, rate: nat, d: nat)
    requires cap % TOKEN_SCALE == 0 && rate >= cap
    ensures Best(cap, rate, cap, d + 1) * TOKEN_SCALE > cap + d * rate <==> (d + 1) * cap > d * rate
  {
    hide Best;
    var b := cap / TOKEN_SCALE;
    BestCapped(b, rate, d + 1);
    assert (d + 2) * b * TOKEN_SCALE == (d + 1) * (b * TOKEN_SCALE) + b * TOKEN_SCALE;
  }

  /** The microseconds in which r tokens' parts each complete a token. */
  function Cycle(r: nat): nat
    requires r > 0
  {
    (TOKEN_SCALE + r - 1) / r
  }

  lemma CycleIs(r: nat, j: nat)
    requires 0 < r
    ensures j < Cycle(r) <==> j * r < TOKEN_SCALE
  {
    var q := Cycle(r);
    assert q * r <= TOKEN_SCALE + r - 1 < (q + 1) * r;
    assert (q + 1) * r == q * r + r;
    if j < q {
      Scale(j + 1, q, r);
      assert (j + 1) * r == j * r + r;
    } else {
      Scale(q, j, r);
    }
  }

  /** Between the two a microsecond earns all but part of a burst. The parts add up to a token in each
      cycle, and the cap then takes what is over. */
  lemma {:induction false} BestStrip(b: nat, r: nat, j: nat, m: nat)
    requires b > 0 && 0 < r && j < Cycle(r)
    ensures Best(b * TOKEN_SCALE, (b - 1) * TOKEN_SCALE + r, j * r, m) == m * (b - 1) + (j + m) / Cycle(r)
    decreases m
  {
    hide Best, Cycle;
    var cap, rate, q := b * TOKEN_SCALE, (b - 1) * TOKEN_SCALE + r, Cycle(r);
    CycleIs(r, j);
    BestStep(cap, rate, j * r, m);
    if m == 0 {
      QuotientBelow(j, q);
    } else {
      CycleIs(r, j + 1);
      assert (j + 1) * r == j * r + r;
      assert cap == (b - 1) * TOKEN_SCALE + TOKEN_SCALE;
      assert m * (b - 1) == (m - 1) * (b - 1) + (b - 1);
      if j + 1 < q {
        BestShift(cap, rate, b - 1, (j + 1) * r, m - 1);
        BestStrip(b, r, j + 1, m - 1);
      } else {
        BestShift(cap, rate, b, 0 * r, m - 1);
        BestStrip(b, r, 0, m - 1);
        QuotientNext(m - 1, q);
      }
    }
  }

  lemma QuotientBelow(j: nat, q: nat)
    requires j < q
    ensures j / q == 0
  {
  }

  lemma QuotientNext(m: nat, q: nat)
    requires q > 0
    ensures (q + m) / q == 1 + m / q
  {
    var e: int := (q + m) / q - (1 + m / q);
    assert e * q == m % q - (q + m) % q;
    assert e >= 1 ==> e * q >= q;
    assert e <= -1 ==> e * q + q <= 0;
  }

  /** Rounding down fails in the strip between: of the part of a token that each microsecond earns
      over whole ones, a token is granted in each cycle. */
  lemma FailsIffInStrip(rate: u64, burst: u64, length: nat)
    requires 1 <= rate <= U64_MAX / ADAPTIVE_MD_NUMER && length + 999 < (I64_MAX + 1) * 1000
    requires Capacity(burst) - TOKEN_SCALE < rate < Capacity(burst)
    ensures var b, d := Capacity(burst) / TOKEN_SCALE, length / 1000;
            var r := rate - (b - 1) * TOKEN_SCALE;
            && 0 < r < TOKEN_SCALE
            && (SomeWindowExceeds(rate, burst, length)
                <==> length % 1000 != 0 && (b - 1 + (d + 1) / Cycle(r)) * TOKEN_SCALE > d * r)
  {
    hide SomeWindowExceeds, Best, Capacity, Cycle;
    var b, d := Capacity(burst) / TOKEN_SCALE, length / 1000;
    CapacityWhole(burst);
    assert (b - 1) * TOKEN_SCALE == Capacity(burst) - TOKEN_SCALE;
    RoundedDownFailsIff(rate, burst, length);
    StripCondition(b, rate - (b - 1) * TOKEN_SCALE, d);
  }

  lemma StripCondition(b: nat, r: nat, d: nat)
    requires b > 0 && 0 < r
    ensures var cap, rate := b * TOKEN_SCALE, (b - 1) * TOKEN_SCALE + r;
            Best(cap, rate, cap, d + 1) * TOKEN_SCALE > cap + d * rate
            <==> (b - 1 + (d + 1) / Cycle(r)) * TOKEN_SCALE > d * r
  {
    hide Best, Cycle;
    var cap, rate := b * TOKEN_SCALE, (b - 1) * TOKEN_SCALE + r;
    CycleIs(r, 0);
    BestShift(cap, rate, b, 0 * r, d + 1);
    BestStrip(b, r, 0, d + 1);
    StripSum(b, r, d, (d + 1) / Cycle(r));
  }

  lemma StripSum(b: nat, r: nat, d: nat, extra: nat)
    requires b > 0
    ensures (b + (d + 1) * (b - 1) + extra) * TOKEN_SCALE - (b * TOKEN_SCALE + d * ((b - 1) * TOKEN_SCALE + r))
            == (b - 1 + extra) * TOKEN_SCALE - d * r
  {
    assert (d + 1) * (b - 1) == d * (b - 1) + (b - 1);
    assert d * ((b - 1) * TOKEN_SCALE + r) == d * (b - 1) * TOKEN_SCALE + d * r;
  }

  /** For rates that a microsecond cannot fill the bucket with: rounding down fails exactly for windows
      that are not whole and in which the last microsecond completes a token. */
  lemma FailsIffUncapped(rate: u64, burst: u64, length: nat)
    requires 1 <= rate <= U64_MAX / ADAPTIVE_MD_NUMER && length + 999 < (I64_MAX + 1) * 1000
    requires rate + TOKEN_SCALE - 1 <= Capacity(burst)
    ensures var d := length / 1000;
            SomeWindowExceeds(rate, burst, length)
            <==> length % 1000 != 0 && (d + 1) * rate / TOKEN_SCALE > d * rate / TOKEN_SCALE
  {
    hide SomeWindowExceeds, Best, Capacity;
    RoundedDownFailsIff(rate, burst, length);
    CapacityWhole(burst);
    UncappedCondition(Capacity(burst), rate, length / 1000);
  }

  lemma CapacityWhole(burst: u64)
    ensures Capacity(burst) % TOKEN_SCALE == 0 && Capacity(burst) >= TOKEN_SCALE
  {
  }

  lemma UncappedCondition(cap: nat, rate: nat, d: nat)
    requires cap % TOKEN_SCALE == 0 && rate + TOKEN_SCALE - 1 <= cap
    ensures Best(cap, rate, cap, d + 1) * TOKEN_SCALE > cap + d * rate
            <==> (d + 1) * rate / TOKEN_SCALE > d * rate / TOKEN_SCALE
  {
    hide Best;
    BestUncapped(cap, rate, cap, d + 1);
    MoreTokens(cap / TOKEN_SCALE, (d + 1) * rate, d * rate);
  }

  lemma MoreTokens(b: nat, x: nat, y: nat)
    ensures (b * TOKEN_SCALE + x) / TOKEN_SCALE * TOKEN_SCALE > b * TOKEN_SCALE + y <==> x / TOKEN_SCALE > y / TOKEN_SCALE
  {
    DivideShift(b, x);
  }

  /** For every rate and burst the rounded-down bound holds exactly in windows of whole microseconds. */
  lemma BoundForAllIffWhole(length: nat)
    requires length + 999 < (I64_MAX + 1) * 1000
    ensures (forall rate: u64, burst: u64 :: 1 <= rate <= U64_MAX / ADAPTIVE_MD_NUMER ==> !SomeWindowExceeds(rate, burst, length))
            <==> length % 1000 == 0
  {
    hide SomeWindowExceeds, Best;
    if length % 1000 == 0 {
      forall rate: u64, burst: u64 | 1 <= rate <= U64_MAX / ADAPTIVE_MD_NUMER
        ensures !SomeWindowExceeds(rate, burst, length)
      {
        RoundedDownFailsIff(rate, burst, length);
      }
    } else {
      FailsIffUncapped(TOKEN_SCALE, 2, length);
    }
  }
}
