/** All transmit threads together: each paces itself by its own limiter and loop, on its share. */
module ThreadPacing {
  import opened Words
  import opened TokenBucket
  import opened Aimd
  import opened Pacing
  import opened Windows
  import opened TxDispatch

  function PerThreadRate(rate: nat, threads: nat): (share: nat)
    requires threads > 0
    ensures share <= rate
    ensures rate > 0 ==> share > 0
    ensures rate <= share * threads < rate + threads
  {
    if rate == 0 then 0
    else
      CeilingBounds(rate, threads);
      (rate + threads - 1) / threads
  }

  lemma CeilingBounds(rate: nat, threads: nat)
    requires rate > 0 && threads > 0
    ensures 1 <= (rate + threads - 1) / threads <= rate
    ensures rate <= (rate + threads - 1) / threads * threads < rate + threads
  {
    var q := (rate + threads - 1) / threads;
    assert q * threads <= rate + threads - 1 < (q + 1) * threads;
    assert (q + 1) * threads == q * threads + threads;
    Scale(1, threads, rate);
    assert q >= rate + 1 ==> q * threads >= (rate + 1) * threads;
    assert q == 0 ==> (q + 1) * threads == threads;
  }

  function Sum(grants: seq<nat>): nat {
    if grants == [] then 0 else Sum(grants[..|grants| - 1]) + grants[|grants| - 1]
  }

  /** Threads that each keep to their share keep together to the configured rate, rounded up to a
      multiple of the number of threads, plus one burst each. */
  lemma AggregateBound(grants: seq<nat>, rate: nat, burst: nat, micros: nat)
    requires |grants| > 0
    requires forall k :: 0 <= k < |grants| ==>
               grants[k] * TOKEN_SCALE <= burst * TOKEN_SCALE + micros * PerThreadRate(rate, |grants|)
    ensures Sum(grants) * TOKEN_SCALE
            <= |grants| * burst * TOKEN_SCALE + micros * (rate + |grants| - 1)
  {
    var threads := |grants|;
    var share := PerThreadRate(rate, threads);
    SumBound(grants, burst * TOKEN_SCALE + micros * share);
    ShareFits(rate, threads);
    Distribute(threads, burst * TOKEN_SCALE, micros, share, rate + threads - 1);
    Regroup(threads, burst, TOKEN_SCALE);
  }

  lemma Regroup(a: nat, b: nat, c: nat)
    ensures a * b * c == a * (b * c)
  {
  }

  lemma Distribute(threads: nat, burst: nat, micros: nat, share: nat, cap: nat)
    requires threads * share <= cap
    ensures threads * (burst + micros * share) <= threads * burst + micros * cap
  {
    assert threads * (micros * share) == micros * (threads * share);
    Scale(threads * share, cap, micros);
  }

  lemma ShareFits(rate: nat, threads: nat)
    requires threads > 0
    ensures threads * PerThreadRate(rate, threads) <= rate + threads - 1
  {
  }

  lemma {:induction false} SumBound(grants: seq<nat>, bound: nat)
    requires forall k :: 0 <= k < |grants| ==> grants[k] * TOKEN_SCALE <= bound
    ensures Sum(grants) * TOKEN_SCALE <= |grants| * bound
  {
    if grants != [] {
      SumBound(grants[..|grants| - 1], bound);
    }
  }

  // ---- Runs of all threads ----

  /** One thread: when it made its limiter, and what happened to it since. */
  datatype ThreadRun = ThreadRun(start: Instant, events: seq<Event>) {
    predicate Until(to: Instant) { start <= to && Timed(events, start, to) }
  }

  /** What each thread is granted from a moment on. */
  function GrantsFrom(runs: seq<ThreadRun>, rate: u32, from: Instant): (grants: seq<nat>)
    requires |runs| > 0 && rate > 0
    ensures |grants| == |runs|
    ensures forall k :: 0 <= k < |runs| ==>
              grants[k] == GrantedFrom(NewPacer(PerThreadRate(rate, |runs|), TX_BATCH, runs[k].start), runs[k].events, from)
  {
    var share := PerThreadRate(rate, |runs|);
    seq(|runs|, k requires 0 <= k < |runs| => GrantedFrom(NewPacer(share, TX_BATCH, runs[k].start), runs[k].events, from))
  }

  /** In any window, whenever the threads made their limiters and however their clocks, counters and
      loops ran, together they are granted at most a batch each plus what the configured rate earns in
      the window, rounded up, to within a packet a second for each further thread. */
  lemma ThreadsWindow(runs: seq<ThreadRun>, rate: u32, from: Instant, to: Instant)
    requires |runs| > 0 && rate >= 1 && from <= to
    requires forall k :: 0 <= k < |runs| ==> runs[k].Until(to)
    ensures Sum(GrantsFrom(runs, rate, from)) * TOKEN_SCALE
            <= |runs| * TX_BATCH * TOKEN_SCALE + MicrosUp(from, to) * (rate + |runs| - 1)
  {
    hide NewPacer, Timed, MicrosUp;
    var share := PerThreadRate(rate, |runs|);
    var grants := GrantsFrom(runs, rate, from);
    forall k | 0 <= k < |grants|
      ensures grants[k] * TOKEN_SCALE <= TX_BATCH * TOKEN_SCALE + MicrosUp(from, to) * PerThreadRate(rate, |grants|)
    {
      AnyWindowOfRun(share, TX_BATCH, runs[k].start, runs[k].events, from, to);
    }
    AggregateBound(grants, rate, TX_BATCH, MicrosUp(from, to));
  }

  /** Counted from before the first limiter was made, the time may be rounded down. */
  lemma ThreadsBound(runs: seq<ThreadRun>, rate: u32, start: Instant, to: Instant)
    requires |runs| > 0 && rate >= 1 && start <= to
    requires forall k :: 0 <= k < |runs| ==> start <= runs[k].start && runs[k].Until(to)
    ensures Sum(GrantsFrom(runs, rate, start)) * TOKEN_SCALE
            <= |runs| * TX_BATCH * TOKEN_SCALE + MicrosDown(start, to) * (rate + |runs| - 1)
  {
    hide NewPacer, Timed, MicrosDown;
    var share := PerThreadRate(rate, |runs|);
    var grants := GrantsFrom(runs, rate, start);
    forall k | 0 <= k < |grants|
      ensures grants[k] * TOKEN_SCALE <= TX_BATCH * TOKEN_SCALE + MicrosDown(start, to) * PerThreadRate(rate, |grants|)
    {
      LateStart(share, start, runs[k], to);
    }
    AggregateBound(grants, rate, TX_BATCH, MicrosDown(start, to));
  }

  lemma LateStart(share: u64, start: Instant, run: ThreadRun, to: Instant)
    requires 1 <= share <= U64_MAX / ADAPTIVE_MD_NUMER && start <= run.start && run.Until(to)
    ensures GrantedFrom(NewPacer(share, TX_BATCH, run.start), run.events, start) * TOKEN_SCALE
            <= TX_BATCH * TOKEN_SCALE + MicrosDown(start, to) * share
  {
    hide NewPacer;
    TimedEarlier(run.events, run.start, start, to);
    AllFrom(NewPacer(share, TX_BATCH, run.start), run.events, start, to);
    RunBound(share, TX_BATCH, run.start, run.events, to);
    Scale(MicrosDown(run.start, to), MicrosDown(start, to), share);
  }

  // ---- Waiting for the tokens of a batch ----

  /** Asking again and again, at the given clock readings, for the tokens still missing. */
  function Spin(b: Bucket, missing: u64, readings: seq<Instant>): (r: (Bucket, u64))
    requires b.Valid()
    ensures r.0.Valid() && r.1 <= missing
    decreases readings
  {
    if missing == 0 || readings == [] then (b, missing)
    else
      TakeIsGreedy(b, missing, readings[0]);
      var (after, got) := b.Take(missing, readings[0]);
      Spin(after, missing - got, readings[1..])
  }

  /** The loop in front of every batch. `readings` is what the clock shows while it spins; the batch
      goes to the engine once nothing is missing. */
  method AwaitTokens(limiter: RateLimiter, n: u64, readings: seq<Instant>) returns (missing: u64)
    requires limiter.State().Valid()
    modifies limiter
    ensures limiter.State().Valid() && (limiter.State(), missing) == Spin(old(limiter.State()), n, readings)
  {
    hide Bucket.Take;
    missing := n;
    var i := 0;
    assert readings[0..] == readings;
    while missing > 0 && i < |readings|
      invariant i <= |readings| && limiter.State().Valid()
      invariant Spin(limiter.State(), missing, readings[i..]) == Spin(old(limiter.State()), n, readings)
    {
      ghost var before := limiter.State();
      TakeIsGreedy(before, missing, readings[i]);
      assert readings[i..][1..] == readings[i + 1..];
      var got := limiter.TryConsumeBatch(missing, readings[i]);
      missing := missing - got;
      i := i + 1;
    }
  }

  /** The loop as events of the limiter. */
  function SpinEvents(b: Bucket, missing: u64, readings: seq<Instant>): seq<Event>
    requires b.Valid()
    decreases readings
  {
    if missing == 0 || readings == [] then []
    else
      TakeIsGreedy(b, missing, readings[0]);
      var (after, got) := b.Take(missing, readings[0]);
      [Consume(missing, readings[0])] + SpinEvents(after, missing - got, readings[1..])
  }

  /** A loop that ends has been granted the whole batch, so what bounds the grants bounds the packets. */
  lemma {:induction false} SpinGrants(p: Pacer, missing: u64, readings: seq<Instant>)
    requires p.Valid()
    ensures p.Granted(SpinEvents(p.bucket, missing, readings)) == missing - Spin(p.bucket, missing, readings).1
    decreases readings
  {
    hide Bucket.Take;
    if missing > 0 && readings != [] {
      TakeIsGreedy(p.bucket, missing, readings[0]);
      var (next, got) := p.Step(Consume(missing, readings[0]));
      SpinGrants(next, missing - got, readings[1..]);
      var rest := SpinEvents(next.bucket, missing - got, readings[1..]);
      assert ([Consume(missing, readings[0])] + rest)[1..] == rest;
    }
  }

  /** It does end: whatever the readings before, the first that comes `wait` microseconds after them finds
      all that is missing, if the rate earns that much in the time and the bucket can hold it. */
  lemma {:induction false} SpinEnds(b: Bucket, missing: u64, readings: seq<Instant>, wait: nat, late: Instant)
    requires b.Valid() && missing * TOKEN_SCALE <= b.max && missing * TOKEN_SCALE <= wait * b.refill
    requires b.lastRefill + 1000 * wait <= late
    requires forall i :: 0 <= i < |readings| ==> readings[i] + 1000 * wait <= late
    ensures Spin(b, missing, readings + [late]).1 == 0
    decreases readings
  {
    hide Bucket.Take, Bucket.Refill;
    if missing > 0 {
      if readings == [] {
        LateReadingSuffices(b, missing, wait, late);
        assert ([] + [late])[1..] == [];
      } else {
        TakeIsGreedy(b, missing, readings[0]);
        var (after, got) := b.Take(missing, readings[0]);
        RefillKeeps(b, readings[0]);
        assert (readings + [late])[1..] == readings[1..] + [late];
        SpinEnds(after, missing - got, readings[1..], wait, late);
      }
    }
  }

  lemma RefillKeeps(b: Bucket, now: Instant)
    requires b.Valid()
    ensures var after := b.Refill(now);
            && (after.lastRefill == b.lastRefill || after.lastRefill == now)
            && after.refill == b.refill && after.max == b.max
  {
  }

  lemma LateReadingSuffices(b: Bucket, missing: u64, wait: nat, late: Instant)
    requires b.Valid() && missing * TOKEN_SCALE <= b.max && missing * TOKEN_SCALE <= wait * b.refill
    requires b.lastRefill + 1000 * wait <= late && missing > 0
    ensures b.Take(missing, late).1 == missing
  {
    var elapsed := b.ElapsedMicros(late);
    assert elapsed >= wait;
    Scale(wait, elapsed, b.refill);
    TakeIsGreedy(b, missing, late);
    assert elapsed > 0;
    EnoughRefilled(b.tokens, b.max, elapsed * b.refill, missing * TOKEN_SCALE);
    assert b.Refill(late).tokens >= missing * TOKEN_SCALE;
  }

  lemma EnoughRefilled(tokens: i64, max: i64, earned: nat, need: nat)
    requires 0 <= tokens && need <= max && need <= earned
    ensures Min(Bucket.SaturatingAdd(tokens, Min(earned, I64_MAX)), max) >= need
  {
  }
}
