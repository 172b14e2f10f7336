/** The adaptive loop driving a token bucket, and what the pair grants over whole runs. */
module Pacing {
  import opened Words
  import opened TokenBucket
  import opened Aimd

  datatype Loop = Loop(rate: Controller, lastTxPackets: u64, lastTxDrops: u64, initialized: bool) {
    predicate Valid() { rate.Valid() && rate.CanScale() }

    /** The first snapshot is the baseline; later ones report drops if the drop counter grew, else
        a success if the packet counter grew. */
    function Tick(txPackets: u64, txDrops: u64): (l: Loop)
      requires Valid()
      ensures l.Valid() && l.rate.max == rate.max
    {
      var next :=
        if !initialized then rate
        else if txDrops > lastTxDrops then rate.OnDrops()
        else if txPackets > lastTxPackets then rate.OnSuccess()
        else rate;
      Loop(next, txPackets, txDrops, true)
    }
  }

  class AdaptiveLoop {
    const rate: AdaptiveRate
    var lastTxPackets: u64
    var lastTxDrops: u64
    var initialized: bool

    function State(): Loop
      reads this, rate
    {
      Loop(rate.State(), lastTxPackets, lastTxDrops, initialized)
    }

    constructor (maxPps: u64)
      ensures State() == Loop(NewController(maxPps), 0, 0, false) && fresh(rate)
    {
      rate := new AdaptiveRate(maxPps);
      lastTxPackets := 0;
      lastTxDrops := 0;
      initialized := false;
    }

    /** After the baseline: new drops take a quarter of the rate, down to the floor; without new drops the
        rate does not fall, and without new packets either it does not change. */
    method Tick(txPackets: u64, txDrops: u64) returns (pps: u64)
      requires State().Valid()
      modifies this, rate
      ensures State() == old(State()).Tick(txPackets, txDrops)
      ensures pps == State().rate.current == rate.currentPps
      ensures initialized && lastTxPackets == txPackets && lastTxDrops == txDrops
      ensures !old(initialized) ==> pps == old(rate.currentPps)
      ensures old(initialized) && txDrops > old(lastTxDrops) ==>
                pps == Max(old(rate.currentPps) * 3 / 4, rate.minPps) && (pps < old(rate.currentPps) || pps == rate.minPps)
      ensures old(initialized) && txDrops <= old(lastTxDrops) ==>
                pps >= old(rate.currentPps) && (txPackets <= old(lastTxPackets) ==> pps == old(rate.currentPps))
    {
      if !initialized {
        lastTxPackets := txPackets;
        lastTxDrops := txDrops;
        initialized := true;
        return rate.currentPps;
      }
      var dropDelta := Max(txDrops - lastTxDrops, 0);
      var packetDelta := Max(txPackets - lastTxPackets, 0);
      if dropDelta > 0 {
        rate.ReportDrops();
      } else if packetDelta > 0 {
        rate.ReportSuccess();
      }
      lastTxPackets := txPackets;
      lastTxDrops := txDrops;
      pps := rate.currentPps;
    }

    method Apply(limiter: RateLimiter)
      requires State().Valid() && limiter.State().Valid()
      modifies limiter
      ensures limiter.State() == old(limiter.State()).Retarget(State().rate.current)
    {
      limiter.SetRatePps(rate.currentPps);
    }
  }

  // ---- Runs of one transmit thread's limiter and loop ----

  datatype Event =
    | Consume(n: u64, now: Instant)
    | Tick(txPackets: u64, txDrops: u64)
    | Apply

  datatype Pacer = Pacer(bucket: Bucket, loop: Loop) {
    /** The limiter is on a positive rate no higher than the loop's ceiling. */
    predicate Valid() {
      && bucket.Valid()
      && loop.Valid()
      && 1 <= bucket.ratePps <= loop.rate.max
      && bucket.refill <= loop.rate.max
    }

    /** One event, and the tokens it grants. `TryConsume` is `Consume` of one token. */
    function Step(e: Event): (r: (Pacer, nat))
      requires Valid()
      ensures r.0.Valid() && r.0.loop.rate.max == loop.rate.max && r.0.bucket.max == bucket.max
    {
      match e
      case Consume(n, now) =>
        var taken := bucket.Take(n, now);
        (this.(bucket := taken.0), taken.1)
      case Tick(p, d) => (this.(loop := loop.Tick(p, d)), 0)
      case Apply => (this.(bucket := bucket.Retarget(loop.rate.current)), 0)
    }

    function Granted(events: seq<Event>): nat
      requires Valid()
      decreases events
    {
      if events == [] then 0 else Step(events[0]).1 + Step(events[0]).0.Granted(events[1..])
    }

    /** Whatever the loop is fed, it never applies rate 0, which would lift the limit. */
    function After(events: seq<Event>): (p: Pacer)
      requires Valid()
      ensures 1 <= p.bucket.ratePps <= loop.rate.max
      ensures p.Valid() && p.loop.rate.max == loop.rate.max && p.bucket.max == bucket.max
      decreases events
    {
      if events == [] then this else Step(events[0]).0.After(events[1..])
    }
  }

  /** The clock readings do not decrease and lie in `[from, to]`. */
  predicate Timed(events: seq<Event>, from: Instant, to: Instant) {
    events == [] ||
    match events[0]
    case Consume(_, now) => from <= now <= to && Timed(events[1..], now, to)
    case _ => Timed(events[1..], from, to)
  }

  function NewPacer(rate: u64, burst: u64, now: Instant): (p: Pacer)
    requires 1 <= rate <= U64_MAX / ADAPTIVE_MD_NUMER
    ensures p.Valid()
  {
    Pacer(NewBucket(rate, burst, now), Loop(NewController(rate), 0, 0, false))
  }

  function MicrosDown(from: Instant, to: Instant): nat
    requires from <= to
  {
    (to - from) / 1000
  }

  function MicrosUp(from: Instant, to: Instant): nat
    requires from <= to
  {
    (to - from + 999) / 1000
  }

  lemma MicrosAdd(a: Instant, b: Instant, c: Instant, rate: nat)
    requires a <= b <= c
    ensures MicrosDown(a, b) * rate + MicrosDown(b, c) * rate <= MicrosDown(a, c) * rate
  {
    var x, y, z := MicrosDown(a, b), MicrosDown(b, c), MicrosDown(a, c);
    assert (x + y) * rate <= z * rate;
  }

  /** Taking tokens gives out no more than was there plus what the ceiling earns in the whole
      microseconds credited. */
  lemma TakeEarns(b: Bucket, n: u64, now: Instant, rate: nat)
    requires b.Valid() && b.refill <= rate && b.lastRefill <= now
    ensures var (after, taken) := b.Take(n, now);
            && b.lastRefill <= after.lastRefill <= now
            && taken * TOKEN_SCALE + after.tokens <= b.tokens + MicrosDown(b.lastRefill, after.lastRefill) * rate
  {
    hide Bucket.Take;
    TakeIsGreedy(b, n, now);
    var filled, elapsed := b.Refill(now), b.ElapsedMicros(now);
    if elapsed > 0 {
      var earned := elapsed * b.refill;
      assert Bucket.SaturatingMul(elapsed, b.refill) <= earned;
      Scale(b.refill, rate, elapsed);
      assert filled.tokens <= b.tokens + elapsed * rate;
    }
  }

  /** What a run grants was in the bucket or was earned since the bucket's last refill. */
  lemma {:induction false} GrantsAreEarned(p: Pacer, events: seq<Event>, to: Instant)
    requires p.Valid() && p.bucket.lastRefill <= to && Timed(events, p.bucket.lastRefill, to)
    ensures p.Granted(events) * TOKEN_SCALE
            <= p.bucket.tokens + MicrosDown(p.bucket.lastRefill, to) * p.loop.rate.max
    decreases events
  {
    hide Bucket.Take, MicrosDown;
    if events != [] {
      var (next, granted) := p.Step(events[0]);
      match events[0] {
        case Consume(n, now) =>
          TakeEarns(p.bucket, n, now, p.loop.rate.max);
          TimedEarlier(events[1..], now, next.bucket.lastRefill, to);
          GrantsAreEarned(next, events[1..], to);
          MicrosAdd(p.bucket.lastRefill, next.bucket.lastRefill, to, p.loop.rate.max);
        case _ =>
          GrantsAreEarned(next, events[1..], to);
      }
    } else {
      Scale(0, MicrosDown(p.bucket.lastRefill, to), p.loop.rate.max);
    }
  }

  lemma {:induction false} TimedEarlier(events: seq<Event>, from: Instant, earlier: Instant, to: Instant)
    requires earlier <= from && Timed(events, from, to)
    ensures Timed(events, earlier, to)
  {
    if events != [] && !events[0].Consume? {
      TimedEarlier(events[1..], from, earlier, to);
    }
  }

  /** In any window of a run, at most the burst plus what the ceiling earns in the window, its length
      rounded up to whole microseconds. */
  lemma {:induction false} WindowBound(p: Pacer, events: seq<Event>, from: Instant, to: Instant)
    requires p.Valid() && p.bucket.lastRefill <= from <= to && Timed(events, from, to)
    ensures p.Granted(events) * TOKEN_SCALE <= p.bucket.max + MicrosUp(from, to) * p.loop.rate.max
    decreases events
  {
    var rate, last := p.loop.rate.max, p.bucket.lastRefill;
    if from - last < 1000 {
      TimedEarlier(events, from, last, to);
      GrantsAreEarned(p, events, to);
      Scale(MicrosDown(last, to), MicrosUp(from, to), rate);
    } else if events != [] {
      var (next, granted) := p.Step(events[0]);
      if events[0].Consume? {
        assert next.bucket.lastRefill == events[0].now;
        GrantsAreEarned(next, events[1..], to);
        Scale(MicrosDown(events[0].now, to), MicrosUp(from, to), rate);
      } else {
        WindowBound(next, events[1..], from, to);
      }
    }
  }

  lemma Scale(a: nat, b: nat, rate: nat)
    requires a <= b
    ensures a * rate <= b * rate
  {
  }

  /** From the creation of the limiter the length of the run may be rounded down. */
  lemma RunBound(rate: u64, burst: u64, start: Instant, events: seq<Event>, to: Instant)
    requires 1 <= rate <= U64_MAX / ADAPTIVE_MD_NUMER
    requires start <= to && Timed(events, start, to)
    ensures NewPacer(rate, burst, start).Granted(events) * TOKEN_SCALE
            <= Max(burst, 1) * TOKEN_SCALE + MicrosDown(start, to) * rate
  {
    GrantsAreEarned(NewPacer(rate, burst, start), events, to);
  }

  /** The rounding matters: a window that opens just before a whole microsecond since the last
      refill has passed gets that microsecond too. Here one nanosecond grants two tokens. */
  lemma WindowMayStraddleRefill()
    ensures var p := NewPacer(1_000_000, 1, 0);
            && Timed([Consume(1, 999), Consume(1, 1000)], 999, 1000)
            && p.Granted([Consume(1, 999), Consume(1, 1000)]) * TOKEN_SCALE
               > p.bucket.max + MicrosDown(999, 1000) * p.loop.rate.max
  {
    var p := NewPacer(1_000_000, 1, 0);
    var first, second := Consume(1, 999), Consume(1, 1000);
    var (p1, g1) := p.Step(first);
    assert g1 == 1;
    var (p2, g2) := p1.Step(second);
    assert g2 == 1;
    assert [first, second][1..] == [second];
    assert p1.Granted([second]) == 1;
  }
}
