/** The additive-increase, multiplicative-decrease controller. */
module Aimd {
  import opened Words

  const ADAPTIVE_MIN_PPS := 1_000
  const ADAPTIVE_SUCCESS_STREAK_THRESHOLD := 10
  const ADAPTIVE_AI_DIVISOR := 20
  const ADAPTIVE_MD_NUMER := 3
  const ADAPTIVE_MD_DENOM := 4

  datatype Controller = Controller(current: u64, max: u64, min: u64, successStreak: u32, dropStreak: u32) {
    /** The ceiling leaves room for the multiplication by 3; a 32-bit rate always does. */
    predicate CanScale() { max <= U64_MAX / ADAPTIVE_MD_NUMER }

    predicate Valid() {
      && min == (if max == 0 then 0 else Max(Min(ADAPTIVE_MIN_PPS, max), 1))
      && min <= current <= max
      && successStreak < ADAPTIVE_SUCCESS_STREAK_THRESHOLD
    }

    function OnSuccess(): (c: Controller)
      requires Valid()
      ensures c.Valid() && c.max == max
    {
      if successStreak + 1 >= ADAPTIVE_SUCCESS_STREAK_THRESHOLD then
        this.(current := Min(current + max / ADAPTIVE_AI_DIVISOR, max), successStreak := 0, dropStreak := 0)
      else
        this.(successStreak := successStreak + 1, dropStreak := 0)
    }

    function OnDrops(): (c: Controller)
      requires Valid() && CanScale()
      ensures c.Valid() && c.max == max
    {
      this.(
        current := Max(current * ADAPTIVE_MD_NUMER / ADAPTIVE_MD_DENOM, min),
        successStreak := 0,
        dropStreak := (dropStreak + 1) % (U32_MAX + 1))
    }
  }

  /** Half the ceiling, if that is not below the usual floor; else the floor; else the ceiling. */
  function NewController(max: u64): (c: Controller)
    ensures c.Valid() && c.max == max
    ensures max >= 2000 ==> 2 * c.current <= max <= 2 * c.current + 1
    ensures 1000 <= max < 2000 ==> c.current == 1000
    ensures max < 1000 ==> c.current == max
  {
    var min := if max == 0 then 0 else Max(Min(ADAPTIVE_MIN_PPS, max), 1);
    Controller(if max == 0 then 0 else Min(Max(max / 2, min), max), max, min, 0, 0)
  }

  class AdaptiveRate {
    var currentPps: u64
    const maxPps: u64
    const minPps: u64
    var successStreak: u32
    var dropStreak: u32

    function State(): Controller
      reads this
    {
      Controller(currentPps, maxPps, minPps, successStreak, dropStreak)
    }

    constructor (maxPps: u64)
      ensures State() == NewController(maxPps)
    {
      var floor := if maxPps == 0 then 0 else Max(Min(ADAPTIVE_MIN_PPS, maxPps), 1);
      this.currentPps := if maxPps == 0 then 0 else Min(Max(maxPps / 2, floor), maxPps);
      this.maxPps := maxPps;
      this.minPps := floor;
      this.successStreak := 0;
      this.dropStreak := 0;
    }

    method ReportSuccess()
      requires State().Valid() && maxPps + maxPps / ADAPTIVE_AI_DIVISOR <= U64_MAX
      modifies this
      ensures State() == old(State()).OnSuccess()
    {
      dropStreak := 0;
      successStreak := successStreak + 1;
      if successStreak >= ADAPTIVE_SUCCESS_STREAK_THRESHOLD {
        currentPps := Min(currentPps + maxPps / ADAPTIVE_AI_DIVISOR, maxPps);
        successStreak := 0;
      }
    }

    /** The drop streak is counted but never read; it wraps after 2^32 drops in a row. */
    method ReportDrops()
      requires State().Valid() && State().CanScale()
      modifies this
      ensures State() == old(State()).OnDrops()
    {
      successStreak := 0;
      dropStreak := (dropStreak + 1) % (U32_MAX + 1);
      currentPps := Max(currentPps * ADAPTIVE_MD_NUMER / ADAPTIVE_MD_DENOM, minPps);
    }
  }

  // ---- Bounds over whole runs ----

  datatype Report = Success | Drops

  function Run(c: Controller, reports: seq<Report>): (r: Controller)
    requires c.Valid() && c.CanScale()
    ensures r.Valid() && r.max == c.max
  {
    if reports == [] then c
    else
      var before := Run(c, reports[..|reports| - 1]);
      if reports[|reports| - 1].Success? then before.OnSuccess() else before.OnDrops()
  }

  /** A ceiling at or below the usual floor pins the rate. */
  lemma LowCeilingPins(c: Controller, reports: seq<Report>)
    requires c.Valid() && c.max <= ADAPTIVE_MIN_PPS
    ensures Run(c, reports).current == c.max
  {
  }

  function Successes(n: nat): (reports: seq<Report>) { seq(n, _ => Success) }
  function AllDrops(n: nat): (reports: seq<Report>) { seq(n, _ => Drops) }

  /** After n successes the rate has been stepped up once per completed streak of ten. */
  lemma {:induction false} ClimbBySteps(c: Controller, n: nat, steps: nat, rest: nat)
    requires c.Valid() && c.CanScale()
    requires c.successStreak + n == steps * ADAPTIVE_SUCCESS_STREAK_THRESHOLD + rest
    requires rest < ADAPTIVE_SUCCESS_STREAK_THRESHOLD
    ensures Run(c, Successes(n)).successStreak == rest
    ensures Run(c, Successes(n)).current == Min(c.current + steps * (c.max / ADAPTIVE_AI_DIVISOR), c.max)
    decreases n
  {
    var step: nat := c.max / ADAPTIVE_AI_DIVISOR;
    if n > 0 {
      assert Successes(n)[..n - 1] == Successes(n - 1);
      if rest > 0 {
        ClimbBySteps(c, n - 1, steps, rest - 1);
      } else {
        ClimbBySteps(c, n - 1, steps - 1, ADAPTIVE_SUCCESS_STREAK_THRESHOLD - 1);
        assert steps * step == (steps - 1) * step + step;
      }
    }
  }

  /** From any reachable state, 200 successes in a row bring the rate to the ceiling. */
  lemma TwoHundredSuccessesReachCeiling(c: Controller)
    requires c.Valid() && c.CanScale()
    ensures Run(c, Successes(200)).current == c.max
  {
    hide Run, Successes;
    ClimbBySteps(c, 200, 20, c.successStreak);
  }

  /** And more keep it there. */
  lemma {:induction false} ManySuccessesReachCeiling(c: Controller, n: nat)
    requires c.Valid() && c.CanScale() && n >= 200
    ensures Run(c, Successes(n)).current == c.max
  {
    if n == 200 {
      TwoHundredSuccessesReachCeiling(c);
    } else {
      ManySuccessesReachCeiling(c, n - 1);
      assert Successes(n)[..n - 1] == Successes(n - 1);
    }
  }

  function Power(b: nat, n: nat): nat { if n == 0 then 1 else b * Power(b, n - 1) }

  /** n drops in a row leave the rate at the floor, or at most (3/4)^n of where it was. */
  lemma {:induction false} DropsDecayGeometrically(c: Controller, n: nat)
    requires c.Valid() && c.CanScale()
    ensures var after := Run(c, AllDrops(n)).current;
            after == c.min || Power(4, n) * after <= Power(3, n) * c.current
  {
    if n > 0 {
      DropsDecayGeometrically(c, n - 1);
      assert AllDrops(n)[..n - 1] == AllDrops(n - 1);
      var before, after := Run(c, AllDrops(n - 1)), Run(c, AllDrops(n));
      RunKeepsFloor(c, AllDrops(n - 1));
      if after.current != c.min && before.current != c.min {
        DecayStep(Power(4, n - 1), Power(3, n - 1), before.current, after.current, c.current);
      }
    }
  }

  /** Nor do they take more: three quarters are rounded down by less than one each time. */
  lemma {:induction false} DropsDecayNoFaster(c: Controller, n: nat)
    requires c.Valid() && c.CanScale()
    ensures Power(4, n) * (Run(c, AllDrops(n)).current + 3) >= Power(3, n) * (c.current + 3)
  {
    if n > 0 {
      DropsDecayNoFaster(c, n - 1);
      assert AllDrops(n)[..n - 1] == AllDrops(n - 1);
      var before, after := Run(c, AllDrops(n - 1)).current, Run(c, AllDrops(n)).current;
      SlowStep(Power(4, n - 1), Power(3, n - 1), before + 3, after + 3, c.current + 3);
    }
  }

  lemma SlowStep(p4: nat, p3: nat, before: nat, after: nat, start: nat)
    requires p4 * before >= p3 * start
    requires 4 * after >= 3 * before
    ensures 4 * p4 * after >= 3 * p3 * start
  {
    assert p4 * (4 * after) >= p4 * (3 * before);
  }

  lemma RunKeepsFloor(c: Controller, reports: seq<Report>)
    requires c.Valid() && c.CanScale()
    ensures Run(c, reports).min == c.min
  {
  }

  lemma DecayStep(p4: nat, p3: nat, before: nat, after: nat, start: nat)
    requires p4 * before <= p3 * start
    requires 4 * after <= 3 * before
    ensures 4 * p4 * after <= 3 * p3 * start
  {
    assert p4 * (4 * after) <= p4 * (3 * before);
  }
}
