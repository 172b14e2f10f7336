/** When a /24 trips and is blocked, said of its feeds alone. */
module FeedWindows {
  import opened Words

  /** One feed of a /24. */
  datatype Fed = Fed(count: u32, now: nat)

  /** The window in which feeds are counted, the count that trips, and how long a trip blocks. */
  datatype Limits = Limits(window: nat, threshold: u32, backoff: nat)

  /** The feed with which the current window opened: the first, or the last that came more than a window
      after the opening before it. */
  function OpenedAt(feeds: seq<Fed>, limits: Limits): (i: nat)
    requires feeds != []
    ensures i < |feeds|
  {
    var last := |feeds| - 1;
    if last == 0 then 0
    else
      var before := OpenedAt(feeds[..last], limits);
      if feeds[last].now > feeds[before].now + limits.window then last else before
  }

  function Sum(feeds: seq<Fed>): nat {
    if feeds == [] then 0 else Sum(feeds[..|feeds| - 1]) + feeds[|feeds| - 1].count
  }

  /** The last feed trips: the /24 is not blocked, and the feeds since the window opened, those during a
      block included, reach the threshold. */
  predicate Trips(feeds: seq<Fed>, limits: Limits)
    requires feeds != []
    decreases |feeds|, 0
  {
    var last := |feeds| - 1;
    && !Blocked(feeds[..last], limits, feeds[last].now)
    && Min(Sum(feeds[OpenedAt(feeds, limits)..]), U32_MAX) >= limits.threshold
  }

  /** Some feed tripped less than the backoff ago. */
  predicate Blocked(feeds: seq<Fed>, limits: Limits, now: nat)
    decreases |feeds|, 1
  {
    feeds != [] &&
    var last := |feeds| - 1;
    (Blocked(feeds[..last], limits, now) || (Trips(feeds, limits) && feeds[last].now + limits.backoff > now))
  }

  /** A block does not come back. */
  lemma {:induction false} BlockedBefore(feeds: seq<Fed>, limits: Limits, now: nat, later: nat)
    requires now <= later && Blocked(feeds, limits, later)
    ensures Blocked(feeds, limits, now)
    decreases |feeds|
  {
    var init := feeds[..|feeds| - 1];
    if Blocked(init, limits, later) {
      BlockedBefore(init, limits, now, later);
    }
  }

  /** One more feed either opens a window or adds to the sum of the current one. */
  lemma WindowStep(feeds: seq<Fed>, fed: Fed, limits: Limits)
    ensures var all := feeds + [fed];
            var opens := feeds == [] || fed.now > feeds[OpenedAt(feeds, limits)].now + limits.window;
            && all[OpenedAt(all, limits)].now == (if opens then fed.now else feeds[OpenedAt(feeds, limits)].now)
            && Sum(all[OpenedAt(all, limits)..])
               == (if opens then 0 else Sum(feeds[OpenedAt(feeds, limits)..])) + fed.count
  {
    var all := feeds + [fed];
    assert all[..|feeds|] == feeds;
    var at := OpenedAt(all, limits);
    if at == |feeds| {
      assert all[at..] == [fed];
      assert [fed][..0] == [];
    } else {
      assert all[at..] == feeds[at..] + [fed];
      assert (feeds[at..] + [fed])[..|feeds[at..]|] == feeds[at..];
    }
  }

  lemma TripsStep(feeds: seq<Fed>, fed: Fed, limits: Limits)
    ensures var all := feeds + [fed];
            && (Trips(all, limits) <==>
                  !Blocked(feeds, limits, fed.now) && Min(Sum(all[OpenedAt(all, limits)..]), U32_MAX) >= limits.threshold)
            && forall now: nat :: Blocked(all, limits, now) <==>
                 Blocked(feeds, limits, now) || (Trips(all, limits) && fed.now + limits.backoff > now)
  {
    hide OpenedAt, Sum;
    assert (feeds + [fed])[..|feeds|] == feeds;
  }
}
