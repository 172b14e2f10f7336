/** The ICMP-unreachable backoff table. Times and durations are in nanoseconds. */
module Icmp {
  import opened Words
  import opened Wrappers
  import FeedWindows

  datatype Config = Config(window: nat, burstThreshold: u32, backoff: nat)

  datatype Entry = Entry(count: u32, windowStart: nat, blockedUntil: Option<nat>) {
    predicate BlockedAt(now: nat) { blockedUntil.Some? && blockedUntil.value > now }

    /** `now.duration_since(windowStart) > window`, which is false for an earlier clock reading. */
    predicate WindowOver(cfg: Config, now: nat) { now > windowStart + cfg.window }

    /** Pruning drops exactly these entries. */
    predicate Stale(cfg: Config, now: nat) { !BlockedAt(now) && WindowOver(cfg, now) }
  }

  type Table = map<u32, Entry>

  datatype Fed = Fed(entry: Entry, answer: bool, tripped: bool)

  /** One feed, on the entry of the fed /24. */
  function FeedEntry(entry: Option<Entry>, count: u32, cfg: Config, now: nat): Fed {
    var e := if entry.Some? then entry.value else Entry(0, now, None);
    var rolled := if e.WindowOver(cfg, now) then e.(count := 0, windowStart := now) else e;
    var counted := rolled.(count := Min(rolled.count + count, U32_MAX));
    if counted.BlockedAt(now) then Fed(counted, true, false)
    else if counted.count >= cfg.burstThreshold then Fed(counted.(blockedUntil := Some(now + cfg.backoff)), true, true)
    else Fed(counted, false, false)
  }

  function Lookup(table: Table, slash24: u32): Option<Entry> {
    if slash24 in table then Some(table[slash24]) else None
  }

  function Feed(table: Table, slash24: u32, count: u32, cfg: Config, now: nat): (Table, Fed) {
    var fed := FeedEntry(Lookup(table, slash24), count, cfg, now);
    (table[slash24 := fed.entry], fed)
  }

  predicate IsBlocked(table: Table, slash24: u32, now: nat) {
    slash24 in table && table[slash24].BlockedAt(now)
  }

  function Prune(table: Table, cfg: Config, now: nat): Table {
    map slash24 | slash24 in table && !table[slash24].Stale(cfg, now) :: table[slash24]
  }

  // ---- Runs ----

  datatype Event =
    | Fed24(slash24: u32, count: u32, now: nat)
    | Asked(slash24: u32, now: nat)
    | Pruned(now: nat)

  /** The clock never runs backwards. */
  predicate Timed(events: seq<Event>, from: nat) {
    events == [] || (from <= events[0].now && Timed(events[1..], events[0].now))
  }

  function Next(table: Table, cfg: Config, e: Event): Table {
    match e
    case Fed24(s, count, now) => Feed(table, s, count, cfg, now).0
    case Asked(_, _) => table
    case Pruned(now) => Prune(table, cfg, now)
  }

  /** What one event answers; a prune answers nothing. */
  function Answers(table: Table, cfg: Config, e: Event): seq<bool> {
    match e
    case Fed24(s, count, now) => [Feed(table, s, count, cfg, now).1.answer]
    case Asked(s, now) => [IsBlocked(table, s, now)]
    case Pruned(_) => []
  }

  function Trips(table: Table, cfg: Config, e: Event): nat {
    match e
    case Fed24(s, count, now) => if Feed(table, s, count, cfg, now).1.tripped then 1 else 0
    case _ => 0
  }

  /** All answers of a run, and the growth of `blockedTotal`. */
  function Run(table: Table, cfg: Config, events: seq<Event>): (seq<bool>, nat)
    decreases events
  {
    if events == [] then ([], 0)
    else
      var rest := Run(Next(table, cfg, events[0]), cfg, events[1..]);
      (Answers(table, cfg, events[0]) + rest.0, Trips(table, cfg, events[0]) + rest.1)
  }

  function WithoutPrunes(events: seq<Event>): seq<Event> {
    if events == [] then []
    else (if events[0].Pruned? then [] else [events[0]]) + WithoutPrunes(events[1..])
  }

  /** The events that concern one /24, prunes aside. */
  function Only(slash24: u32, events: seq<Event>): seq<Event> {
    if events == [] then []
    else (if Concerns(slash24, events[0]) then [events[0]] else []) + Only(slash24, events[1..])
  }

  predicate Concerns(slash24: u32, e: Event) { !e.Pruned? && e.slash24 == slash24 }

  function AnswersFor(slash24: u32, table: Table, cfg: Config, events: seq<Event>): seq<bool>
    decreases events
  {
    if events == [] then []
    else
      (if Concerns(slash24, events[0]) then Answers(table, cfg, events[0]) else [])
      + AnswersFor(slash24, Next(table, cfg, events[0]), cfg, events[1..])
  }

  // ---- Pruning is invisible ----

  /** What can still matter of an entry: nothing of a stale one, and no expired block. */
  function View(entry: Option<Entry>, cfg: Config, now: nat): Option<Entry> {
    if entry.None? || entry.value.Stale(cfg, now) then None
    else if entry.value.BlockedAt(now) then entry
    else Some(entry.value.(blockedUntil := None))
  }

  ghost predicate Similar(a: Table, b: Table, cfg: Config, now: nat) {
    forall s: u32 :: View(Lookup(a, s), cfg, now) == View(Lookup(b, s), cfg, now)
  }

  lemma ViewAges(a: Option<Entry>, b: Option<Entry>, cfg: Config, from: nat, now: nat)
    requires from <= now && View(a, cfg, from) == View(b, cfg, from)
    ensures View(a, cfg, now) == View(b, cfg, now)
  {
  }

  /** Entries that look the same answer a feed the same, and look the same afterwards. */
  lemma SimilarFeed(a: Option<Entry>, b: Option<Entry>, count: u32, cfg: Config, now: nat)
    requires View(a, cfg, now) == View(b, cfg, now)
    ensures var x, y := FeedEntry(a, count, cfg, now), FeedEntry(b, count, cfg, now);
            && x.answer == y.answer
            && x.tripped == y.tripped
            && View(Some(x.entry), cfg, now) == View(Some(y.entry), cfg, now)
  {
  }

  lemma PruneLooksSame(table: Table, cfg: Config, now: nat, slash24: u32)
    ensures View(Lookup(Prune(table, cfg, now), slash24), cfg, now) == View(Lookup(table, slash24), cfg, now)
  {
  }

  lemma SimilarAges(a: Table, b: Table, cfg: Config, from: nat, now: nat)
    requires Similar(a, b, cfg, from) && from <= now
    ensures Similar(a, b, cfg, now)
  {
    forall s: u32
      ensures View(Lookup(a, s), cfg, now) == View(Lookup(b, s), cfg, now)
    {
      ViewAges(Lookup(a, s), Lookup(b, s), cfg, from, now);
    }
  }

  /** A prune on one side, or the same feed or question on both, keeps the tables similar. */
  lemma SimilarNext(a: Table, b: Table, cfg: Config, e: Event)
    requires Similar(a, b, cfg, e.now)
    ensures e.Pruned? ==> Similar(Next(a, cfg, e), b, cfg, e.now)
    ensures !e.Pruned? ==>
              && Similar(Next(a, cfg, e), Next(b, cfg, e), cfg, e.now)
              && Answers(a, cfg, e) == Answers(b, cfg, e)
              && Trips(a, cfg, e) == Trips(b, cfg, e)
  {
    match e {
      case Pruned(now) =>
        forall s: u32
          ensures View(Lookup(Prune(a, cfg, now), s), cfg, now) == View(Lookup(b, s), cfg, now)
        {
          PruneLooksSame(a, cfg, now, s);
        }
      case Asked(s, now) =>
        SameAnswer(a, b, cfg, now, s);
      case Fed24(s, count, now) =>
        SimilarFeed(Lookup(a, s), Lookup(b, s), count, cfg, now);
        var a', b' := Next(a, cfg, e), Next(b, cfg, e);
        assert forall other: u32 :: other != s ==> Lookup(a', other) == Lookup(a, other) && Lookup(b', other) == Lookup(b, other);
    }
  }

  /** Bisimulation: from tables that look the same, a run and the same run without its prunes give
      the same answers and the same `blockedTotal`. */
  lemma {:induction false} PruneInvisible(a: Table, b: Table, cfg: Config, events: seq<Event>, from: nat)
    requires Similar(a, b, cfg, from) && Timed(events, from)
    ensures Run(a, cfg, events) == Run(b, cfg, WithoutPrunes(events))
    decreases events
  {
    hide Run, WithoutPrunes, Next, Answers, Trips, Similar;
    if events == [] {
      NothingRuns(a, b, cfg);
    } else {
      var e, rest := events[0], events[1..];
      assert events == [e] + rest;
      SimilarAges(a, b, cfg, from, e.now);
      SimilarNext(a, b, cfg, e);
      RunStep(a, cfg, e, rest);
      if e.Pruned? {
        PruneInvisible(Next(a, cfg, e), b, cfg, rest, e.now);
      } else {
        PruneInvisible(Next(a, cfg, e), Next(b, cfg, e), cfg, rest, e.now);
        RunStep(b, cfg, e, WithoutPrunes(rest));
      }
    }
  }

  lemma NothingRuns(a: Table, b: Table, cfg: Config)
    ensures Run(a, cfg, []) == Run(b, cfg, WithoutPrunes([]))
  {
  }

  lemma RunStep(table: Table, cfg: Config, e: Event, rest: seq<Event>)
    ensures var after := Run(Next(table, cfg, e), cfg, rest);
            Run(table, cfg, [e] + rest) == (Answers(table, cfg, e) + after.0, Trips(table, cfg, e) + after.1)
    ensures e.Pruned? ==> Run(table, cfg, [e] + rest) == Run(Next(table, cfg, e), cfg, rest)
    ensures WithoutPrunes([e] + rest) == if e.Pruned? then WithoutPrunes(rest) else [e] + WithoutPrunes(rest)
  {
    hide Feed, Prune;
    assert ([e] + rest)[1..] == rest;
    assert [] + WithoutPrunes(rest) == WithoutPrunes(rest);
    assert [] + Run(Next(table, cfg, e), cfg, rest).0 == Run(Next(table, cfg, e), cfg, rest).0;
  }

  lemma SameAnswer(a: Table, b: Table, cfg: Config, now: nat, slash24: u32)
    requires View(Lookup(a, slash24), cfg, now) == View(Lookup(b, slash24), cfg, now)
    ensures IsBlocked(a, slash24, now) == IsBlocked(b, slash24, now)
  {
  }

  /** Isolation: what one /24 is answered and when it trips depend on its own feeds only, neither on
      other /24s nor on prunes. */
  lemma {:induction false} Isolation(slash24: u32, a: Table, b: Table, cfg: Config, events: seq<Event>, from: nat)
    requires View(Lookup(a, slash24), cfg, from) == View(Lookup(b, slash24), cfg, from) && Timed(events, from)
    ensures AnswersFor(slash24, a, cfg, events) == Run(b, cfg, Only(slash24, events)).0
    ensures TripTimes(slash24, a, cfg, events) == TripTimes(slash24, b, cfg, Only(slash24, events))
    decreases events
  {
    if events != [] {
      var e, rest := events[0], events[1..];
      var now := e.now;
      ViewAges(Lookup(a, slash24), Lookup(b, slash24), cfg, from, now);
      if Concerns(slash24, e) {
        assert ([e] + Only(slash24, rest))[1..] == Only(slash24, rest);
        if e.Asked? {
          SameAnswer(a, b, cfg, now, slash24);
        } else {
          SimilarFeed(Lookup(a, slash24), Lookup(b, slash24), e.count, cfg, now);
        }
        Isolation(slash24, Next(a, cfg, e), Next(b, cfg, e), cfg, rest, now);
      } else {
        if e.Pruned? {
          PruneLooksSame(a, cfg, now, slash24);
        }
        Isolation(slash24, Next(a, cfg, e), b, cfg, rest, now);
        assert [] + AnswersFor(slash24, Next(a, cfg, e), cfg, rest) == AnswersFor(slash24, Next(a, cfg, e), cfg, rest);
        assert [] + TripTimes(slash24, Next(a, cfg, e), cfg, rest) == TripTimes(slash24, Next(a, cfg, e), cfg, rest);
        assert [] + Only(slash24, rest) == Only(slash24, rest);
      }
    }
  }

  // ---- Blocked exactly for `backoff` after each trip ----

  /** The moments at which a /24 tripped in a run. */
  function TripTimes(slash24: u32, table: Table, cfg: Config, events: seq<Event>): seq<nat>
    decreases events
  {
    if events == [] then []
    else
      (if Concerns(slash24, events[0]) && Trips(table, cfg, events[0]) == 1 then [events[0].now] else [])
      + TripTimes(slash24, Next(table, cfg, events[0]), cfg, events[1..])
  }

  function After(table: Table, cfg: Config, events: seq<Event>): Table
    decreases events
  {
    if events == [] then table else After(Next(table, cfg, events[0]), cfg, events[1..])
  }

  function EndTime(events: seq<Event>, from: nat): nat {
    if events == [] then from else EndTime(events[1..], events[0].now)
  }

  ghost predicate TrippedRecently(trips: seq<nat>, cfg: Config, now: nat) {
    exists i :: 0 <= i < |trips| && trips[i] <= now < trips[i] + cfg.backoff
  }

  /** Starting from a table in which the /24 is blocked exactly as `earlier` trips say, it is
      blocked at the end of the run exactly as those and the run's own trips say. */
  lemma {:induction false} BlockedIffTripped(slash24: u32, table: Table, cfg: Config, events: seq<Event>, earlier: seq<nat>, from: nat, now: nat)
    requires Timed(events, from) && EndTime(events, from) <= now
    requires forall t: nat :: t >= from ==> (IsBlocked(table, slash24, t) <==> TrippedRecently(earlier, cfg, t))
    ensures IsBlocked(After(table, cfg, events), slash24, now)
            <==> TrippedRecently(earlier + TripTimes(slash24, table, cfg, events), cfg, now)
    decreases events
  {
    if events == [] {
      EndAfterStart(events, from);
      assert earlier + [] == earlier;
    } else {
      var e, rest := events[0], events[1..];
      var next := Next(table, cfg, e);
      var own := if Concerns(slash24, e) && Trips(table, cfg, e) == 1 then [e.now] else [];
      forall t: nat | t >= e.now
        ensures IsBlocked(next, slash24, t) <==> TrippedRecently(earlier + own, cfg, t)
      {
        StepKeepsHistory(slash24, table, cfg, e, earlier, t);
      }
      BlockedIffTripped(slash24, next, cfg, rest, earlier + own, e.now, now);
      assert earlier + own + TripTimes(slash24, next, cfg, rest) == earlier + (own + TripTimes(slash24, next, cfg, rest));
    }
  }

  lemma {:induction false} EndAfterStart(events: seq<Event>, from: nat)
    requires Timed(events, from)
    ensures from <= EndTime(events, from)
  {
    if events != [] {
      EndAfterStart(events[1..], events[0].now);
    }
  }

  lemma StepKeepsHistory(slash24: u32, table: Table, cfg: Config, e: Event, earlier: seq<nat>, t: nat)
    requires forall u: nat :: u >= e.now ==> (IsBlocked(table, slash24, u) <==> TrippedRecently(earlier, cfg, u))
    requires t >= e.now
    ensures var own := if Concerns(slash24, e) && Trips(table, cfg, e) == 1 then [e.now] else [];
            IsBlocked(Next(table, cfg, e), slash24, t) <==> TrippedRecently(earlier + own, cfg, t)
  {
    if Concerns(slash24, e) && Trips(table, cfg, e) == 1 {
      assert !IsBlocked(table, slash24, e.now);
      RecentAppend(earlier, e.now, cfg, t);
    } else {
      assert earlier + [] == earlier;
    }
  }

  lemma RecentAppend(trips: seq<nat>, trip: nat, cfg: Config, t: nat)
    ensures TrippedRecently(trips + [trip], cfg, t)
            <==> TrippedRecently(trips, cfg, t) || trip <= t < trip + cfg.backoff
  {
    if TrippedRecently(trips, cfg, t) {
      var i :| 0 <= i < |trips| && trips[i] <= t < trips[i] + cfg.backoff;
      assert (trips + [trip])[i] == trips[i];
    }
    if trip <= t < trip + cfg.backoff {
      assert (trips + [trip])[|trips|] == trip;
    }
  }

  /** From an empty table: blocked at `now` exactly if it tripped less than `backoff` ago. */
  lemma BlockedFromEmpty(slash24: u32, cfg: Config, events: seq<Event>, from: nat, now: nat)
    requires Timed(events, from) && EndTime(events, from) <= now
    ensures IsBlocked(After(map[], cfg, events), slash24, now)
            <==> TrippedRecently(TripTimes(slash24, map[], cfg, events), cfg, now)
  {
    BlockedIffTripped(slash24, map[], cfg, events, [], from, now);
    assert [] + TripTimes(slash24, map[], cfg, events) == TripTimes(slash24, map[], cfg, events);
  }

  /** The events that a feed brings the window of its /24 to. */
  function Counted(table: Table, slash24: u32, count: u32, cfg: Config, now: nat): u32 {
    var before := if slash24 in table && !table[slash24].WindowOver(cfg, now) then table[slash24].count else 0;
    Min(before + count, U32_MAX)
  }

  /** A feed answers true exactly if the /24 is blocked already or the count in its window reaches the
      threshold. That is whether it is blocked afterwards, unless the backoff is zero and the feed trips:
      then it answers true and blocks nothing. Other /24s are untouched. */
  lemma FeedAnswersBlocked(table: Table, slash24: u32, count: u32, cfg: Config, now: nat)
    ensures var (after, fed) := Feed(table, slash24, count, cfg, now);
            var blocked, counted := IsBlocked(table, slash24, now), Counted(table, slash24, count, cfg, now);
            && (fed.answer <==> blocked || counted >= cfg.burstThreshold)
            && (fed.tripped <==> !blocked && counted >= cfg.burstThreshold)
            && ((fed.answer <==> IsBlocked(after, slash24, now))
                <==> cfg.backoff > 0 || blocked || counted < cfg.burstThreshold)
            && (forall s: u32 :: s != slash24 ==> Lookup(after, s) == Lookup(table, s))
  {
  }

  /** With no backoff, the third event of a burst of three answers true and blocks nothing. */
  lemma ZeroBackoffBlocksNothing()
    ensures var cfg := Config(1_000_000_000, 3, 0);
            var (after, fed) := Feed(map[], 0x0A0000, 3, cfg, 5);
            fed.answer && !IsBlocked(after, 0x0A0000, 5)
  {
  }

  // ---- The table and its history ----

  /** One call that changed the table, and the configuration it was given. */
  datatype Call = Call(event: Event, cfg: Config)

  function Replay(history: seq<Call>): Table {
    if history == [] then map[]
    else
      var last := history[|history| - 1];
      Next(Replay(history[..|history| - 1]), last.cfg, last.event)
  }

  function TotalTrips(history: seq<Call>): nat {
    if history == [] then 0
    else
      var before, last := history[..|history| - 1], history[|history| - 1];
      TotalTrips(before) + Trips(Replay(before), last.cfg, last.event)
  }

  predicate Ordered(history: seq<Call>, to: nat) {
    history == [] ||
    var last := history[|history| - 1];
    last.event.now <= to && Ordered(history[..|history| - 1], last.event.now)
  }

  predicate TrippedAt(history: seq<Call>, i: nat, slash24: u32)
    requires i < |history|
  {
    Concerns(slash24, history[i].event) && Trips(Replay(history[..i]), history[i].cfg, history[i].event) == 1
  }

  /** Some call tripped the /24 less than its backoff ago. */
  ghost predicate TripReaches(history: seq<Call>, slash24: u32, now: nat) {
    exists i :: 0 <= i < |history| && TrippedAt(history, i, slash24)
                && history[i].event.now + history[i].cfg.backoff > now
  }

  lemma OrderedLater(history: seq<Call>, to: nat, later: nat)
    requires Ordered(history, to) && to <= later
    ensures Ordered(history, later)
  {
  }

  lemma TripReachesAppend(history: seq<Call>, call: Call, slash24: u32, now: nat)
    ensures TripReaches(history + [call], slash24, now)
            <==> TripReaches(history, slash24, now)
                 || (Concerns(slash24, call.event) && Trips(Replay(history), call.cfg, call.event) == 1
                     && call.event.now + call.cfg.backoff > now)
  {
    hide Replay, Concerns, Trips;
    var all := history + [call];
    assert all[..|history|] == history && all[|history|] == call;
    assert TrippedAt(all, |history|, slash24)
        <==> Concerns(slash24, call.event) && Trips(Replay(history), call.cfg, call.event) == 1;
    forall i | 0 <= i < |history|
      ensures TrippedAt(all, i, slash24) == TrippedAt(history, i, slash24) && all[i] == history[i]
    {
      assert all[..i] == history[..i];
    }
  }

  /** One call keeps what is blocked, at its time and later, but for what it trips. */
  lemma CallBlocks(table: Table, call: Call, slash24: u32, now: nat)
    requires call.event.now <= now
    ensures var tripped := Concerns(slash24, call.event) && Trips(table, call.cfg, call.event) == 1;
            && (tripped ==> !IsBlocked(table, slash24, call.event.now))
            && (IsBlocked(Next(table, call.cfg, call.event), slash24, now)
                <==> IsBlocked(table, slash24, now) || (tripped && call.event.now + call.cfg.backoff > now))
  {
  }

  /** Whatever configurations the calls were given and whatever prunes came between: a /24 is blocked
      exactly if some call tripped it less than that call's backoff ago. */
  lemma {:induction false} BlockedIffTripReaches(history: seq<Call>, slash24: u32, now: nat)
    requires Ordered(history, now)
    ensures IsBlocked(Replay(history), slash24, now) <==> TripReaches(history, slash24, now)
  {
    hide Next, IsBlocked, TripReaches, Replay, Concerns, Trips;
    if history == [] {
      NothingTripped(slash24, now);
    } else {
      var before, last := history[..|history| - 1], history[|history| - 1];
      OrderedLater(before, last.event.now, now);
      BlockedIffTripReaches(before, slash24, now);
      CallBlocks(Replay(before), last, slash24, now);
      TripReachesAppend(before, last, slash24, now);
      ReplayAppend(before, last);
      assert history == before + [last];
    }
  }

  lemma NothingTripped(slash24: u32, now: nat)
    ensures !IsBlocked(Replay([]), slash24, now) && !TripReaches([], slash24, now)
  {
  }

  lemma ReplayAppend(history: seq<Call>, call: Call)
    ensures Replay(history + [call]) == Next(Replay(history), call.cfg, call.event)
    ensures TotalTrips(history + [call]) == TotalTrips(history) + Trips(Replay(history), call.cfg, call.event)
  {
    assert (history + [call])[..|history|] == history;
  }

  // ---- The history of one /24 ----

  ghost predicate OneConfig(history: seq<Call>, cfg: Config) {
    forall i :: 0 <= i < |history| ==> history[i].cfg == cfg
  }

  /** The feeds of a /24, prunes and other /24s aside. */
  function FeedsOf(history: seq<Call>, slash24: u32): seq<FeedWindows.Fed> {
    if history == [] then []
    else
      var e := history[|history| - 1].event;
      FeedsOf(history[..|history| - 1], slash24)
      + (if e.Fed24? && e.slash24 == slash24 then [FeedWindows.Fed(e.count, e.now)] else [])
  }

  function LimitsOf(cfg: Config): FeedWindows.Limits {
    FeedWindows.Limits(cfg.window, cfg.burstThreshold, cfg.backoff)
  }

  /** What an entry, or its absence, says from a moment on of the feeds so far. */
  ghost predicate Reflects(entry: Option<Entry>, feeds: seq<FeedWindows.Fed>, cfg: Config, from: nat) {
    var limits := LimitsOf(cfg);
    && (forall t: nat :: t >= from ==>
          (FeedWindows.Blocked(feeds, limits, t) <==> entry.Some? && entry.value.BlockedAt(t)))
    && (entry.None? && feeds != [] ==> from > feeds[FeedWindows.OpenedAt(feeds, limits)].now + cfg.window)
    && (entry.Some? ==>
          && feeds != []
          && entry.value.windowStart == feeds[FeedWindows.OpenedAt(feeds, limits)].now
          && entry.value.count == Min(FeedWindows.Sum(feeds[FeedWindows.OpenedAt(feeds, limits)..]), U32_MAX))
  }

  lemma ReflectsLater(entry: Option<Entry>, feeds: seq<FeedWindows.Fed>, cfg: Config, from: nat, later: nat)
    requires Reflects(entry, feeds, cfg, from) && from <= later
    ensures Reflects(entry, feeds, cfg, later)
  {
  }

  /** A feed trips and answers as the feeds say, and its entry reflects them. */
  lemma FeedReflects(entry: Option<Entry>, feeds: seq<FeedWindows.Fed>, count: u32, cfg: Config, now: nat)
    requires Reflects(entry, feeds, cfg, now)
    ensures var fed, all := FeedEntry(entry, count, cfg, now), feeds + [FeedWindows.Fed(count, now)];
            && Reflects(Some(fed.entry), all, cfg, now)
            && (fed.tripped <==> FeedWindows.Trips(all, LimitsOf(cfg)))
            && (fed.answer <==> FeedWindows.Blocked(feeds, LimitsOf(cfg), now) || FeedWindows.Trips(all, LimitsOf(cfg)))
  {
    hide FeedWindows.OpenedAt, FeedWindows.Sum, FeedWindows.Trips, FeedWindows.Blocked;
    var last, limits := FeedWindows.Fed(count, now), LimitsOf(cfg);
    FeedWindows.WindowStep(feeds, last, limits);
    FeedWindows.TripsStep(feeds, last, limits);
    forall t: nat | t >= now && FeedWindows.Blocked(feeds, limits, t)
      ensures FeedWindows.Blocked(feeds, limits, now)
    {
      FeedWindows.BlockedBefore(feeds, limits, now, t);
    }
  }

  lemma PruneReflects(table: Table, feeds: seq<FeedWindows.Fed>, slash24: u32, cfg: Config, now: nat)
    requires Reflects(Lookup(table, slash24), feeds, cfg, now)
    ensures Reflects(Lookup(Prune(table, cfg, now), slash24), feeds, cfg, now)
  {
    hide FeedWindows.OpenedAt, FeedWindows.Sum, FeedWindows.Trips, FeedWindows.Blocked;
    var limits := LimitsOf(cfg);
    forall t: nat | t >= now && FeedWindows.Blocked(feeds, limits, t)
      ensures FeedWindows.Blocked(feeds, limits, now)
    {
      FeedWindows.BlockedBefore(feeds, limits, now, t);
    }
  }

  /** Whatever prunes and other /24s came between, the table reflects the feeds of each /24. */
  lemma {:induction false} ReplayReflects(history: seq<Call>, slash24: u32, cfg: Config, to: nat)
    requires Ordered(history, to) && OneConfig(history, cfg)
    ensures Reflects(Lookup(Replay(history), slash24), FeedsOf(history, slash24), cfg, to)
  {
    hide Reflects, FeedEntry, Prune;
    if history == [] {
      NothingReflects(slash24, cfg, to);
    } else {
      var before, last := history[..|history| - 1], history[|history| - 1];
      var table, feeds := Replay(before), FeedsOf(before, slash24);
      var e := last.event;
      ReplayReflects(before, slash24, cfg, e.now);
      match e {
        case Fed24(s, count, now) =>
          if s == slash24 {
            FeedReflects(Lookup(table, slash24), feeds, count, cfg, now);
          }
        case Asked(_, _) =>
        case Pruned(now) =>
          PruneReflects(table, feeds, slash24, cfg, now);
      }
      assert feeds + [] == feeds;
      ReflectsLater(Lookup(Replay(history), slash24), FeedsOf(history, slash24), cfg, e.now, to);
    }
  }

  lemma NothingReflects(slash24: u32, cfg: Config, from: nat)
    ensures Reflects(Lookup(Replay([]), slash24), FeedsOf([], slash24), cfg, from)
  {
  }

  lemma FeedsOfAppend(history: seq<Call>, call: Call, slash24: u32)
    requires call.event.Fed24? && call.event.slash24 == slash24
    ensures FeedsOf(history + [call], slash24)
            == FeedsOf(history, slash24) + [FeedWindows.Fed(call.event.count, call.event.now)]
  {
    assert (history + [call])[..|history|] == history;
  }

  /** Under one configuration and a clock that does not run backwards, a feed trips and answers as the feeds of its
      /24 say. */
  lemma FeedByHistory(history: seq<Call>, slash24: u32, count: u32, cfg: Config, now: nat)
    requires Ordered(history, now) && OneConfig(history, cfg)
    ensures var fed := Feed(Replay(history), slash24, count, cfg, now).1;
            var feeds := FeedsOf(history, slash24);
            var all := feeds + [FeedWindows.Fed(count, now)];
            && (fed.tripped <==> FeedWindows.Trips(all, LimitsOf(cfg)))
            && (fed.answer <==> FeedWindows.Blocked(feeds, LimitsOf(cfg), now) || FeedWindows.Trips(all, LimitsOf(cfg)))
  {
    hide Reflects, FeedEntry;
    ReplayReflects(history, slash24, cfg, now);
    FeedReflects(Lookup(Replay(history), slash24), FeedsOf(history, slash24), count, cfg, now);
  }

  lemma BlockedByHistory(history: seq<Call>, slash24: u32, cfg: Config, now: nat)
    requires Ordered(history, now) && OneConfig(history, cfg)
    ensures IsBlocked(Replay(history), slash24, now) <==> FeedWindows.Blocked(FeedsOf(history, slash24), LimitsOf(cfg), now)
  {
    hide FeedWindows.OpenedAt, FeedWindows.Sum, FeedWindows.Trips, FeedWindows.Blocked, Replay, FeedsOf;
    ReplayReflects(history, slash24, cfg, now);
  }

  /** The table, and as a ghost the calls that made it what it is. */
  class IcmpBackoff {
    var inner: Table
    var blockedTotal: nat
    ghost var history: seq<Call>

    ghost predicate Valid()
      reads this
    {
      inner == Replay(history) && blockedTotal == TotalTrips(history)
    }

    constructor ()
      ensures Valid() && inner == map[] && blockedTotal == 0 && history == []
    {
      inner := map[];
      blockedTotal := 0;
      history := [];
    }

    /** A feed trips and answers as the feeds of its /24 say, where the clock has not run backwards and the
        configuration has not changed. */
    method FeedAt(slash24: u32, count: u32, cfg: Config, now: nat) returns (answer: bool)
      requires Valid()
      modifies this
      ensures Valid() && history == old(history) + [Call(Fed24(slash24, count, now), cfg)]
      ensures var (table, fed) := Feed(old(inner), slash24, count, cfg, now);
              && inner == table
              && answer == fed.answer
              && blockedTotal == old(blockedTotal) + (if fed.tripped then 1 else 0)
      ensures Ordered(old(history), now) && OneConfig(old(history), cfg) ==>
                var limits := LimitsOf(cfg);
                var trips := FeedWindows.Trips(FeedsOf(history, slash24), limits);
                && blockedTotal == old(blockedTotal) + (if trips then 1 else 0)
                && (answer <==> FeedWindows.Blocked(FeedsOf(old(history), slash24), limits, now) || trips)
    {
      hide Replay, TotalTrips, FeedsOf, Ordered, OneConfig, FeedWindows.Trips, FeedWindows.Blocked;
      FeedsOfAppend(history, Call(Fed24(slash24, count, now), cfg), slash24);
      if Ordered(history, now) && OneConfig(history, cfg) {
        FeedByHistory(history, slash24, count, cfg, now);
      }
      ReplayAppend(history, Call(Fed24(slash24, count, now), cfg));
      history := history + [Call(Fed24(slash24, count, now), cfg)];
      if slash24 !in inner {
        inner := inner[slash24 := Entry(0, now, None)];
      }
      var entry := inner[slash24];
      if now > entry.windowStart + cfg.window {
        entry := entry.(count := 0, windowStart := now);
      }
      entry := entry.(count := Min(entry.count + count, U32_MAX));
      inner := inner[slash24 := entry];
      if entry.BlockedAt(now) {
        return true;
      }
      if entry.count >= cfg.burstThreshold {
        inner := inner[slash24 := entry.(blockedUntil := Some(now + cfg.backoff))];
        blockedTotal := blockedTotal + 1;
        return true;
      }
      return false;
    }

    /** While the clock has not run backwards: blocked exactly if some feed tripped this /24 less than
        its backoff ago. */
    method IsBlockedAt(slash24: u32, now: nat) returns (answer: bool)
      requires Valid()
      ensures answer == IsBlocked(inner, slash24, now)
      ensures Ordered(history, now) ==> (answer <==> TripReaches(history, slash24, now))
      ensures forall cfg :: Ordered(history, now) && OneConfig(history, cfg) ==>
                (answer <==> FeedWindows.Blocked(FeedsOf(history, slash24), LimitsOf(cfg), now))
    {
      hide Replay, FeedsOf, TripReaches, FeedWindows.Blocked;
      if Ordered(history, now) {
        BlockedIffTripReaches(history, slash24, now);
        forall cfg | OneConfig(history, cfg) {
          BlockedByHistory(history, slash24, cfg, now);
        }
      }
      if slash24 !in inner {
        return false;
      }
      answer := match inner[slash24].blockedUntil
        case None => false
        case Some(until) => until > now;
    }

    method PruneAt(cfg: Config, now: nat)
      requires Valid()
      modifies this
      ensures Valid() && history == old(history) + [Call(Pruned(now), cfg)]
      ensures inner == Prune(old(inner), cfg, now) && blockedTotal == old(blockedTotal)
    {
      hide Replay, TotalTrips;
      ReplayAppend(history, Call(Pruned(now), cfg));
      inner := map s | s in inner && (inner[s].BlockedAt(now) || now <= inner[s].windowStart + cfg.window) :: inner[s];
      history := history + [Call(Pruned(now), cfg)];
    }
  }
}
