/** The RST-burst backoff table shared by the receive and transmit threads. */
module Rst {
  import opened Words

  type Table = map<u32, nat>

  predicate IsBlockedIn(table: Table, slash24: u32, now: nat) {
    slash24 in table && table[slash24] > now
  }

  function Block(table: Table, slash24: u32, until: nat): Table {
    table[slash24 := if slash24 in table then Max(table[slash24], until) else until]
  }

  function Prune(table: Table, now: nat): Table {
    map s | s in table && table[s] > now :: table[s]
  }

  datatype Event = Blocked(slash24: u32, duration: nat, now: nat) | Pruned(now: nat)

  /** The clock never runs backwards. */
  predicate Timed(events: seq<Event>, to: nat) {
    events == [] ||
    var last := events[|events| - 1];
    last.now <= to && Timed(events[..|events| - 1], last.now)
  }

  function Run(events: seq<Event>): Table {
    if events == [] then map[]
    else
      var before, last := Run(events[..|events| - 1]), events[|events| - 1];
      match last
      case Blocked(s, duration, now) => Block(before, s, now + duration)
      case Pruned(now) => Prune(before, now)
  }

  ghost predicate SomeCallReaches(events: seq<Event>, slash24: u32, now: nat) {
    exists i :: 0 <= i < |events| && events[i].Blocked? && events[i].slash24 == slash24
                && events[i].now + events[i].duration > now
  }

  /** A /24 is blocked exactly while the expiry of some earlier call lies ahead, whatever shorter
      calls, calls for other /24s and prunes came between. */
  lemma {:induction false} BlockedIffSomeCallReaches(events: seq<Event>, slash24: u32, now: nat)
    requires Timed(events, now)
    ensures IsBlockedIn(Run(events), slash24, now) <==> SomeCallReaches(events, slash24, now)
  {
    if events != [] {
      var before, last := events[..|events| - 1], events[|events| - 1];
      TimedLater(before, last.now, now);
      BlockedIffSomeCallReaches(before, slash24, now);
      if SomeCallReaches(before, slash24, now) {
        var i :| 0 <= i < |before| && before[i].Blocked? && before[i].slash24 == slash24
                 && before[i].now + before[i].duration > now;
        assert events[i] == before[i];
      }
      if SomeCallReaches(events, slash24, now) {
        var i :| 0 <= i < |events| && events[i].Blocked? && events[i].slash24 == slash24
                 && events[i].now + events[i].duration > now;
        assert i < |before| ==> before[i] == events[i];
      }
    }
  }

  lemma TimedLater(events: seq<Event>, to: nat, later: nat)
    requires Timed(events, to) && to <= later
    ensures Timed(events, later)
  {
  }

  /** The table, and as a ghost the calls that made it what it is. */
  class Slash24Backoff {
    var inner: Table
    ghost var history: seq<Event>

    ghost predicate Valid()
      reads this
    {
      inner == Run(history)
    }

    constructor ()
      ensures Valid() && inner == map[] && history == []
    {
      inner := map[];
      history := [];
    }

    method BlockFor(slash24: u32, duration: nat, now: nat)
      requires Valid()
      modifies this
      ensures Valid() && history == old(history) + [Blocked(slash24, duration, now)]
      ensures inner == Block(old(inner), slash24, now + duration)
    {
      var until := now + duration;
      if slash24 !in inner {
        inner := inner[slash24 := until];
      }
      if inner[slash24] < until {
        inner := inner[slash24 := until];
      }
      history := history + [Blocked(slash24, duration, now)];
    }

    /** While the clock has not run backwards: blocked exactly if the expiry of some call ever made for
        this /24 lies ahead. */
    method IsBlocked(slash24: u32, now: nat) returns (answer: bool)
      requires Valid()
      ensures answer == IsBlockedIn(inner, slash24, now)
      ensures Timed(history, now) ==> (answer <==> SomeCallReaches(history, slash24, now))
    {
      answer := slash24 in inner && inner[slash24] > now;
      if Timed(history, now) {
        BlockedIffSomeCallReaches(history, slash24, now);
      }
    }

    method PruneAt(now: nat)
      requires Valid()
      modifies this
      ensures Valid() && history == old(history) + [Pruned(now)]
      ensures inner == Prune(old(inner), now)
    {
      inner := map s | s in inner && inner[s] > now :: inner[s];
      history := history + [Pruned(now)];
    }
  }
}
