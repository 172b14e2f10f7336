/** The adaptive loop over runs of engine statistics. */
module Snapshots {
  import opened Words
  import opened Aimd
  import opened Pacing

  datatype Snapshot = Snapshot(packets: u64, drops: u64)

  /** The loop after a run of snapshots. */
  function Feed(l: Loop, snapshots: seq<Snapshot>): (after: Loop)
    requires l.Valid()
    ensures after.Valid() && after.rate.max == l.rate.max
    ensures snapshots != [] ==>
              && after.initialized
              && after.lastTxPackets == snapshots[|snapshots| - 1].packets
              && after.lastTxDrops == snapshots[|snapshots| - 1].drops
  {
    if snapshots == [] then l
    else
      var last := |snapshots| - 1;
      Feed(l, snapshots[..last]).Tick(snapshots[last].packets, snapshots[last].drops)
  }

  /** The counters that a snapshot is compared with. */
  function Before(l: Loop, snapshots: seq<Snapshot>, i: nat): Snapshot
    requires i < |snapshots|
  {
    if i == 0 then Snapshot(l.lastTxPackets, l.lastTxDrops) else snapshots[i - 1]
  }

  /** Every snapshot has new packets and no new drops. */
  predicate Clean(l: Loop, snapshots: seq<Snapshot>) {
    forall i :: 0 <= i < |snapshots| ==>
      snapshots[i].packets > Before(l, snapshots, i).packets && snapshots[i].drops <= Before(l, snapshots, i).drops
  }

  /** Every snapshot has new drops. */
  predicate Dropping(l: Loop, snapshots: seq<Snapshot>) {
    forall i :: 0 <= i < |snapshots| ==> snapshots[i].drops > Before(l, snapshots, i).drops
  }

  /** No snapshot has new drops or new packets. */
  predicate Quiet(l: Loop, snapshots: seq<Snapshot>) {
    forall i :: 0 <= i < |snapshots| ==>
      snapshots[i].packets <= Before(l, snapshots, i).packets && snapshots[i].drops <= Before(l, snapshots, i).drops
  }

  lemma {:induction false} CleanIsSuccess(l: Loop, snapshots: seq<Snapshot>)
    requires l.Valid() && l.initialized && Clean(l, snapshots)
    ensures Feed(l, snapshots).rate == Run(l.rate, Successes(|snapshots|))
  {
    hide Controller.OnSuccess, Controller.OnDrops;
    if snapshots != [] {
      var init, last := snapshots[..|snapshots| - 1], |snapshots| - 1;
      forall i | 0 <= i < |init|
        ensures init[i] == snapshots[i] && Before(l, init, i) == Before(l, snapshots, i)
      {
      }
      CleanIsSuccess(l, init);
      assert Successes(|snapshots|)[..last] == Successes(last);
    }
  }

  lemma {:induction false} DroppingIsDrops(l: Loop, snapshots: seq<Snapshot>)
    requires l.Valid() && l.initialized && Dropping(l, snapshots)
    ensures Feed(l, snapshots).rate == Run(l.rate, AllDrops(|snapshots|))
  {
    hide Controller.OnSuccess, Controller.OnDrops;
    if snapshots != [] {
      var init, last := snapshots[..|snapshots| - 1], |snapshots| - 1;
      forall i | 0 <= i < |init|
        ensures init[i] == snapshots[i] && Before(l, init, i) == Before(l, snapshots, i)
      {
      }
      DroppingIsDrops(l, init);
      assert AllDrops(|snapshots|)[..last] == AllDrops(last);
    }
  }

  /** Two hundred snapshots or more with traffic and no new drops bring the rate to the ceiling. */
  lemma CleanTrafficReachesCeiling(l: Loop, snapshots: seq<Snapshot>)
    requires l.Valid() && l.initialized && Clean(l, snapshots) && |snapshots| >= 200
    ensures Feed(l, snapshots).rate.current == l.rate.max
  {
    CleanIsSuccess(l, snapshots);
    ManySuccessesReachCeiling(l.rate, |snapshots|);
  }

  /** n snapshots with new drops bring it to the floor or to (3/4)^n of what it was, and not below. */
  lemma DropsSlowDown(l: Loop, snapshots: seq<Snapshot>)
    requires l.Valid() && l.initialized && Dropping(l, snapshots)
    ensures var n, after := |snapshots|, Feed(l, snapshots).rate.current;
            && (after == l.rate.min || Power(4, n) * after <= Power(3, n) * l.rate.current)
            && Power(4, n) * (after + 3) >= Power(3, n) * (l.rate.current + 3)
  {
    hide Power, Run, Feed, AllDrops;
    DroppingIsDrops(l, snapshots);
    DropsDecayGeometrically(l.rate, |snapshots|);
    DropsDecayNoFaster(l.rate, |snapshots|);
  }

  /** With no traffic nothing changes. */
  lemma {:induction false} QuietKeepsRate(l: Loop, snapshots: seq<Snapshot>)
    requires l.Valid() && l.initialized && Quiet(l, snapshots)
    ensures Feed(l, snapshots).rate == l.rate
  {
    hide Controller.OnSuccess, Controller.OnDrops;
    if snapshots != [] {
      var init := snapshots[..|snapshots| - 1];
      forall i | 0 <= i < |init|
        ensures init[i] == snapshots[i] && Before(l, init, i) == Before(l, snapshots, i)
      {
      }
      QuietKeepsRate(l, init);
    }
  }
}
