/** The iterator over all (IP, port) pairs in shuffled order. */
module Schedule {
  import opened Words
  import opened Wrappers
  import opened PairOrder
  import Blackrock

  /** The number of probes: the product, saturated to a 64-bit word. */
  function SaturatingTotal(numIps: u64, numPorts: u64): u64 {
    Min(numIps * numPorts, U64_MAX)
  }

  lemma NoPortsNoTotal(numIps: u64, numPorts: u64)
    ensures SaturatingTotal(numIps, numPorts) > 0 ==> numPorts > 0
  {
    assert numIps * 0 == 0;
  }

  class ScanSchedule {
    const permutation: Blackrock.Permutation
    const numPorts: u64
    const total: u64
    var current: u64
    ghost const numIps: u64

    ghost predicate Valid()
      reads this
    {
      && permutation.Valid()
      && total == SaturatingTotal(numIps, numPorts)
      && permutation.range == Max(total, 1)
      && current <= total
      && (total > 0 ==> numPorts > 0)
    }

    /** The pairs still to come, in order. */
    ghost function Remaining(): (pairs: seq<Pair>)
      reads this
      requires Valid()
    {
      PairsFrom(permutation.ShuffleMap, total, numPorts, current)
    }

    constructor (numIps: u64, numPorts: u64, seed: u64)
      ensures Valid() && current == 0
      ensures this.numIps == numIps && this.numPorts == numPorts
    {
      hide SaturatingTotal, Blackrock.New, Blackrock.Permutation.Valid;
      var product := SaturatingTotal(numIps, numPorts);
      NoPortsNoTotal(numIps, numPorts);
      this.permutation := if product > 0 then Blackrock.New(product, seed) else Blackrock.New(1, seed);
      this.numPorts := numPorts;
      this.total := product;
      this.current := 0;
      this.numIps := numIps;
    }

    method Next() returns (item: Option<Pair>)
      requires Valid()
      modifies this`current
      ensures Valid()
      ensures item.None? ==> old(Remaining()) == [] && Remaining() == []
      ensures item.Some? ==> old(Remaining()) == [item.value] + Remaining()
    {
      hide Unflatten, Blackrock.Permutation.Shuffled;
      if current >= total || numPorts == 0 {
        return None;
      }
      var permuted := permutation.Shuffle(current);
      item := Some(Unflatten(permuted, numPorts));
      current := current + 1;
    }

    /** The remaining length is exact at every step. */
    function SizeHint(): (remaining: nat)
      reads this
      requires Valid()
      ensures remaining == |Remaining()|
    {
      Max(total - current, 0)
    }

    /** A schedule that has not started will yield no pair twice and only pairs in bounds, and it
        will yield all of them exactly when the product fits in 64 bits. */
    lemma FreshScheduleIsExact()
      requires Valid() && current == 0
      ensures forall j, k :: 0 <= j < k < |Remaining()| ==> Remaining()[j] != Remaining()[k]
      ensures forall k :: 0 <= k < |Remaining()| ==> Remaining()[k].0 < numIps && Remaining()[k].1 < numPorts
      ensures (forall pair: Pair :: pair.0 < numIps && pair.1 < numPorts ==> pair in Remaining())
              <==> numIps * numPorts <= U64_MAX
    {
      hide Unflatten, Blackrock.Permutation.Shuffled, Blackrock.Permutation.Unshuffled;
      permutation.MapsPermute();
      assert total <= permutation.range;
      WholeOrder(permutation.ShuffleMap, permutation.UnshuffleMap, total, numIps, numPorts);
    }

    /** The pairs it yields are those whose flat index fits below the total. */
    lemma YieldedIff(pair: Pair)
      requires Valid() && current == 0
      ensures pair in Remaining() <==> pair.1 < numPorts && Flatten(pair, numPorts) < total
    {
      hide Unflatten, Flatten, Permutes, Blackrock.Permutation.Shuffled, Blackrock.Permutation.Unshuffled;
      if total > 0 {
        permutation.MapsPermute();
        VisitsIff(permutation.ShuffleMap, permutation.UnshuffleMap, total, numPorts, pair);
        if Visits(permutation.ShuffleMap, total, numPorts, pair) {
          var index: nat :| index < total && PairAt(permutation.ShuffleMap, numPorts, index) == pair;
          assert Remaining()[index] == pair;
        }
      }
    }

    /** 2^32 addresses and as many ports are one pair too many: the last is never yielded. */
    lemma SaturatedScheduleMisses()
      requires Valid() && current == 0 && numIps == 0x1_0000_0000 && numPorts == 0x1_0000_0000
      ensures (0xFFFF_FFFF, 0xFFFF_FFFF) !in Remaining()
    {
      YieldedIff((0xFFFF_FFFF, 0xFFFF_FFFF));
    }
  }
}
