/** Orders of the (IP, port) pairs induced by a bijection of their flat indices. */
module PairOrder {
  type Pair = (nat, nat)
  type Order = nat -> nat

  /** `f` permutes `[0, total)` and `g` is its inverse. */
  ghost predicate Permutes(f: Order, g: Order, total: nat) {
    forall x: nat :: x < total ==> f(x) < total && g(x) < total && g(f(x)) == x && f(g(x)) == x
  }

  function Unflatten(flat: nat, numPorts: nat): Pair
    requires numPorts > 0
  {
    (flat / numPorts, flat % numPorts)
  }

  function Flatten(pair: Pair, numPorts: nat): nat { pair.0 * numPorts + pair.1 }

  lemma FlattenUnflatten(flat: nat, numPorts: nat)
    requires numPorts > 0
    ensures Flatten(Unflatten(flat, numPorts), numPorts) == flat
    ensures Unflatten(flat, numPorts).1 < numPorts
  {
  }

  lemma UnflattenFlatten(pair: Pair, numPorts: nat)
    requires pair.1 < numPorts
    ensures Unflatten(Flatten(pair, numPorts), numPorts) == pair
  {
    var x := Flatten(pair, numPorts);
    var e: int := x / numPorts - pair.0;
    assert e * numPorts == pair.1 - x % numPorts;
    assert e >= 1 ==> e * numPorts >= numPorts;
    assert e <= -1 ==> e * numPorts + numPorts <= 0;
  }

  lemma FlattenBound(pair: Pair, numIps: nat, numPorts: nat)
    requires pair.0 < numIps && pair.1 < numPorts
    ensures Flatten(pair, numPorts) < numIps * numPorts
  {
    assert (pair.0 + 1) * numPorts <= numIps * numPorts;
  }

  lemma UnflattenBound(flat: nat, numIps: nat, numPorts: nat)
    requires flat < numIps * numPorts && numPorts > 0
    ensures Unflatten(flat, numPorts).0 < numIps
  {
    var q := flat / numPorts;
    assert q >= numIps ==> q * numPorts >= numIps * numPorts;
  }

  /** The pair that comes up at an index of the order: IP index, then port index. */
  function PairAt(f: Order, numPorts: nat, index: nat): Pair
    requires numPorts > 0
  {
    Unflatten(f(index), numPorts)
  }

  /** A pair comes up at one index and no other. */
  lemma PairOnce(f: Order, g: Order, total: nat, numPorts: nat, pair: Pair, index: nat)
    requires Permutes(f, g, total) && pair.1 < numPorts && Flatten(pair, numPorts) < total
    requires index < total
    ensures PairAt(f, numPorts, index) == pair <==> index == g(Flatten(pair, numPorts))
  {
    UnflattenFlatten(pair, numPorts);
    FlattenUnflatten(f(index), numPorts);
    assert f(g(Flatten(pair, numPorts))) == Flatten(pair, numPorts);
    assert g(f(index)) == index;
  }

  /** Different indices give different pairs. */
  lemma PairsDiffer(f: Order, g: Order, total: nat, numPorts: nat, j: nat, k: nat)
    requires Permutes(f, g, total) && numPorts > 0 && j < total && k < total && j != k
    ensures PairAt(f, numPorts, j) != PairAt(f, numPorts, k)
  {
    FlattenUnflatten(f(j), numPorts);
    FlattenUnflatten(f(k), numPorts);
    assert g(f(j)) == j && g(f(k)) == k;
  }

  /** The order visits every pair exactly when it is as long as the product: when the total has
      been cut short of the product, the pair at the cut is missed. */
  lemma CompleteIffNotCut(f: Order, g: Order, total: nat, numIps: nat, numPorts: nat)
    requires Permutes(f, g, total) && total <= numIps * numPorts
    ensures (forall pair: Pair :: pair.0 < numIps && pair.1 < numPorts ==> Visits(f, total, numPorts, pair))
            <==> total == numIps * numPorts
  {
    if total == numIps * numPorts {
      forall pair: Pair | pair.0 < numIps && pair.1 < numPorts
        ensures Visits(f, total, numPorts, pair)
      {
        FlattenBound(pair, numIps, numPorts);
        PairOnce(f, g, total, numPorts, pair, g(Flatten(pair, numPorts)));
      }
    } else {
      assert numPorts > 0;
      var missed := Unflatten(total, numPorts);
      UnflattenBound(total, numIps, numPorts);
      FlattenUnflatten(total, numPorts);
      forall index: nat | index < total
        ensures PairAt(f, numPorts, index) != missed
      {
        FlattenUnflatten(f(index), numPorts);
      }
      assert !Visits(f, total, numPorts, missed);
    }
  }

  /** The order visits exactly the pairs whose flat index it has not been cut before. */
  lemma VisitsIff(f: Order, g: Order, total: nat, numPorts: nat, pair: Pair)
    requires Permutes(f, g, total) && numPorts > 0
    ensures Visits(f, total, numPorts, pair) <==> pair.1 < numPorts && Flatten(pair, numPorts) < total
  {
    hide Unflatten, Flatten;
    if Visits(f, total, numPorts, pair) {
      var index: nat :| index < total && PairAt(f, numPorts, index) == pair;
      FlattenUnflatten(f(index), numPorts);
    } else if pair.1 < numPorts && Flatten(pair, numPorts) < total {
      PairOnce(f, g, total, numPorts, pair, g(Flatten(pair, numPorts)));
    }
  }

  ghost predicate Visits(f: Order, total: nat, numPorts: nat, pair: Pair) {
    numPorts > 0 && exists index: nat :: index < total && PairAt(f, numPorts, index) == pair
  }

  /** The pairs at indices `from`, `from + 1`, ..., `total - 1`. */
  function PairsFrom(f: Order, total: nat, numPorts: nat, from: nat): (pairs: seq<Pair>)
    requires from < total ==> numPorts > 0
    ensures |pairs| == if from < total then total - from else 0
    ensures forall k :: 0 <= k < |pairs| ==> pairs[k] == PairAt(f, numPorts, from + k)
    decreases total - from
  {
    if from >= total then [] else [PairAt(f, numPorts, from)] + PairsFrom(f, total, numPorts, from + 1)
  }

  /** A whole order has no repeated pair, only pairs in bounds, and (when not cut) every pair. */
  lemma WholeOrder(f: Order, g: Order, total: nat, numIps: nat, numPorts: nat)
    requires Permutes(f, g, total) && total <= numIps * numPorts && (total > 0 ==> numPorts > 0)
    ensures var pairs := PairsFrom(f, total, numPorts, 0);
            && (forall j, k :: 0 <= j < k < |pairs| ==> pairs[j] != pairs[k])
            && (forall k :: 0 <= k < |pairs| ==> pairs[k].0 < numIps && pairs[k].1 < numPorts)
            && ((forall pair: Pair :: pair.0 < numIps && pair.1 < numPorts ==> pair in pairs)
                <==> total == numIps * numPorts)
  {
    var pairs := PairsFrom(f, total, numPorts, 0);
    forall j, k | 0 <= j < k < |pairs|
      ensures pairs[j] != pairs[k]
    {
      PairsDiffer(f, g, total, numPorts, j, k);
    }
    forall k | 0 <= k < |pairs|
      ensures pairs[k].0 < numIps && pairs[k].1 < numPorts
    {
      UnflattenBound(f(k), numIps, numPorts);
      FlattenUnflatten(f(k), numPorts);
    }
    CompleteIffNotCut(f, g, total, numIps, numPorts);
    forall pair: Pair
      ensures pair in pairs <==> Visits(f, total, numPorts, pair)
    {
      if Visits(f, total, numPorts, pair) {
        var index: nat :| index < total && PairAt(f, numPorts, index) == pair;
        assert pairs[index] == pair;
      }
    }
  }
}
