/** Walking the cycles of a permutation of `[0, domain)` until they come back inside `[0, range)`. */
module CycleWalk {
  import opened Words

  type Map = u64 -> u64

  /** `f` and `g` undo each other on `[0, domain)` and stay inside it. */
  ghost predicate Inverses(f: Map, g: Map, domain: nat) {
    forall x: u64 :: x < domain ==> f(x) < domain && g(x) < domain && g(f(x)) == x && f(g(x)) == x
  }

  function Walk(f: Map, x: u64, n: nat): u64 {
    if n == 0 then x else f(Walk(f, x, n - 1))
  }

  /** The walk from `x` is back inside the range after n steps, for the first time. */
  ghost predicate Lands(f: Map, range: nat, x: u64, n: nat) {
    && n > 0
    && Walk(f, x, n) < range
    && forall i :: 0 < i < n ==> Walk(f, x, i) >= range
  }

  lemma {:induction false} WalkInDomain(f: Map, g: Map, domain: nat, x: u64, n: nat)
    requires Inverses(f, g, domain) && x < domain
    ensures Walk(f, x, n) < domain
  {
    if n > 0 {
      WalkInDomain(f, g, domain, x, n - 1);
    }
  }

  /** Walking back from the end of a walk retraces it. */
  lemma {:induction false} WalkBack(f: Map, g: Map, domain: nat, x: u64, n: nat, i: nat)
    requires Inverses(f, g, domain) && x < domain && i <= n
    ensures Walk(g, Walk(f, x, n), i) == Walk(f, x, n - i)
  {
    if i > 0 {
      WalkBack(f, g, domain, x, n, i - 1);
      WalkInDomain(f, g, domain, x, n - i);
    }
  }

  /** A walk that is still outside the range has met no point twice: meeting one again
      would mean that it had already passed its starting point, which is inside. */
  lemma NoRepeat(f: Map, g: Map, domain: nat, range: nat, x: u64, i: nat, j: nat)
    requires Inverses(f, g, domain) && x < range <= domain
    requires 0 < i < j
    requires forall k :: 0 < k < j ==> Walk(f, x, k) >= range
    ensures Walk(f, x, i) != Walk(f, x, j)
  {
    WalkBack(f, g, domain, x, i, i);
    WalkBack(f, g, domain, x, j, i);
  }

  ghost predicate MetWithin(f: Map, x: u64, n: nat, y: u64) {
    exists k :: 0 < k <= n && Walk(f, x, k) == y
  }

  /** The points outside the range met in n steps are n different points of the domain. */
  lemma {:induction false} PointsMet(f: Map, g: Map, domain: nat, range: nat, x: u64, n: nat) returns (met: set<u64>)
    requires Inverses(f, g, domain) && x < range <= domain
    requires forall k :: 0 < k <= n ==> Walk(f, x, k) >= range
    ensures |met| == n
    ensures forall y :: y in met ==> range <= y < domain
    ensures forall y :: y in met ==> MetWithin(f, x, n, y)
  {
    if n == 0 {
      met := {};
    } else {
      var before := PointsMet(f, g, domain, range, x, n - 1);
      var y := Walk(f, x, n);
      WalkInDomain(f, g, domain, x, n);
      if y in before {
        var k :| 0 < k <= n - 1 && Walk(f, x, k) == y;
        NoRepeat(f, g, domain, range, x, k, n);
        assert false;
      }
      met := before + {y};
      forall z | z in met
        ensures MetWithin(f, x, n, z)
      {
        if z != y {
          assert MetWithin(f, x, n - 1, z);
        }
      }
    }
  }

  /** Every walk from inside the range lands: only `domain - range` points lie outside. */
  lemma {:induction false} FindLanding(f: Map, g: Map, domain: nat, range: nat, x: u64, n: nat)
    requires Inverses(f, g, domain) && x < range <= domain
    requires forall k :: 0 < k <= n ==> Walk(f, x, k) >= range
    ensures exists landing :: Lands(f, range, x, landing)
    decreases domain - range - n
  {
    if Walk(f, x, n + 1) < range {
      assert Lands(f, range, x, n + 1);
    } else {
      var met := PointsMet(f, g, domain, range, x, n + 1);
      BoundedSetSize(met, range, domain);
      FindLanding(f, g, domain, range, x, n + 1);
    }
  }

  lemma {:induction false} BoundedSetSize(s: set<u64>, lo: nat, hi: nat)
    requires lo <= hi
    requires forall x :: x in s ==> lo <= x < hi
    ensures |s| <= hi - lo
    decreases hi - lo
  {
    if lo == hi {
      assert s == {};
    } else {
      var rest := s - {hi - 1};
      BoundedSetSize(rest, lo, hi - 1);
      assert s <= rest + {hi - 1};
    }
  }

  /** The number of steps a walk takes to land. */
  ghost function Landing(f: Map, g: Map, domain: nat, range: nat, x: u64): (n: nat)
    requires Inverses(f, g, domain) && x < range <= domain
    ensures Lands(f, range, x, n)
  {
    FindLanding(f, g, domain, range, x, 0);
    var n :| Lands(f, range, x, n);
    n
  }

  /** Where the walk lands. */
  ghost function Image(f: Map, g: Map, domain: nat, range: nat, x: u64): (y: u64)
    requires Inverses(f, g, domain) && x < range <= domain
    ensures y < range
  {
    Walk(f, x, Landing(f, g, domain, range, x))
  }

  lemma LandsOnce(f: Map, range: nat, x: u64, m: nat, n: nat)
    requires Lands(f, range, x, m) && Lands(f, range, x, n)
    ensures m == n
  {
  }

  /** One more step of a walk that has stayed outside either stays outside or reaches the image. */
  lemma ImageReached(f: Map, g: Map, domain: nat, range: nat, x: u64, steps: nat)
    requires Inverses(f, g, domain) && x < range <= domain
    requires steps < Landing(f, g, domain, range, x)
    ensures f(Walk(f, x, steps)) < range ==> f(Walk(f, x, steps)) == Image(f, g, domain, range, x)
    ensures f(Walk(f, x, steps)) >= range ==> steps + 1 < Landing(f, g, domain, range, x)
  {
    assert f(Walk(f, x, steps)) == Walk(f, x, steps + 1);
  }

  /** Walking the other way from the landing point lands on the starting point. */
  lemma ImageInverse(f: Map, g: Map, domain: nat, range: nat, x: u64)
    requires Inverses(f, g, domain) && x < range <= domain
    ensures Image(g, f, domain, range, Image(f, g, domain, range, x)) == x
  {
    var n := Landing(f, g, domain, range, x);
    var y := Walk(f, x, n);
    forall i: nat | i <= n
      ensures Walk(g, y, i) == Walk(f, x, n - i)
    {
      WalkBack(f, g, domain, x, n, i);
    }
    assert Lands(g, range, y, n);
    LandsOnce(g, range, y, n, Landing(g, f, domain, range, y));
  }

  /** An index in `[0, range)` lands exactly once. */
  lemma ImageInjective(f: Map, g: Map, domain: nat, range: nat, x: u64, y: u64)
    requires Inverses(f, g, domain) && x < range <= domain && y < range
    requires Image(f, g, domain, range, x) == Image(f, g, domain, range, y)
    ensures x == y
  {
    ImageInverse(f, g, domain, range, x);
    ImageInverse(f, g, domain, range, y);
  }
}
