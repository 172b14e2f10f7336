/** The Blackrock permutation of `[0, range)`: a balanced Feistel network with cycle walking. */
module Blackrock {
  import opened Words
  import CycleWalk
  import PairOrder

  datatype Halves = Halves(left: u64, right: u64)

  /** `roundFunction(value, round)` is the keyed mixer; nothing below depends on what it computes. */
  datatype Permutation = Permutation(
    range: u64, halfBits: nat, halfMask: u64, rounds: nat, roundFunction: (u64, nat) -> u64)
  {
    ghost predicate Valid() {
      && 1 <= range <= Domain()
      && halfBits <= 32
      && halfMask == Side() - 1
    }

    ghost function Side(): nat { Pow2(halfBits) }

    ghost function Domain(): nat { Pow2(halfBits + halfBits) }

    // ---- One pass through the network ----

    function Split(input: u64): Halves {
      Halves(Shr(input, halfBits), And64(input, halfMask))
    }

    function Join(h: Halves): u64 {
      Or64(Shl64(h.left, halfBits), h.right)
    }

    function Round(h: Halves, round: nat): Halves {
      Halves(h.right, And64(Xor64(h.left, roundFunction(h.right, round)), halfMask))
    }

    function UndoRound(h: Halves, round: nat): Halves {
      Halves(And64(Xor64(h.right, roundFunction(h.left, round)), halfMask), h.left)
    }

    /** Rounds 0, 1, ..., n - 1 in this order. */
    function Rounds(h: Halves, n: nat): Halves {
      if n == 0 then h else Round(Rounds(h, n - 1), n - 1)
    }

    /** Rounds n - 1, ..., 1, 0 undone in this order. */
    function UndoRounds(h: Halves, n: nat): Halves
      decreases n
    {
      if n == 0 then h else UndoRounds(UndoRound(h, n - 1), n - 1)
    }

    function FeistelOf(input: u64): u64 { Join(Rounds(Split(input), rounds)) }

    function FeistelInverseOf(input: u64): u64 { Join(UndoRounds(Split(input), rounds)) }

    method Feistel(input: u64) returns (output: u64)
      ensures output == FeistelOf(input)
    {
      var left: u64 := Shr(input, halfBits);
      var right: u64 := And64(input, halfMask);
      for round := 0 to rounds
        invariant Halves(left, right) == Rounds(Split(input), round)
      {
        var newRight := Xor64(left, roundFunction(right, round));
        left := right;
        right := And64(newRight, halfMask);
      }
      output := Or64(Shl64(left, halfBits), right);
    }

    method FeistelInverse(input: u64) returns (output: u64)
      ensures output == FeistelInverseOf(input)
    {
      var left: u64 := Shr(input, halfBits);
      var right: u64 := And64(input, halfMask);
      for round := rounds downto 0
        invariant UndoRounds(Halves(left, right), round) == UndoRounds(Split(input), rounds)
      {
        var newLeft := Xor64(right, roundFunction(left, round));
        right := left;
        left := And64(newLeft, halfMask);
      }
      output := Or64(Shl64(left, halfBits), right);
    }

    // ---- The network is a bijection of its domain ----

    ghost predicate Fits(h: Halves) { h.left < Side() && h.right < Side() }

    lemma SplitFits(x: u64)
      requires Valid() && x < Domain()
      ensures Fits(Split(x)) && Join(Split(x)) == x
    {
      ShrBound(x, halfBits, halfBits);
      AndBound(x, halfMask);
      ShlFits(Split(x).left, halfBits, halfBits);
      JoinSplit(x, halfBits);
    }

    lemma JoinBound(h: Halves)
      requires Valid() && Fits(h)
      ensures Or(Shl(h.left, halfBits), h.right) < Domain()
    {
      ShlBound(h.left, halfBits, halfBits);
      Pow2Monotone(halfBits, halfBits + halfBits);
      OrBound(Shl(h.left, halfBits), h.right, halfBits + halfBits);
    }

    lemma JoinFits(h: Halves)
      requires Valid() && Fits(h)
      ensures Join(h) < Domain() && Split(Join(h)) == h
    {
      ShlFits(h.left, halfBits, halfBits);
      JoinBound(h);
      SplitJoined(h.left, h.right, halfBits);
    }

    /** Whatever word the round function gives, masked xor with it is its own inverse. */
    lemma RoundInverse(h: Halves, round: nat)
      requires Valid() && Fits(h)
      ensures Fits(Round(h, round)) && UndoRound(Round(h, round), round) == h
      ensures Fits(UndoRound(h, round)) && Round(UndoRound(h, round), round) == h
    {
      var forth, back := roundFunction(h.right, round), roundFunction(h.left, round);
      MaskedXorTwice(h.left, forth, halfMask);
      MaskedXorTwice(h.right, back, halfMask);
      MaskKeeps(h.left, halfBits);
      MaskKeeps(h.right, halfBits);
      AndBound(Xor64(h.left, forth), halfMask);
      AndBound(Xor64(h.right, back), halfMask);
    }

    lemma {:induction false} RoundsInverse(h: Halves, n: nat)
      requires Valid() && Fits(h)
      ensures Fits(Rounds(h, n)) && UndoRounds(Rounds(h, n), n) == h
      decreases n
    {
      if n > 0 {
        RoundsInverse(h, n - 1);
        RoundInverse(Rounds(h, n - 1), n - 1);
      }
    }

    lemma {:induction false} UndoRoundsInverse(h: Halves, n: nat)
      requires Valid() && Fits(h)
      ensures Fits(UndoRounds(h, n)) && Rounds(UndoRounds(h, n), n) == h
      decreases n
    {
      if n > 0 {
        RoundInverse(h, n - 1);
        UndoRoundsInverse(UndoRound(h, n - 1), n - 1);
      }
    }

    /** For any round function and any number of rounds, the two passes are mutually inverse
        and stay inside the domain. */
    lemma FeistelBijective(x: u64)
      requires Valid() && x < Domain()
      ensures FeistelOf(x) < Domain() && FeistelInverseOf(FeistelOf(x)) == x
      ensures FeistelInverseOf(x) < Domain() && FeistelOf(FeistelInverseOf(x)) == x
    {
      SplitFits(x);
      RoundsInverse(Split(x), rounds);
      UndoRoundsInverse(Split(x), rounds);
      JoinFits(Rounds(Split(x), rounds));
      JoinFits(UndoRounds(Split(x), rounds));
    }

    // ---- Cycle walking ----

    lemma PassesAreInverses()
      requires Valid()
      ensures CycleWalk.Inverses(FeistelOf, FeistelInverseOf, Domain())
      ensures CycleWalk.Inverses(FeistelInverseOf, FeistelOf, Domain())
    {
      forall x: u64 | x < Domain() {
        FeistelBijective(x);
      }
    }

    /** Where `shuffle` sends an index. */
    ghost function Shuffled(index: u64): (permuted: u64)
      requires Valid() && index < range
      ensures permuted < range
    {
      PassesAreInverses();
      CycleWalk.Image(FeistelOf, FeistelInverseOf, Domain(), range, index)
    }

    /** Where `unshuffle` sends an output. */
    ghost function Unshuffled(permuted: u64): (index: u64)
      requires Valid() && permuted < range
      ensures index < range
    {
      PassesAreInverses();
      CycleWalk.Image(FeistelInverseOf, FeistelOf, Domain(), range, permuted)
    }

    method Shuffle(start: u64) returns (permuted: u64)
      requires Valid() && start < range
      ensures permuted == Shuffled(start) < range
    {
      PassesAreInverses();
      ghost var landing := CycleWalk.Landing(FeistelOf, FeistelInverseOf, Domain(), range, start);
      var index := start;
      ghost var steps := 0;
      while true
        invariant 0 <= steps < landing
        invariant index == CycleWalk.Walk(FeistelOf, start, steps)
        decreases landing - steps
      {
        CycleWalk.ImageReached(FeistelOf, FeistelInverseOf, Domain(), range, start, steps);
        permuted := Feistel(index);
        if permuted < range {
          return;
        }
        index := permuted;
        steps := steps + 1;
      }
    }

    method Unshuffle(start: u64) returns (index: u64)
      requires Valid() && start < range
      ensures index == Unshuffled(start) < range
    {
      PassesAreInverses();
      ghost var landing := CycleWalk.Landing(FeistelInverseOf, FeistelOf, Domain(), range, start);
      var permuted := start;
      ghost var steps := 0;
      while true
        invariant 0 <= steps < landing
        invariant permuted == CycleWalk.Walk(FeistelInverseOf, start, steps)
        decreases landing - steps
      {
        CycleWalk.ImageReached(FeistelInverseOf, FeistelOf, Domain(), range, start, steps);
        index := FeistelInverse(permuted);
        if index < range {
          return;
        }
        permuted := index;
        steps := steps + 1;
      }
    }

    /** `unshuffle(shuffle(x)) == x` and `shuffle(unshuffle(x)) == x`: shuffling is a bijection
        of `[0, range)`. */
    lemma RoundTrip(x: u64)
      requires Valid() && x < range
      ensures Unshuffled(Shuffled(x)) == x
      ensures Shuffled(Unshuffled(x)) == x
    {
      PassesAreInverses();
      CycleWalk.ImageInverse(FeistelOf, FeistelInverseOf, Domain(), range, x);
      CycleWalk.ImageInverse(FeistelInverseOf, FeistelOf, Domain(), range, x);
    }

    /** Shuffling as a total map, the identity outside the range. */
    ghost function ShuffleMap(x: nat): nat {
      if Valid() && x < range then Shuffled(x) else x
    }

    ghost function UnshuffleMap(x: nat): nat {
      if Valid() && x < range then Unshuffled(x) else x
    }

    lemma MapsPermute()
      requires Valid()
      ensures PairOrder.Permutes(ShuffleMap, UnshuffleMap, range)
    {
      forall x: nat | x < range {
        RoundTrip(x);
      }
    }
  }

  // ---- Construction ----

  function HalfBits(range: u64): (halfBits: nat)
    requires range > 0
  {
    (BitLength(range - 1) + 1) / 2
  }

  /** The split chosen for a range covers it, for every range from 1 to 2^64 - 1, and the
      domain has fewer than four points for each point of the range. */
  lemma HalfBitsCover(range: u64)
    requires range > 0
    ensures HalfBits(range) <= 32
    ensures range <= Pow2(HalfBits(range) + HalfBits(range))
    ensures range > 1 ==> Pow2(HalfBits(range) + HalfBits(range)) <= 4 * (range - 1)
  {
    var total, half := BitLength(range - 1), HalfBits(range);
    BitLengthCovers(range - 1);
    BitLengthFits(range - 1);
    Pow2Monotone(total, half + half);
    if range > 1 {
      BitLengthTight(range - 1);
      Pow2Monotone(half + half, total + 1);
    }
  }

  /** The mixer: multiply, add the key and the round number, fold, multiply, fold. */
  function Mix(seed: u64, value: u64, round: nat): u64 {
    var m := U64_MAX + 1;
    var h1: u64 := value * 0x9E37_79B9_7F4A_7C15 % m;
    var h2: u64 := (h1 + seed) % m;
    var h3: u64 := (h2 + round) % m;
    var h4 := Xor64(h3, Shr(h3, 17));
    var h5: u64 := h4 * 0xBF58_476D_1CE4_E5B9 % m;
    Xor64(h5, Shr(h5, 31))
  }

  function New(range: u64, seed: u64): (p: Permutation)
    requires range > 0
    ensures p.Valid() && p.range == range && p.rounds == 6
  {
    HalfBitsCover(range);
    Pow2Fits(HalfBits(range));
    var halfBits := HalfBits(range);
    Permutation(range, halfBits, Pow2(halfBits) - 1, 6, (value, round) => Mix(seed, value, round))
  }
}
