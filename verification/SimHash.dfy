/** The 64-bit SimHash of the white-space separated tokens of a text. The token hash is any function. */
module SimHash {
  import opened Words
  import opened Text

  type Hash = string -> u64

  /** `(h >> bit) & 1 == 1` */
  predicate HasBit(h: nat, bit: nat) { And(Shr(h, bit), 1) == 1 }

  /** How many token hashes have a bit. */
  function Ones(hash: Hash, tokens: seq<string>, bit: nat): (n: nat)
    ensures n <= |tokens|
  {
    if tokens == [] then 0
    else
      var last := |tokens| - 1;
      Ones(hash, tokens[..last], bit) + (if HasBit(hash(tokens[last]), bit) then 1 else 0)
  }

  /** The balance of hashes with and without a bit. */
  function Weight(hash: Hash, tokens: seq<string>, bit: nat): int {
    2 * Ones(hash, tokens, bit) - |tokens|
  }

  /** Bit by bit, the value is the strict majority vote of the token hashes. */
  ghost predicate IsMajority(hash: Hash, tokens: seq<string>, value: nat) {
    && value < Pow2(64)
    && forall bit: nat :: bit < 64 ==> (HasBit(value, bit) <==> 2 * Ones(hash, tokens, bit) > |tokens|)
  }

  method CalculateFuzzyHash(hash: Hash, data: string) returns (value: u64)
    ensures SplitWhitespace(data) == [] ==> value == hash(data)
    ensures SplitWhitespace(data) != [] ==> IsMajority(hash, SplitWhitespace(data), value)
  {
    hide HasBit, SplitWhitespace;
    var tokens := SplitWhitespace(data);
    if tokens == [] {
      return hash(data);
    }
    var weights := Weigh(hash, tokens);
    value := Vote(weights);
    forall bit: nat | bit < 64
      ensures HasBit(value, bit) <==> 2 * Ones(hash, tokens, bit) > |tokens|
    {
      assert weights[bit] == Weight(hash, tokens, bit);
    }
  }

  method Weigh(hash: Hash, tokens: seq<string>) returns (weights: array<int>)
    ensures fresh(weights) && weights.Length == 64
    ensures forall bit :: 0 <= bit < 64 ==> weights[bit] == Weight(hash, tokens, bit)
  {
    hide HasBit;
    weights := new int[64](_ => 0);
    for i := 0 to |tokens|
      invariant forall bit :: 0 <= bit < 64 ==> weights[bit] == Weight(hash, tokens[..i], bit)
    {
      var h := hash(tokens[i]);
      for bit := 0 to 64
        invariant forall b :: 0 <= b < bit ==> weights[b] == Weight(hash, tokens[..i + 1], b)
        invariant forall b :: bit <= b < 64 ==> weights[b] == Weight(hash, tokens[..i], b)
      {
        WeightStep(hash, tokens[..i + 1], bit);
        assert tokens[..i + 1][..i] == tokens[..i];
        if HasBit(h, bit) {
          weights[bit] := weights[bit] + 1;
        } else {
          weights[bit] := weights[bit] - 1;
        }
      }
    }
    assert tokens[..|tokens|] == tokens;
  }

  /** A balance stays within the number of tokens, so below 2^31 tokens it never leaves 32 bits. */
  lemma WeightFits(hash: Hash, tokens: seq<string>, bit: nat)
    ensures -|tokens| <= Weight(hash, tokens, bit) <= |tokens|
    ensures |tokens| <= 0x7FFF_FFFF ==> -0x8000_0000 <= Weight(hash, tokens, bit) <= 0x7FFF_FFFF
  {
    hide Ones;
  }

  lemma WeightStep(hash: Hash, tokens: seq<string>, bit: nat)
    requires tokens != []
    ensures var last := |tokens| - 1;
            Weight(hash, tokens, bit)
            == Weight(hash, tokens[..last], bit) + (if HasBit(hash(tokens[last]), bit) then 1 else -1)
  {
    hide HasBit;
  }

  method Vote(weights: array<int>) returns (value: u64)
    requires weights.Length == 64
    ensures value < Pow2(64)
    ensures forall bit: nat :: bit < 64 ==> (HasBit(value, bit) <==> weights[bit] > 0)
  {
    hide HasBit;
    value := 0;
    NoBits(0);
    for bit := 0 to 64
      invariant value < Pow2(bit)
      invariant forall b: nat :: b < bit ==> (HasBit(value, b) <==> weights[b] > 0)
    {
      SetBit(value, bit);
      Pow2Fits(bit + 1);
      if weights[bit] > 0 {
        value := Or(value, Shl(1, bit));
      }
    }
  }

  // ---- Bits ----

  lemma HasBitStep(h: nat, bit: nat)
    ensures HasBit(h, 0) <==> h % 2 == 1
    ensures bit > 0 ==> (HasBit(h, bit) <==> HasBit(h / 2, bit - 1))
  {
    AndHalf(Shr(h, 0), 1);
  }

  lemma {:induction false} NoBits(bit: nat)
    ensures !HasBit(0, bit)
  {
    hide HasBit;
    HasBitStep(0, bit);
    if bit > 0 {
      NoBits(bit - 1);
    }
  }

  lemma {:induction false} OrBits(a: nat, b: nat, bit: nat)
    ensures HasBit(Or(a, b), bit) <==> HasBit(a, bit) || HasBit(b, bit)
    decreases bit
  {
    hide HasBit, Or;
    HasBitStep(a, bit);
    HasBitStep(b, bit);
    HasBitStep(Or(a, b), bit);
    OrHalf(a, b);
    if bit > 0 {
      OrBits(a / 2, b / 2, bit - 1);
    }
  }

  lemma {:induction false} OneBit(at: nat, bit: nat)
    ensures HasBit(Shl(1, at), bit) <==> bit == at
  {
    hide HasBit;
    HasBitStep(Shl(1, at), bit);
    if bit > 0 {
      if at > 0 {
        OneBit(at - 1, bit - 1);
      } else {
        NoBits(bit - 1);
      }
    }
  }

  lemma {:induction false} HighBitsClear(a: nat, k: nat, bit: nat)
    requires a < Pow2(k) && k <= bit
    ensures !HasBit(a, bit)
    decreases bit
  {
    hide HasBit;
    HasBitStep(a, bit);
    if a == 0 {
      NoBits(bit);
    } else {
      HighBitsClear(a / 2, k - 1, bit - 1);
    }
  }

  /** Setting the next bit of a value that has only lower ones, or leaving it clear. */
  lemma SetBit(value: nat, at: nat)
    requires value < Pow2(at)
    ensures Or(value, Shl(1, at)) < Pow2(at + 1)
    ensures forall b: nat :: HasBit(Or(value, Shl(1, at)), b) <==> HasBit(value, b) || b == at
    ensures !HasBit(value, at)
  {
    hide HasBit, Or, Shl;
    ShlBound(1, 1, at);
    Pow2Monotone(at, at + 1);
    OrBound(value, Shl(1, at), at + 1);
    HighBitsClear(value, at, at);
    forall b: nat
      ensures HasBit(Or(value, Shl(1, at)), b) <==> HasBit(value, b) || b == at
    {
      OrBits(value, Shl(1, at), b);
      OneBit(at, b);
    }
  }

  /** A word is determined by its bits. */
  lemma {:induction false} BitsDetermine(a: nat, b: nat, k: nat)
    requires a < Pow2(k) && b < Pow2(k)
    requires forall bit: nat :: bit < k ==> (HasBit(a, bit) <==> HasBit(b, bit))
    ensures a == b
    decreases k
  {
    hide HasBit;
    if k > 0 {
      HasBitStep(a, 0);
      HasBitStep(b, 0);
      forall bit: nat | bit < k - 1
        ensures HasBit(a / 2, bit) <==> HasBit(b / 2, bit)
      {
        HasBitStep(a, bit + 1);
        HasBitStep(b, bit + 1);
      }
      BitsDetermine(a / 2, b / 2, k - 1);
    }
  }

  // ---- Properties of the hash ----

  lemma {:induction false} OnesAppend(hash: Hash, a: seq<string>, b: seq<string>, bit: nat)
    ensures Ones(hash, a + b, bit) == Ones(hash, a, bit) + Ones(hash, b, bit)
  {
    hide HasBit;
    if b == [] {
      assert a + b == a;
    } else {
      OnesAppend(hash, a, b[..|b| - 1], bit);
      assert (a + b)[..|a + b| - 1] == a + b[..|b| - 1];
    }
  }

  /** The votes do not depend on the order of the tokens. */
  lemma {:induction false} OnesPermuted(hash: Hash, a: seq<string>, b: seq<string>, bit: nat)
    requires multiset(a) == multiset(b)
    ensures Ones(hash, a, bit) == Ones(hash, b, bit)
    decreases |a|
  {
    hide HasBit, Ones;
    if a == [] {
      assert |multiset(b)| == |b|;
    } else {
      var x := a[0];
      assert x in multiset(b);
      var i :| 0 <= i < |b| && b[i] == x;
      var rest := b[..i] + b[i + 1..];
      assert a == [x] + a[1..];
      assert b == b[..i] + ([x] + b[i + 1..]);
      assert multiset(a[1..]) == multiset(a) - multiset{x};
      assert multiset(rest) == multiset(b) - multiset{x};
      OnesPermuted(hash, a[1..], rest, bit);
      OnesAppend(hash, [x], a[1..], bit);
      OnesAppend(hash, b[..i], [x] + b[i + 1..], bit);
      OnesAppend(hash, [x], b[i + 1..], bit);
      OnesAppend(hash, b[..i], b[i + 1..], bit);
    }
  }

  lemma PermutationInvariant(hash: Hash, a: seq<string>, b: seq<string>, x: nat, y: nat)
    requires multiset(a) == multiset(b)
    requires IsMajority(hash, a, x) && IsMajority(hash, b, y)
    ensures x == y
  {
    hide HasBit, Ones;
    assert |a| == |multiset(a)| == |multiset(b)| == |b|;
    forall bit: nat | bit < 64
      ensures HasBit(x, bit) <==> HasBit(y, bit)
    {
      OnesPermuted(hash, a, b, bit);
    }
    BitsDetermine(x, y, 64);
  }

  /** One more token, wherever it stands, flips only bits whose balance was 0 or 1. */
  lemma OneTokenFlips(hash: Hash, before: seq<string>, token: string, after: seq<string>, x: nat, y: nat, bit: nat)
    requires IsMajority(hash, before + after, x) && IsMajority(hash, before + [token] + after, y)
    requires bit < 64 && HasBit(x, bit) != HasBit(y, bit)
    ensures Weight(hash, before + after, bit) == (if HasBit(x, bit) then 1 else 0)
    ensures HasBit(hash(token), bit) == HasBit(y, bit)
  {
    hide HasBit, Ones;
    OnesAppend(hash, before, after, bit);
    OnesAppend(hash, before + [token], after, bit);
    OnesAppend(hash, before, [token], bit);
    OneVote(hash, token, bit);
  }

  lemma OneVote(hash: Hash, token: string, bit: nat)
    ensures Ones(hash, [token], bit) == if HasBit(hash(token), bit) then 1 else 0
  {
    hide HasBit;
  }
}
