/** Machine integers, and the bitwise operators on them spelled out bit by bit. */
module Words {
  const U32_MAX := 0xFFFF_FFFF
  const U64_MAX := 0xFFFF_FFFF_FFFF_FFFF
  const I64_MAX := 0x7FFF_FFFF_FFFF_FFFF

  type u8 = x: int | 0 <= x <= 0xFF
  type u16 = x: int | 0 <= x <= 0xFFFF
  type u32 = x: int | 0 <= x <= U32_MAX
  type u64 = x: int | 0 <= x <= U64_MAX
  type i64 = x: int | -I64_MAX - 1 <= x <= I64_MAX

  function Min(a: int, b: int): int { if a <= b then a else b }
  function Max(a: int, b: int): int { if a >= b then a else b }

  function Pow2(n: nat): (p: nat)
    ensures p >= 1
  {
    if n == 0 then 1 else 2 * Pow2(n - 1)
  }

  function Xor(a: nat, b: nat): nat {
    if a == 0 && b == 0 then 0
    else 2 * Xor(a / 2, b / 2) + (if a % 2 == b % 2 then 0 else 1)
  }

  function And(a: nat, b: nat): nat {
    if a == 0 || b == 0 then 0
    else 2 * And(a / 2, b / 2) + (if a % 2 == 1 && b % 2 == 1 then 1 else 0)
  }

  function Or(a: nat, b: nat): nat {
    if a == 0 && b == 0 then 0
    else 2 * Or(a / 2, b / 2) + (if a % 2 == 1 || b % 2 == 1 then 1 else 0)
  }

  function Shr(a: nat, k: nat): (r: nat)
    ensures r <= a
    decreases k
  {
    if k == 0 then a else Shr(a / 2, k - 1)
  }

  function Shl(a: nat, k: nat): nat {
    if k == 0 then a else 2 * Shl(a, k - 1)
  }

  /** The left shift of a 64-bit word: bits pushed past the top are lost. */
  function Shl64(a: u64, k: nat): u64 {
    if k == 0 then a else 2 * Shl64(a, k - 1) % (U64_MAX + 1)
  }

  function Xor64(a: u64, b: u64): u64 {
    Pow2Values();
    XorBound(a, b, 64);
    Xor(a, b)
  }

  function Or64(a: u64, b: u64): u64 {
    Pow2Values();
    OrBound(a, b, 64);
    Or(a, b)
  }

  function And64(a: u64, b: u64): u64 {
    AndBound(a, b);
    And(a, b)
  }

  /** The number of significant bits; 64 less the leading zeros of a 64-bit word. */
  function BitLength(x: nat): nat {
    if x == 0 then 0 else 1 + BitLength(x / 2)
  }

  // ---- Powers of two ----

  lemma Pow2Plus4(k: nat)
    ensures Pow2(k + 4) == 16 * Pow2(k)
  {
    assert Pow2(k + 2) == 2 * Pow2(k + 1) == 4 * Pow2(k);
    assert Pow2(k + 4) == 2 * Pow2(k + 3) == 4 * Pow2(k + 2);
  }

  lemma Pow2Plus16(k: nat)
    ensures Pow2(k + 16) == 0x1_0000 * Pow2(k)
  {
    Pow2Plus4(k);
    Pow2Plus4(k + 4);
    Pow2Plus4(k + 8);
    Pow2Plus4(k + 12);
  }

  lemma Pow2Plus64(k: nat)
    ensures Pow2(k + 64) == (U64_MAX + 1) * Pow2(k)
  {
    Pow2Plus16(k);
    Pow2Plus16(k + 16);
    Pow2Plus16(k + 32);
    Pow2Plus16(k + 48);
  }

  lemma Pow2Values()
    ensures Pow2(64) == U64_MAX + 1
  {
    Pow2Plus64(0);
  }

  lemma {:induction false} Pow2Monotone(m: nat, n: nat)
    requires m <= n
    ensures Pow2(m) <= Pow2(n)
  {
    if m < n {
      Pow2Monotone(m, n - 1);
    }
  }

  lemma Pow2Fits(k: nat)
    requires k <= 64
    ensures Pow2(k) <= U64_MAX + 1
  {
    Pow2Values();
    Pow2Monotone(k, 64);
  }

  lemma BitLengthFits(x: u64)
    ensures BitLength(x) <= 64
  {
    Pow2Values();
    BitLengthBound(x, 64);
  }

  lemma {:induction false} BitLengthCovers(x: nat)
    ensures x < Pow2(BitLength(x))
  {
    if x > 0 {
      BitLengthCovers(x / 2);
    }
  }

  lemma {:induction false} BitLengthTight(x: nat)
    requires x > 0
    ensures BitLength(x) > 0 && Pow2(BitLength(x) - 1) <= x
  {
    if x > 1 {
      BitLengthTight(x / 2);
    }
  }

  lemma {:induction false} BitLengthBound(x: nat, k: nat)
    requires x < Pow2(k)
    ensures BitLength(x) <= k
  {
    if x > 0 {
      BitLengthBound(x / 2, k - 1);
    }
  }

  // ---- Bounds ----

  lemma {:induction false} XorBound(a: nat, b: nat, k: nat)
    requires a < Pow2(k) && b < Pow2(k)
    ensures Xor(a, b) < Pow2(k)
  {
    if k > 0 {
      XorBound(a / 2, b / 2, k - 1);
    }
  }

  lemma {:induction false} OrBound(a: nat, b: nat, k: nat)
    requires a < Pow2(k) && b < Pow2(k)
    ensures Or(a, b) < Pow2(k)
  {
    if k > 0 {
      OrBound(a / 2, b / 2, k - 1);
    }
  }

  lemma {:induction false} AndBound(a: nat, b: nat)
    ensures And(a, b) <= b
  {
    if a > 0 && b > 0 {
      AndBound(a / 2, b / 2);
    }
  }

  lemma {:induction false} ShrBound(a: nat, j: nat, k: nat)
    requires a < Pow2(j + k)
    ensures Shr(a, k) < Pow2(j)
    decreases k
  {
    if k > 0 {
      ShrBound(a / 2, j, k - 1);
    }
  }

  lemma {:induction false} ShlBound(a: nat, j: nat, k: nat)
    requires a < Pow2(j)
    ensures Shl(a, k) < Pow2(j + k)
  {
    if k > 0 {
      ShlBound(a, j, k - 1);
    }
  }

  /** No bit is lost when the shifted word fits in 64 bits. */
  lemma {:induction false} ShlFits(a: u64, j: nat, k: nat)
    requires a < Pow2(j) && j + k <= 64
    ensures Shl64(a, k) == Shl(a, k)
  {
    if k > 0 {
      ShlFits(a, j, k - 1);
      ShlBound(a, j, k);
      Pow2Fits(j + k);
    }
  }

  // ---- Identities ----

  lemma {:induction false} MaskKeeps(a: nat, k: nat)
    requires a < Pow2(k)
    ensures And(a, Pow2(k) - 1) == a
  {
    if k > 0 && a > 0 {
      MaskKeeps(a / 2, k - 1);
      MaskHalf(k);
    }
  }

  lemma MaskHalf(k: nat)
    requires k > 0
    ensures (Pow2(k) - 1) / 2 == Pow2(k - 1) - 1 && (Pow2(k) - 1) % 2 == 1
  {
  }

  lemma AndHalf(a: nat, b: nat)
    ensures And(a, b) / 2 == And(a / 2, b / 2)
    ensures And(a, b) % 2 == 1 <==> a % 2 == 1 && b % 2 == 1
  {
  }

  lemma XorHalf(a: nat, b: nat)
    ensures Xor(a, b) / 2 == Xor(a / 2, b / 2)
    ensures Xor(a, b) % 2 == 0 <==> a % 2 == b % 2
  {
  }

  lemma OrHalf(a: nat, b: nat)
    ensures Or(a, b) / 2 == Or(a / 2, b / 2)
    ensures Or(a, b) % 2 == 1 <==> a % 2 == 1 || b % 2 == 1
  {
  }

  /** Under a mask, xor with the same word twice gives the masked operand back. */
  lemma {:induction false} MaskedXorTwice(a: nat, w: nat, m: nat)
    ensures And(Xor(And(Xor(a, w), m), w), m) == And(a, m)
    decreases m
  {
    if m > 0 {
      MaskedXorTwice(a / 2, w / 2, m / 2);
      var once := Xor(a, w);
      var kept := And(once, m);
      var twice := Xor(kept, w);
      XorHalf(a, w);
      AndHalf(once, m);
      XorHalf(kept, w);
      AndHalf(twice, m);
      AndHalf(a, m);
    }
  }

  /** `(hi << k) | lo` splits again into `hi` and `lo` when `lo` fits in k bits. */
  lemma {:induction false} SplitJoined(hi: nat, lo: nat, k: nat)
    requires lo < Pow2(k)
    ensures Shr(Or(Shl(hi, k), lo), k) == hi
    ensures And(Or(Shl(hi, k), lo), Pow2(k) - 1) == lo
    decreases k
  {
    var x := Or(Shl(hi, k), lo);
    if k == 0 {
      OrZero(hi);
    } else {
      SplitJoined(hi, lo / 2, k - 1);
      OrHalf(Shl(hi, k), lo);
      AndHalf(x, Pow2(k) - 1);
      MaskHalf(k);
    }
  }

  /** Joining the high part and the low k bits gives the word back. */
  lemma {:induction false} JoinSplit(x: nat, k: nat)
    ensures Or(Shl(Shr(x, k), k), And(x, Pow2(k) - 1)) == x
    decreases k
  {
    if k == 0 {
      OrZero(x);
    } else {
      JoinSplit(x / 2, k - 1);
      AndHalf(x, Pow2(k) - 1);
      MaskHalf(k);
      OrHalf(Shl(Shr(x, k), k), And(x, Pow2(k) - 1));
    }
  }

  lemma {:induction false} OrZero(a: nat)
    ensures Or(a, 0) == a
  {
    if a > 0 {
      OrZero(a / 2);
    }
  }
}
