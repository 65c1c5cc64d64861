/** The `index & (!index + 1)` step of a Fenwick tree, on 64-bit indices. */
module LowBit {

  function Pow2(k: nat): nat
    ensures Pow2(k) >= 1
  {
    if k == 0 then 1 else 2 * Pow2(k - 1)
  }

  /** Bitwise conjunction of two unsigned integers. */
  function BitAnd(x: nat, y: nat): nat
  {
    if x == 0 || y == 0 then 0
    else (if x % 2 == 1 && y % 2 == 1 then 1 else 0) + 2 * BitAnd(x / 2, y / 2)
  }

  const USIZE_MAX: nat := 0xFFFF_FFFF_FFFF_FFFF

  /** Bitwise complement of a 64-bit `usize`. */
  function Not(x: nat): nat
    requires x <= USIZE_MAX
  {
    USIZE_MAX - x
  }

  /** The largest power of two that divides `x`. */
  function Low(x: nat): (l: nat)
    requires x > 0
    ensures 1 <= l <= x
  {
    if x % 2 == 1 then 1 else 2 * Low(x / 2)
  }

  lemma {:induction false} AndComplement(x: nat, k: nat)
    requires x < Pow2(k)
    ensures BitAnd(x, Pow2(k) - 1 - x) == 0
  {
    if k > 0 && x > 0 && Pow2(k) - 1 - x > 0 {
      AndComplement(x / 2, k - 1);
      assert (Pow2(k) - 1 - x) / 2 == Pow2(k - 1) - 1 - x / 2;
    }
  }

  lemma {:induction false} AndNegate(x: nat, k: nat)
    requires 0 < x < Pow2(k)
    ensures BitAnd(x, Pow2(k) - x) == Low(x)
  {
    assert k > 0;
    if x % 2 == 1 {
      AndComplement(x / 2, k - 1);
      assert (Pow2(k) - x) / 2 == Pow2(k - 1) - 1 - x / 2;
    } else {
      AndNegate(x / 2, k - 1);
      assert (Pow2(k) - x) / 2 == Pow2(k - 1) - x / 2;
    }
  }

  lemma {:induction false} Pow2Add(j: nat, k: nat)
    ensures Pow2(j + k) == Pow2(j) * Pow2(k)
  {
    if k > 0 { Pow2Add(j, k - 1); }
  }

  lemma Pow2Of64()
    ensures Pow2(64) == USIZE_MAX + 1
  {
    assert Pow2(4) == 16;
    Pow2Add(4, 4);
    Pow2Add(8, 8);
    assert Pow2(16) == 65536;
    Pow2Add(16, 16);
    Pow2Add(32, 32);
  }

  /** The source's bit trick computes the lowest set bit, and `!index + 1` does not overflow. */
  lemma LowBitTrick(x: nat)
    requires 0 < x <= USIZE_MAX
    ensures Not(x) + 1 <= USIZE_MAX
    ensures BitAnd(x, Not(x) + 1) == Low(x)
  {
    Pow2Of64();
    AndNegate(x, 64);
  }

  /** Stepping up by the low bit at least doubles it. */
  lemma {:induction false} LowStep(x: nat)
    requires x > 0
    ensures Low(x + Low(x)) >= 2 * Low(x)
  {
    if x % 2 == 0 {
      LowStep(x / 2);
      assert (x + Low(x)) / 2 == x / 2 + Low(x / 2);
    }
  }

  /** Between `x` and its next step, ranges of nodes start no lower than `x`. */
  lemma {:induction false} LowBetween(x: nat, d: nat)
    requires x > 0 && 0 < d < Low(x)
    ensures Low(x + d) <= d
  {
    if d % 2 == 0 {
      LowBetween(x / 2, d / 2);
      assert (x + d) / 2 == x / 2 + d / 2;
    }
  }

  /** `x` is a multiple of `Pow2(k)`. */
  predicate Aligned(x: nat, k: nat)
  {
    k == 0 || (x % 2 == 0 && Aligned(x / 2, k - 1))
  }

  lemma {:induction false} AlignedStep(x: nat, k: nat)
    requires Aligned(x, k + 1)
    ensures Low(x + Pow2(k)) == Pow2(k)
    ensures Aligned(x, k) && Aligned(x + Pow2(k), k)
  {
    if k > 0 {
      AlignedStep(x / 2, k - 1);
      assert (x + Pow2(k)) / 2 == x / 2 + Pow2(k - 1);
    }
  }

  lemma {:induction false} ZeroAligned(k: nat)
    ensures Aligned(0, k)
  {
    if k > 0 { ZeroAligned(k - 1); }
  }
}
