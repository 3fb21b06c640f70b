/**
  Unsigned machine words as natural numbers: powers of two, the value of one bit,
  and the bitwise "and" by its truth table, bit by bit.
 */
module Bits {
  import opened Arithmetic

  function Pow2(k: nat): (p: nat)
    ensures p >= 1
  {
    if k == 0 then 1 else 2 * Pow2(k - 1)
  }

  /** Bit `i` of `x`, counted from the least significant one. */
  predicate Bit(x: nat, i: nat) {
    if i == 0 then x % 2 == 1 else Bit(x / 2, i - 1)
  }

  /** `x & y`. */
  function And(x: nat, y: nat): nat {
    if x == 0 || y == 0 then 0
    else 2 * And(x / 2, y / 2) + (if x % 2 == 1 && y % 2 == 1 then 1 else 0)
  }

  /** `&` works on every bit separately. */
  lemma {:induction false} AndBitwise(x: nat, y: nat, i: nat)
    ensures Bit(And(x, y), i) <==> Bit(x, i) && Bit(y, i)
  {
    if x == 0 || y == 0 {
      ZeroHasNoBits(i);
    } else if i > 0 {
      assert And(x, y) / 2 == And(x / 2, y / 2);
      AndBitwise(x / 2, y / 2, i - 1);
    }
  }

  lemma {:induction false} ZeroHasNoBits(i: nat)
    ensures !Bit(0, i)
  {
    if i > 0 { ZeroHasNoBits(i - 1); }
  }

  lemma {:induction false} Pow2HasOneBit(k: nat, i: nat)
    ensures Bit(Pow2(k), i) <==> i == k
  {
    if k == 0 {
      if i > 0 { ZeroHasNoBits(i - 1); }
    } else if i > 0 {
      assert Pow2(k) / 2 == Pow2(k - 1);
      Pow2HasOneBit(k - 1, i - 1);
    }
  }

  lemma {:induction false} SomeBit(x: nat) returns (i: nat)
    requires x > 0
    ensures Bit(x, i)
  {
    if x % 2 == 1 {
      i := 0;
    } else {
      var j := SomeBit(x / 2);
      i := j + 1;
    }
  }

  /** Masking with a single bit tests that bit. */
  lemma AndSingleBit(x: nat, k: nat)
    ensures And(x, Pow2(k)) != 0 <==> Bit(x, k)
  {
    AndBitwise(x, Pow2(k), k);
    Pow2HasOneBit(k, k);
    if And(x, Pow2(k)) == 0 {
      ZeroHasNoBits(k);
    } else {
      var i := SomeBit(And(x, Pow2(k)));
      AndBitwise(x, Pow2(k), i);
      Pow2HasOneBit(k, i);
    }
  }

  lemma {:induction false} Pow2Add(a: nat, b: nat)
    ensures Pow2(a + b) == Pow2(a) * Pow2(b)
  {
    if a > 0 {
      Pow2Add(a - 1, b);
      assert Pow2(a + b) == 2 * Pow2(a - 1 + b);
    }
  }

  lemma {:induction false} Pow2Monotone(a: nat, b: nat)
    requires a <= b
    ensures Pow2(a) <= Pow2(b)
  {
    if a < b { Pow2Monotone(a, b - 1); }
  }

  /** Two numbers glued together: the low `m` bits come from `lo`, the rest from `hi`. */
  lemma {:induction false} BitOfGlued(lo: nat, hi: nat, m: nat, i: nat)
    requires lo < Pow2(m)
    ensures Bit(lo + Pow2(m) * hi, i) == if i < m then Bit(lo, i) else Bit(hi, i - m)
  {
    if m == 0 {
      assert lo + Pow2(m) * hi == hi;
    } else {
      var h := Pow2(m - 1) * hi;
      assert Pow2(m) * hi == 2 * h;
      if i > 0 {
        assert (lo + 2 * h) / 2 == lo / 2 + h;
        BitOfGlued(lo / 2, hi, m - 1, i - 1);
      }
    }
  }

  /** A number below 2^m is determined by its low m bits. */
  lemma {:induction false} BitsDetermine(x: nat, y: nat, m: nat)
    requires x < Pow2(m) && y < Pow2(m)
    requires forall i: nat | i < m :: Bit(x, i) == Bit(y, i)
    ensures x == y
  {
    if m > 0 {
      forall i: nat | i < m - 1 ensures Bit(x / 2, i) == Bit(y / 2, i) {
        assert Bit(x, i + 1) == Bit(y, i + 1);
      }
      BitsDetermine(x / 2, y / 2, m - 1);
      assert Bit(x, 0) == Bit(y, 0);
    }
  }

  /** The low `k` bits of `x`, and the rest. */
  function Low(x: nat, k: nat): nat {
    if k == 0 then 0 else 2 * Low(x / 2, k - 1) + x % 2
  }

  function High(x: nat, k: nat): nat {
    if k == 0 then x else High(x / 2, k - 1)
  }

  lemma {:induction false} LowHigh(x: nat, k: nat)
    ensures Low(x, k) < Pow2(k) && x == Pow2(k) * High(x, k) + Low(x, k)
  {
    if k > 0 {
      LowHigh(x / 2, k - 1);
      MulDouble(Pow2(k - 1), High(x / 2, k - 1));
    }
  }

  lemma LowIsMod(x: nat, k: nat)
    ensures Low(x, k) == x % Pow2(k)
  {
    LowHigh(x, k);
    DivModUnique(x, Pow2(k), High(x, k), Low(x, k));
  }

  /** `&`, one bit at a time, also for zero operands. */
  lemma AndHalf(x: nat, y: nat)
    ensures And(x, y) == 2 * And(x / 2, y / 2) + (if x % 2 == 1 && y % 2 == 1 then 1 else 0)
  {
  }

  /** An m-bit word of ones above bit k. */
  function HighMask(m: nat, k: nat): nat
    requires k <= m
  {
    Pow2Monotone(k, m);
    Pow2(m) - Pow2(k)
  }

  lemma HighMaskHalf(m: nat, k: nat)
    requires k <= m && m > 0
    ensures HighMask(m, k) / 2 == HighMask(m - 1, if k == 0 then 0 else k - 1)
    ensures HighMask(m, k) % 2 == if k == 0 then 1 else 0
  {
    assert Pow2(m) == 2 * Pow2(m - 1);
    if k > 0 { assert Pow2(k) == 2 * Pow2(k - 1); }
  }

  lemma {:induction false} AndOnes(y: nat, m: nat)
    requires y < Pow2(m)
    ensures And(y, HighMask(m, 0)) == y
  {
    if m > 0 {
      AndOnes(y / 2, m - 1);
      HighMaskHalf(m, 0);
      AndHalf(y, HighMask(m, 0));
    }
  }

  /** The mask clears the low k bits and keeps the others. */
  lemma {:induction false} AndHighMask(y: nat, m: nat, k: nat)
    requires k <= m && y < Pow2(m)
    ensures And(y, HighMask(m, k)) == y - Low(y, k)
  {
    if k == 0 {
      AndOnes(y, m);
    } else {
      AndHighMask(y / 2, m - 1, k - 1);
      HighMaskHalf(m, k);
      AndHalf(y, HighMask(m, k));
    }
  }
}
