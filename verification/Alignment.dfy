/** ALIGN_UP from types.h: `(x + (a - 1)) & ~(a - 1)` on 64-bit words. */
module Alignment {
  import opened Arithmetic
  import opened Bits

  /** Rounding up by clearing the remainder. */
  function AlignUp(x: nat, a: nat): nat
    requires a >= 1
  {
    var y := x + (a - 1);
    assert y == a * (y / a) + y % a;
    MulNonNegative(a, y / a);
    y - y % a
  }

  /** The macro as written, on words of `bits` bits and an alignment of 2^k. */
  function AlignUpMacro(x: nat, k: nat, bits: nat): nat
    requires k <= bits
  {
    And((x + (Pow2(k) - 1)) % Pow2(bits), HighMask(bits, k))
  }

  lemma MacroIsAlignUp(x: nat, k: nat, bits: nat)
    requires k <= bits && x + (Pow2(k) - 1) < Pow2(bits)
    ensures AlignUpMacro(x, k, bits) == AlignUp(x, Pow2(k))
  {
    MaskRoundsDown(x + (Pow2(k) - 1), k, bits);
  }

  lemma MaskRoundsDown(y: nat, k: nat, bits: nat)
    requires k <= bits && y < Pow2(bits)
    ensures And(y % Pow2(bits), HighMask(bits, k)) == y - y % Pow2(k)
  {
    ModSmall(y, Pow2(bits));
    AndHighMask(y, bits, k);
    LowIsMod(y, k);
  }

  /** AlignUp is the least multiple of `a` that is not below `x`. */
  lemma AlignUpLeast(x: nat, a: nat)
    requires a >= 1
    ensures x <= AlignUp(x, a) < x + a && AlignUp(x, a) % a == 0
    ensures forall m: nat | m % a == 0 && x <= m :: AlignUp(x, a) <= m
  {
    var y := x + (a - 1);
    var q := y / a;
    assert y == a * q + y % a;
    DivModUnique(a * q, a, q, 0);
    forall m: nat | m % a == 0 && x <= m ensures a * q <= m {
      MultipleAtLeast(x, a, q, m);
    }
  }

  lemma MultipleAtLeast(x: nat, a: nat, q: nat, m: nat)
    requires a >= 1 && a * q < x + a && m % a == 0 && x <= m
    ensures a * q <= m
  {
    assert m == a * (m / a);
    MulOrder(a, m / a, q);
    MulOrder(a, q, m / a);
  }

  /** ALIGN_UP(x, 0x100). */
  function Sector(x: nat): (r: nat)
    ensures x <= r < x + 0x100 && r % 0x100 == 0
  {
    0x100 * ((x + 0xFF) / 0x100)
  }

  /** ALIGN_UP(x, 0x1000). */
  function Page(x: nat): (r: nat)
    ensures x <= r < x + 0x1000 && r % 0x1000 == 0
  {
    0x1000 * ((x + 0xFFF) / 0x1000)
  }

  /** The two alignments in use are the macro, below the wrap-around of the word. */
  lemma SectorAndPageAreTheMacro(x: nat, bits: nat)
    requires 12 <= bits && x + 0xFFF < Pow2(bits)
    ensures AlignUpMacro(x, 8, bits) == Sector(x)
    ensures AlignUpMacro(x, 12, bits) == Page(x)
  {
    assert Pow2(8) == 0x100 && Pow2(12) == 0x1000;
    MacroIsAlignUp(x, 8, bits);
    MacroIsAlignUp(x, 12, bits);
    assert AlignUp(x, 0x100) == Sector(x) && AlignUp(x, 0x1000) == Page(x);
  }

  lemma SectorLeast(x: nat, m: nat)
    requires x <= m && m % 0x100 == 0
    ensures Sector(x) <= m
  {
  }

  lemma SectorAfterAligned(a: nat, b: nat)
    requires a % 0x100 == 0
    ensures Sector(a + b) == a + Sector(b)
  {
    var n := a / 0x100;
    assert a == 0x100 * n;
    assert (0x100 * n + b + 0xFF) / 0x100 == n + (b + 0xFF) / 0x100;
  }

  lemma SectorAfterWords(q: nat, b: nat)
    ensures Sector(0x1_0000_0000 * q + b) == 0x1_0000_0000 * q + Sector(b)
  {
    assert (0x100 * (0x100_0000 * q) + b + 0xFF) / 0x100 == 0x100_0000 * q + (b + 0xFF) / 0x100;
  }

  lemma SectorSubadditive(x: nat, y: nat)
    ensures Sector(x + y) <= Sector(x) + Sector(y) <= Sector(x + y) + 0x100
  {
    var m, n := (x + 0xFF) / 0x100, (y + 0xFF) / 0x100;
    assert m + n - 1 <= (x + y + 0xFF) / 0x100 <= m + n;
  }

  lemma SectorOfPartial(n: nat, b: nat)
    requires 1 <= b <= 0x100
    ensures Sector(0x100 * n + b) == 0x100 * n + 0x100
  {
    assert (0x100 * n + b + 0xFF) / 0x100 == n + 1;
  }

  lemma PageOfPages(n: nat)
    ensures Page(0x1000 * n + 0x1000) == 0x1000 * n + 0x1000
  {
  }
}
