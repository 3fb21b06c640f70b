/** The few facts about products and quotients that the other modules rest on. */
module Arithmetic {

  lemma MulOrder(d: nat, a: int, b: int)
    requires d >= 1
    ensures a < b ==> d * a + d <= d * b
    ensures a <= b ==> d * a <= d * b
  {
    assert d * b == d * a + d * (b - a);
    if a < b {
      MulNonNegative(d, b - a - 1);
      assert d * (b - a) == d * (b - a - 1) + d;
    }
  }

  lemma MulDouble(p: nat, h: nat)
    ensures (2 * p) * h == 2 * (p * h)
  {
  }

  lemma ModSmall(y: nat, d: nat)
    requires y < d
    ensures y % d == y
  {
  }

  lemma MulNonNegative(d: nat, k: nat)
    ensures d * k >= 0
  {
  }

  lemma DivModUnique(y: int, d: nat, q: int, r: nat)
    requires d >= 1 && r < d && y == d * q + r
    ensures y / d == q && y % d == r
  {
    var p := y / d;
    assert y == d * p + y % d;
    MulOrder(d, p, q);
    MulOrder(d, q, p);
  }

  lemma AddMultiple(a: nat, q: nat)
    ensures (0x1_0000_0000 * q + a) % 0x1_0000_0000 == a % 0x1_0000_0000
  {
  }
}
