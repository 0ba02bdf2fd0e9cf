/** Facts about products and quotients that the solver needs spelled out. */
module Arith {

  function Min(a: int, b: int): int { if a < b then a else b }

  function Max(a: int, b: int): int { if a > b then a else b }

  function Pow2(n: nat): (p: nat) ensures p >= 1 { if n == 0 then 1 else 2 * Pow2(n - 1) }

  lemma MulLe(d: nat, a: int, b: int)
    requires a <= b
    ensures d * a <= d * b
  {}

  lemma DivModId(x: int, d: nat)
    requires d > 0
    ensures x == d * (x / d) + x % d && 0 <= x % d < d
  {}

  /** The quotient is the only multiple that fits. */
  lemma DivUnique(x: int, d: nat, q: int)
    requires d > 0 && d * q <= x < d * q + d
    ensures x / d == q
  {
    DivModId(x, d);
    var k := x / d;
    if k < q {
      assert d * (k + 1) == d * k + d;
      MulLe(d, k + 1, q);
    } else if k > q {
      assert d * (q + 1) == d * q + d;
      MulLe(d, q + 1, k);
    }
  }

  lemma DivMonotone(a: int, b: int, d: nat)
    requires a <= b && d > 0
    ensures a / d <= b / d
  {
    DivModId(a, d);
    DivModId(b, d);
    if b / d < a / d {
      assert d * (b / d + 1) == d * (b / d) + d;
      MulLe(d, b / d + 1, a / d);
    }
  }

  /** `x / d` is the largest q with d * q <= x. */
  lemma DivAtLeast(x: int, d: nat, q: int)
    requires d > 0 && d * q <= x
    ensures q <= x / d
  {
    DivMonotone(d * q, x, d);
    DivUnique(d * q, d, q);
  }

  lemma Distribute(p: int, a: int, b: int)
    ensures p * (a + b) == p * a + p * b
  {}

  /** Adding a multiple of the divisor adds to the quotient. */
  lemma DivAddMultiple(x: int, p: nat, m: int)
    requires p > 0
    ensures (x + p * m) / p == x / p + m
  {
    DivModId(x, p);
    Distribute(p, x / p, m);
    DivUnique(x + p * m, p, x / p + m);
  }
}
