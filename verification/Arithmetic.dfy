/** The little non-linear arithmetic the floors and scales need, kept apart from everything else. */
module Arithmetic {
  function Min(a: int, b: int): int {
    if a <= b then a else b
  }

  function Max(a: int, b: int): int {
    if a >= b then a else b
  }

  lemma MulMonotone(q: nat, f: nat, r: nat, g: nat)
    requires q <= r && f <= g
    ensures q * f <= r * g
  {
    assert q * f <= r * f <= r * g;
  }

  lemma MulLeft(d: nat, x: int, y: int)
    requires x <= y
    ensures d * x <= d * y
  {
  }

  lemma CancelLess(d: nat, x: int, y: int)
    requires d * x < d * y
    ensures x < y
  {
    if y <= x {
      MulLeft(d, y, x);
    }
  }

  /** a / d is the only quotient. */
  lemma Floor(a: int, d: nat)
    requires d > 0
    ensures d * (a / d) <= a < d * (a / d) + d
  {
  }

  lemma DivMonotone(a: int, b: int, d: nat)
    requires a <= b && d > 0
    ensures a / d <= b / d
  {
    Floor(a, d);
    Floor(b, d);
    assert d * (b / d) + d == d * (b / d + 1);
    CancelLess(d, a / d, b / d + 1);
  }

  lemma DivAtLeast(a: int, d: nat, q: int)
    requires d > 0 && d * q <= a
    ensures q <= a / d
  {
    Floor(a, d);
    assert d * (a / d) + d == d * (a / d + 1);
    CancelLess(d, q, a / d + 1);
  }

  lemma DivAtMost(a: int, d: nat, q: int)
    requires d > 0 && a < d * q + d
    ensures a / d <= q
  {
    Floor(a, d);
    assert d * q + d == d * (q + 1);
    CancelLess(d, a / d, q + 1);
  }

  lemma DivAntitone(a: nat, c: nat, d: nat)
    requires 0 < d <= c
    ensures a / c <= a / d
  {
    Floor(a, c);
    NonNegative(a, c);
    MulMonotone(d, a / c, c, a / c);
    DivAtLeast(a, d, a / c);
  }

  lemma NonNegative(a: nat, d: nat)
    requires d > 0
    ensures a / d >= 0
  {
    DivAtLeast(a, d, 0);
  }

  lemma OneMore(x: int, n: int)
    ensures x * (n + 1) == x * n + x
  {
  }
}
