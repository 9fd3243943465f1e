// Integer facts shared by the index, grid and scaling arithmetic of the
// model: the solver does not find these non-linear steps on its own.

module Arith {

  /** Quotient and remainder are unique. */
  lemma DivMod(x: int, d: int, q: int, r: int)
    requires 0 < d && 0 <= r < d && x == q * d + r
    ensures x / d == q && x % d == r
  {
    var q', r' := x / d, x % d;
    assert (q - q') * d == r' - r;
    if q > q' {
      MulAtLeast(q - q', d);
    } else if q < q' {
      MulAtLeast(q' - q, d);
    }
  }

  lemma MulAtLeast(k: int, d: int)
    requires k >= 1 && d > 0
    ensures k * d >= d
  {
  }

  lemma MulLe(a: int, b: int, d: int)
    requires a <= b && d >= 0
    ensures a * d <= b * d
  {
  }

  lemma {:induction false} MulLess(a: int, b: int, n: int)
    requires a < b && n > 0
    ensures a * n < b * n
    decreases n
  {
    if n > 1 {
      MulLess(a, b, n - 1);
      assert a * n == a * (n - 1) + a;
      assert b * n == b * (n - 1) + b;
    }
  }

  lemma PositiveFactor(d: int, k: int)
    requires d > 0 && d * k > 0
    ensures k > 0
  {
  }

  /** A value below d * n has a quotient by d below n. */
  lemma DivBelow(a: int, d: int, n: int)
    requires 0 <= a < d * n && d > 0
    ensures a / d < n
  {
    var q := a / d;
    assert d * q <= a;
    assert d * (n - q) > 0;
    PositiveFactor(d, n - q);
  }

  /** Below a multiple of d, the next multiple of d after a multiple a of d
      is still within it. */
  lemma StepWithin(a: int, n: int, d: int)
    requires 0 < d && 0 <= a < n && a % d == 0 && n % d == 0
    ensures a + d <= n
  {
    var p, q := a / d, n / d;
    assert a == p * d && n == q * d;
    if q < p + 1 {
      MulLe(q, p, d);
      assert false;
    }
    MulLe(p + 1, q, d);
  }

  /** The row of cell i of a grid of the given width: it starts at or before i
      and ends after it. */
  lemma RowOf(i: int, width: int)
    requires i >= 0 && width > 0
    ensures (i / width) * width <= i < (i / width) * width + width
    ensures i == (i / width) * width + i % width
  {
  }
}
