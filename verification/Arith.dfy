/** Multiplication, division and remainder on integers, one small fact at a time. */
module Arith {

  lemma MulDistributes(a: int, b: int, d: int)
    ensures (a - b) * d == a * d - b * d && (a + b) * d == a * d + b * d
  {
  }

  lemma MulMonotonic(a: int, b: int, d: int)
    requires a <= b && d >= 0
    ensures a * d <= b * d
  {
  }

  lemma MulAssociates(a: int, b: int, c: int)
    ensures (a * b) * c == a * (b * c)
  {
  }

  /** Quotient and remainder are determined by the equation that defines them. */
  lemma EuclidUnique(q: int, r: int, q': int, r': int, d: int)
    requires 0 <= r < d && 0 <= r' < d && q * d + r == q' * d + r'
    ensures q == q' && r == r'
  {
    if q < q' {
      MulMonotonic(1, q' - q, d);
      MulDistributes(q', q, d);
      assert false;
    } else if q' < q {
      MulMonotonic(1, q - q', d);
      MulDistributes(q, q', d);
      assert false;
    }
  }

  lemma DivMod(n: int, d: int)
    requires d > 0
    ensures n == (n / d) * d + n % d && 0 <= n % d < d
  {
  }

  lemma DivModIs(n: int, q: int, r: int, d: int)
    requires 0 <= r < d && n == q * d + r
    ensures n / d == q && n % d == r
  {
    DivMod(n, d);
    EuclidUnique(n / d, n % d, q, r, d);
  }

  lemma DivBelow(x: int, a: int, d: int)
    requires d > 0 && 0 <= x < a * d
    ensures 0 <= x / d < a
  {
    DivMod(x, d);
    if x / d >= a {
      MulMonotonic(a, x / d, d);
      assert false;
    }
    if x / d <= -1 {
      MulMonotonic(x / d, -1, d);
      assert false;
    }
  }

  lemma DivShrinks(x: int, d: int)
    requires d > 0 && x >= 0
    ensures 0 <= x / d <= x
  {
    MulMonotonic(1, d, x);
    MulMonotonic(0, x, d);
    DivMod(x, d);
    if x / d > x {
      MulMonotonic(x + 1, x / d, d);
      MulDistributes(x, 1, d);
      assert false;
    }
    if x / d <= -1 {
      MulMonotonic(x / d, -1, d);
      assert false;
    }
  }
}
