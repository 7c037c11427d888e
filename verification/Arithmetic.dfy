/** The few facts about integer products and quotients the models need. */
module Arithmetic {

  lemma MulMonotone(a: int, b: int, d: int)
    requires a <= b && d >= 0
    ensures a * d <= b * d
  {
  }

  lemma MulCancel(a: int, b: int, d: int)
    requires a * d < b * d && d >= 0
    ensures a < b
  {
    if b <= a {
      MulMonotone(b, a, d);
    }
  }

  lemma DivBounds(x: int, d: int)
    requires d > 0
    ensures x / d * d <= x < (x / d + 1) * d
  {
    assert x == x / d * d + x % d;
    assert (x / d + 1) * d == x / d * d + d;
  }

  /** q is the quotient of x by d when x lies in the q-th slot of width d. */
  lemma DivIs(x: int, d: int, q: int)
    requires d > 0 && q * d <= x < (q + 1) * d
    ensures x / d == q
  {
    DivBounds(x, d);
    MulCancel(q, x / d + 1, d);
    MulCancel(x / d, q + 1, d);
  }

  /** q slots of width d fit into x. */
  lemma DivAtLeast(x: int, d: int, q: int)
    requires d > 0 && q * d <= x
    ensures q <= x / d
  {
    DivBounds(x, d);
    MulCancel(q, x / d + 1, d);
  }

  /** x lies before the end of slot q. */
  lemma DivBelow(x: int, d: int, q: int)
    requires d > 0 && x < q * d
    ensures x / d < q
  {
    DivBounds(x, d);
    MulCancel(x / d, q, d);
  }

  lemma DivAddOne(x: int, d: int)
    requires d > 0
    ensures (x - d) / d + 1 == x / d
  {
    DivBounds(x, d);
    assert (x / d - 1) * d == x / d * d - d;
    DivIs(x - d, d, x / d - 1);
  }
}
