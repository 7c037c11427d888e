/**
 Correlation coefficients over exact reals. The square root is a parameter known only by
 its law.
 */
module Correlation {
  import opened LeastSquares

  type Root = real -> real

  ghost predicate IsRoot(root: Root) {
    forall x :: x >= 0.0 ==> root(x) >= 0.0 && root(x) * root(x) == x
  }

  function Abs(x: real): real {
    if x < 0.0 then -x else x
  }

  function Sum(x: Signal): real {
    if x == [] then 0.0 else x[0] + Sum(x[1..])
  }

  function Mean(x: Signal): real
    requires x != []
  {
    Sum(x) / |x| as real
  }

  function Centered(x: Signal): (c: Signal)
    requires x != []
    ensures |c| == |x|
  {
    var m := Mean(x);
    seq(|x|, i requires 0 <= i < |x| => x[i] - m)
  }

  /** A product over the root of two energies; 0 when that is not positive. */
  function Normalised(product: real, energy: real, root: Root): real {
    var denominator := root(energy);
    if denominator <= 0.0 then 0.0 else product / denominator
  }

  function Energy(l: Signal, r: Signal): real {
    Dot(l, l) * Dot(r, r)
  }

  /** The inner product of the centred signals over the product of their norms. */
  function Coefficient(left: Signal, right: Signal, root: Root): real
    requires |left| == |right| > 0
  {
    var l, r := Centered(left), Centered(right);
    Normalised(Dot(l, r), Energy(l, r), root)
  }

  /** The coefficient of the common part of two signals; 0 when that is shorter than 12 samples. */
  function Pearson(left: Signal, right: Signal, root: Root): real {
    var count := if |left| < |right| then |left| else |right|;
    if count < 12 then 0.0 else Coefficient(left[..count], right[..count], root)
  }

  lemma QuotientWithin(n: real, d: real)
    requires d > 0.0 && -d <= n <= d
    ensures -1.0 <= n / d <= 1.0
  {
  }

  lemma SquareGrows(x: real, y: real)
    requires 0.0 <= x < y
    ensures x * x < y * y
  {
    var p, q := y - x, y + x;
    assert p * q > 0.0;
    assert p * q == y * y - x * x;
  }

  lemma NormalisedInUnit(product: real, energy: real, root: Root)
    requires IsRoot(root) && energy >= 0.0 && product * product <= energy
    ensures -1.0 <= Normalised(product, energy, root) <= 1.0
  {
    var d := root(energy);
    if d > 0.0 {
      if product > d {
        SquareGrows(d, product);
      } else if -product > d {
        SquareGrows(d, -product);
      }
      QuotientWithin(product, d);
    }
  }

  /** No coefficient leaves [-1, 1]: the Cauchy-Schwarz inequality. */
  lemma CoefficientInUnit(left: Signal, right: Signal, root: Root)
    requires |left| == |right| > 0 && IsRoot(root)
    ensures -1.0 <= Coefficient(left, right, root) <= 1.0
  {
    hide Dot;
    var l, r := Centered(left), Centered(right);
    SquareNonNegative(Dot(l, r));
    DeterminantNonNegative(l, r);
    NormalisedInUnit(Dot(l, r), Energy(l, r), root);
  }

  /** For signals of any lengths; 0 when their common part is short. */
  lemma PearsonInUnit(left: Signal, right: Signal, root: Root)
    requires IsRoot(root)
    ensures -1.0 <= Pearson(left, right, root) <= 1.0
    ensures |left| < 12 || |right| < 12 ==> Pearson(left, right, root) == 0.0
  {
    hide Coefficient;
    var count := if |left| < |right| then |left| else |right|;
    if count >= 12 {
      CoefficientInUnit(left[..count], right[..count], root);
    }
  }
}
