/** Copies of a signal, upright or inverted: unless it is constant they correlate to 1 or -1. */
module ExactCopies {
  import opened LeastSquares
  import opened Correlation

  predicate IsSign(sign: real) {
    sign == 1.0 || sign == -1.0
  }

  ghost predicate IsCopy(x: Signal, y: Signal, sign: real)
    requires |x| == |y|
  {
    IsSign(sign) && forall i :: 0 <= i < |x| ==> y[i] == sign * x[i]
  }

  /** Some two values differ by at least `gap`. */
  ghost predicate Varies(x: Signal, gap: real) {
    exists i, j :: 0 <= i < |x| && 0 <= j < |x| && x[i] - x[j] >= gap
  }

  // ----- energy about the mean -----

  lemma {:induction false} EnergyOfOne(c: Signal, i: nat)
    requires i < |c|
    ensures c[i] * c[i] <= Dot(c, c)
  {
    SquareNonNegative(c[0]);
    DotSelfNonNegative(c[1..]);
    if i > 0 { EnergyOfOne(c[1..], i - 1); }
  }

  lemma {:induction false} EnergyOfTwo(c: Signal, i: nat, j: nat)
    requires i < j < |c|
    ensures c[i] * c[i] + c[j] * c[j] <= Dot(c, c)
  {
    SquareNonNegative(c[0]);
    if i == 0 {
      EnergyOfOne(c[1..], j - 1);
    } else {
      EnergyOfTwo(c[1..], i - 1, j - 1);
    }
  }

  lemma HalfOfDifference(x: real, y: real)
    ensures (x - y) * (x - y) / 2.0 <= x * x + y * y
  {
    SquareNonNegative(x + y);
    assert (x + y) * (x + y) + (x - y) * (x - y) == 2.0 * (x * x) + 2.0 * (y * y);
  }

  lemma SquareAtLeast(x: real, gap: real)
    requires x >= gap > 0.0
    ensures x * x >= gap * gap
  {
    if x > gap { SquareGrows(gap, x); }
  }

  /** A signal that varies has energy about its mean. */
  lemma VaryingHasEnergy(x: Signal, gap: real)
    requires x != [] && gap > 0.0 && Varies(x, gap)
    ensures Dot(Centered(x), Centered(x)) >= gap * gap / 2.0
  {
    hide Dot, Mean;
    var i, j :| 0 <= i < |x| && 0 <= j < |x| && x[i] - x[j] >= gap;
    var c := Centered(x);
    assert c[i] - c[j] == x[i] - x[j];
    if i < j { EnergyOfTwo(c, i, j); } else { EnergyOfTwo(c, j, i); }
    HalfOfDifference(c[i], c[j]);
    SquareAtLeast(c[i] - c[j], gap);
  }

  // ----- copies -----

  lemma {:induction false} SumOfCopy(x: Signal, y: Signal, sign: real)
    requires |x| == |y| && IsCopy(x, y, sign)
    ensures Sum(y) == sign * Sum(x)
  {
    if x != [] { SumOfCopy(x[1..], y[1..], sign); }
  }

  lemma MeanOfCopy(x: Signal, y: Signal, sign: real)
    requires |x| == |y| > 0 && IsCopy(x, y, sign)
    ensures Mean(y) == sign * Mean(x)
  {
    hide Sum;
    SumOfCopy(x, y, sign);
    SignedQuotient(sign, Sum(x), |x| as real);
  }

  lemma SignedQuotient(sign: real, x: real, n: real)
    requires n > 0.0 && IsSign(sign)
    ensures sign * x / n == sign * (x / n)
  {
  }

  lemma SignedDifference(sign: real, y: real, x: real, my: real, mx: real)
    requires y == sign * x && my == sign * mx
    ensures y - my == sign * (x - mx)
  {
  }

  lemma CenteredCopy(x: Signal, y: Signal, sign: real)
    requires |x| == |y| > 0 && IsCopy(x, y, sign)
    ensures IsCopy(Centered(x), Centered(y), sign)
  {
    hide Mean;
    MeanOfCopy(x, y, sign);
    forall i | 0 <= i < |x| ensures Centered(y)[i] == sign * Centered(x)[i] {
      SignedDifference(sign, y[i], x[i], Mean(y), Mean(x));
    }
  }

  lemma DotOfCopy(z: Signal, x: Signal, y: Signal, sign: real)
    requires |z| == |x| == |y| && IsCopy(x, y, sign)
    ensures Dot(z, y) == sign * Dot(z, x)
  {
    MixtureDot(z, y, x, x, sign, 0.0);
  }

  lemma SignSquares(sign: real, x: real)
    requires IsSign(sign)
    ensures sign * (sign * x) == x
  {
  }

  lemma RootOfSquare(root: Root, d: real, square: real)
    requires IsRoot(root) && d > 0.0 && square == d * d
    ensures root(square) == d
  {
    ProductPositive(d, d);
    var r := root(square);
    assert r >= 0.0 && r * r == square;
    if r < d { SquareGrows(r, d); }
    if d < r { SquareGrows(d, r); }
  }

  /** Energies and inner product of a copy. */
  lemma CopyEnergies(x: Signal, y: Signal, sign: real)
    requires |x| == |y| && IsCopy(x, y, sign)
    ensures Dot(x, y) == sign * Dot(x, x) && Dot(y, y) == Dot(x, x)
  {
    hide Dot;
    DotOfCopy(x, x, y, sign);
    DotOfCopy(y, x, y, sign);
    DotCommutes(x, y);
    SignSquares(sign, Dot(x, x));
  }

  lemma NormalisedSign(sign: real, product: real, energy: real, d: real, root: Root)
    requires d > 0.0 && product == sign * d && root(energy) == d
    ensures Normalised(product, energy, root) == sign
  {
    assert product / d == sign;
  }

  lemma SquareEnergy(cx: Signal, cy: Signal)
    requires |cx| == |cy| && Dot(cy, cy) == Dot(cx, cx)
    ensures Energy(cx, cy) == Dot(cx, cx) * Dot(cx, cx)
  {
    hide Dot;
  }

  /** A copy of a signal that is not constant correlates to its sign. */
  lemma CopyCorrelates(x: Signal, y: Signal, sign: real, root: Root)
    requires |x| == |y| > 0 && IsCopy(x, y, sign) && IsRoot(root) && Dot(Centered(x), Centered(x)) > 0.0
    ensures root(Energy(Centered(x), Centered(y))) == Dot(Centered(x), Centered(x))
    ensures Coefficient(x, y, root) == sign
  {
    hide Dot, Centered, Energy, Normalised, IsCopy, IsRoot;
    var cx, cy := Centered(x), Centered(y);
    CenteredCopy(x, y, sign);
    CopyEnergies(cx, cy, sign);
    SquareEnergy(cx, cy);
    RootOfSquare(root, Dot(cx, cx), Energy(cx, cy));
    NormalisedSign(sign, Dot(cx, cy), Energy(cx, cy), Dot(cx, cx), root);
  }
}
