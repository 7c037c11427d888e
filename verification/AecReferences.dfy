/**
 Which windows the evaluation can judge, without roots and quotients: a reference is active from
 a mean square of 10^-8 on, and two references are told apart exactly if the square of their inner
 product is at most 0.9604 of the product of their energies.
 */
module AecReferences {
  import opened LeastSquares
  import opened Correlation
  import opened AecWindow
  import opened AecVerdict
  import opened AecMixture

  /** Active exactly from one hundred-millionth per sample on. */
  lemma ActiveExactlyWhen(energy: real, count: nat)
    requires count > 0
    ensures IsActive(energy, count) <==> 100000000.0 * energy >= count as real
  {
    RatioAtLeastIff(energy, count as real, MINIMUM_REFERENCE_RMS * MINIMUM_REFERENCE_RMS);
  }

  // ----- centring twice -----

  lemma {:induction false} SumLess(x: Signal, c: Signal, m: real)
    requires |x| == |c| && forall i :: 0 <= i < |x| ==> c[i] == x[i] - m
    ensures Sum(c) == Sum(x) - |x| as real * m
  {
    if x != [] {
      SumLess(x[1..], c[1..], m);
      OneLess(|x[1..]| as real, m);
      assert |x| as real == |x[1..]| as real + 1.0;
    }
  }

  lemma OneLess(n: real, m: real)
    ensures (n + 1.0) * m == n * m + m
  {
  }

  lemma CenteredTwice(x: Signal)
    requires x != []
    ensures Centered(Centered(x)) == Centered(x)
  {
    hide Sum;
    var c := Centered(x);
    SumLess(x, c, Mean(x));
    MeanTimes(Sum(x), |x| as real);
    assert Sum(c) == 0.0;
  }

  lemma MeanTimes(total: real, n: real)
    requires n > 0.0
    ensures n * (total / n) == total
  {
  }

  // ----- correlation without a root -----

  lemma AbsSquare(x: real)
    ensures Abs(x) * Abs(x) == x * x && Abs(x) >= 0.0
  {
  }

  lemma SquaresOrdered(x: real, y: real)
    requires x >= 0.0 && y >= 0.0
    ensures x <= y <==> Times(x, x) <= Times(y, y)
  {
    if x < y { SquareGrows(x, y); }
    if y < x { SquareGrows(y, x); }
  }

  lemma AbsOfQuotient(p: real, d: real, k: real)
    requires d > 0.0
    ensures Abs(p / d) <= k <==> Abs(p) <= k * d
  {
    RatioAtMostIff(p, d, k);
    RatioAtMostIff(-p, d, k);
    assert -p / d == -(p / d);
  }

  lemma SquareOfProduct(k: real, d: real)
    ensures Times(k * d, k * d) == k * k * (d * d)
  {
  }

  /** A normalised product is within k exactly if its square is within k^2 of the energy. */
  lemma NormalisedWithin(product: real, energy: real, k: real, root: Root)
    requires IsRoot(root) && energy > 0.0 && k >= 0.0
    ensures Abs(Normalised(product, energy, root)) <= k <==> product * product <= k * k * energy
  {
    var d := root(energy);
    assert d >= 0.0 && d * d == energy;
    if d == 0.0 { assert false; }
    AbsOfQuotient(product, d, k);
    ProductNonNegative(k, d);
    AbsSquare(product);
    SquaresOrdered(Abs(product), k * d);
    SquareOfProduct(k, d);
  }

  lemma PearsonOfCentered(s: Signal, e: Signal, root: Root)
    requires |s| == |e| >= 12 && Centered(s) == s && Centered(e) == e
    ensures Pearson(s, e, root) == Normalised(Dot(s, e), Energy(s, e), root)
  {
    hide Dot, Centered, Energy, Normalised;
    assert s[..|s|] == s && e[..|e|] == e;
  }

  /**
   A window can be judged exactly if it has 480 samples, a reference is active, the microphone heard
   something, and two active references are not too alike. The determinant the solve divides by is then
   positive without further ado.
   */
  lemma IdentifiableExactlyWhen(w: Slices, root: Root)
    requires w.Valid() && IsRoot(root)
    ensures var t := Derive(w, root);
            && (t.identifiable <==>
                  && |w.pre| >= MINIMUM_WINDOW && (t.sourceActive || t.echoActive) && t.energy > 0.000000000001
                  && (t.Dual() ==> t.se * t.se <= 0.9604 * (t.ss * t.ee)))
            && (t.Dual() && t.se * t.se <= 0.9604 * (t.ss * t.ee) ==> t.ss * t.ee - t.se * t.se > 0.0)
  {
    hide Dot, Centered, Pearson, IsActive, Normalised;
    var t := Derive(w, root);
    DerivedSignals(w, root);
    if t.Dual() {
      ProductPositive(t.ss, t.ee);
      var energy := Energy(t.s, t.e);
      assert energy == t.ss * t.ee;
      if |w.pre| >= MINIMUM_WINDOW {
        CenteredTwice(w.source);
        CenteredTwice(w.physical);
        PearsonOfCentered(t.s, t.e, root);
        NormalisedWithin(t.se, energy, MAXIMUM_REFERENCE_CORRELATION, root);
      }
    }
  }
}
