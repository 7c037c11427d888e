/**
 What the evaluation says of ideal recordings: when microphone and output are exact mixtures of
 the two references, the verdict is about the mixing coefficients and nothing else.
 */
module AecMixture {
  import opened LeastSquares
  import opened Correlation
  import opened AecWindow
  import opened AecVerdict

  /** y is a of s and b of e, with any constant offset. */
  ghost predicate Mixes(y: Signal, s: Signal, e: Signal, a: real, b: real, offset: real)
    requires |y| == |s| == |e|
  {
    forall i :: 0 <= i < |y| ==> y[i] == Mixed(s[i], e[i], a, b) + offset
  }

  lemma MixedAdds(s: real, e: real, s': real, e': real, a: real, b: real)
    ensures Mixed(s + s', e + e', a, b) == Mixed(s, e, a, b) + Mixed(s', e', a, b)
  {
  }

  lemma {:induction false} SumMixes(y: Signal, s: Signal, e: Signal, a: real, b: real, offset: real)
    requires |y| == |s| == |e| && Mixes(y, s, e, a, b, offset)
    ensures Sum(y) == Mixed(Sum(s), Sum(e), a, b) + Times(offset, |y| as real)
  {
    hide Mixed;
    if y == [] {
      MixedNothing(a, b);
    } else {
      assert Mixes(y[1..], s[1..], e[1..], a, b, offset);
      SumMixes(y[1..], s[1..], e[1..], a, b, offset);
      MixedAdds(s[0], e[0], Sum(s[1..]), Sum(e[1..]), a, b);
    }
  }

  lemma MixedScales(x: real, y: real, a: real, b: real, n: real)
    requires n > 0.0
    ensures Mixed(x, y, a, b) / n == Mixed(x / n, y / n, a, b)
  {
  }

  lemma MeanIsMixed(y: Signal, s: Signal, e: Signal, a: real, b: real, offset: real)
    requires |y| == |s| == |e| > 0 && Mixes(y, s, e, a, b, offset)
    ensures Mean(y) == Mixed(Mean(s), Mean(e), a, b) + offset
  {
    hide Mixed, Times, Sum;
    var n := |y| as real;
    SumMixes(y, s, e, a, b, offset);
    MixedScales(Sum(s), Sum(e), a, b, n);
    MeanMixes(Sum(y), Mixed(Sum(s), Sum(e), a, b), offset, n);
  }

  lemma DifferenceMixes(y: real, s: real, e: real, a: real, b: real, offset: real, m: real, ms: real, me: real)
    requires y == Mixed(s, e, a, b) + offset && m == Mixed(ms, me, a, b) + offset
    ensures y - m == a * (s - ms) + b * (e - me)
  {
  }

  /** Centring takes the offset away and keeps the mixture. */
  lemma CenteredMixes(y: Signal, s: Signal, e: Signal, a: real, b: real, offset: real)
    requires |y| == |s| == |e| > 0 && Mixes(y, s, e, a, b, offset)
    ensures IsMixture(Centered(y), Centered(s), Centered(e), a, b)
  {
    hide Mixed, Mean;
    MeanIsMixed(y, s, e, a, b, offset);
    forall i | 0 <= i < |y| ensures Centered(y)[i] == a * Centered(s)[i] + b * Centered(e)[i] {
      DifferenceMixes(y[i], s[i], e[i], a, b, offset, Mean(y), Mean(s), Mean(e));
    }
  }

  lemma MeanMixes(total: real, mixed: real, offset: real, n: real)
    requires n > 0.0 && total == mixed + Times(offset, n)
    ensures total / n == mixed / n + offset
  {
  }

  /** One reference alone is recovered as exactly as both. */
  lemma SingleRecovers(y: Signal, r: Signal, other: Signal, gain: real)
    requires |y| == |r| == |other| && Dot(r, r) > 0.0 && IsMixture(y, r, other, gain, 0.0)
    ensures Dot(r, y) / Dot(r, r) == gain && SingleResidual(y, r, gain) == 0.0
  {
    hide Dot, Residual, SingleResidual;
    MixtureDot(r, y, r, other, gain, 0.0);
    QuotientOfProduct(gain, Dot(r, r));
    SingleIsSourceOnly(y, r, other, gain);
    MixtureResidual(y, r, other, gain, 0.0);
  }

  lemma QuotientOfProduct(x: real, y: real)
    requires y != 0.0
    ensures x * y / y == x
  {
  }

  /** The solve over the active references recovers the coefficients and leaves nothing. */
  lemma SolveRecovers(t: Terms, y: Signal, a: real, b: real)
    requires t.Valid() && |y| == |t.s| && t.identifiable && IsMixture(y, t.s, t.e, a, b)
    requires (!t.sourceActive ==> a == 0.0) && (!t.echoActive ==> b == 0.0)
    ensures Solve(t, y) == Fit(a, b, 0.0)
  {
    hide Dot, Residual, SingleResidual, Gains;
    if t.Dual() {
      GainsRecoverMixture(y, t.s, t.e, a, b);
    } else if t.sourceActive {
      SingleRecovers(y, t.s, t.e, a);
    } else {
      SingleRecovers(y, t.e, t.s, b);
    }
  }

  lemma OneFactorIsZero(x: real, y: real)
    requires x * y == 0.0 && y != 0.0
    ensures x == 0.0
  {
  }

  lemma RootOfNothing(root: Root, x: real)
    requires IsRoot(root) && x == 0.0
    ensures root(x) == 0.0
  {
    assert root(x) >= 0.0 && root(x) * root(x) == x;
    if root(x) != 0.0 { OneFactorIsZero(root(x), root(x)); }
  }

  /** The thresholds, met by the coefficients before (a, b) and after (c, d). */
  predicate MeetThresholds(sourceActive: bool, echoActive: bool, a: real, b: real, c: real, d: real, tolerance: real) {
    && (sourceActive ==> a > 0.01 && c > 0.0 && a <= tolerance * c && c <= tolerance * a)
    && (echoActive ==> Abs(b) > 0.01 && 10.0 * Abs(d) <= Abs(b))
  }

  /** Both recordings of the window are mixtures of the references in use. */
  ghost predicate IsIdeal(w: Slices, root: Root, a: real, b: real, c: real, d: real, before: real, after: real)
    requires w.Valid()
  {
    var t := Derive(w, root);
    && Mixes(w.pre, w.source, w.physical, a, b, before) && Mixes(w.post, w.source, w.physical, c, d, after)
    && (!t.sourceActive ==> a == 0.0 == c) && (!t.echoActive ==> b == 0.0 == d)
  }

  /** The gains of an ideal window are its coefficients. */
  lemma IdealGains(w: Slices, root: Root, a: real, b: real, c: real, d: real, before: real, after: real)
    requires w.Valid() && IsIdeal(w, root, a, b, c, d, before, after) && Derive(w, root).identifiable
    ensures Before(w, root) == Fit(a, b, 0.0) && After(w, root) == Fit(c, d, 0.0)
  {
    hide Dot, Solve, Mixes, IsMixture, Centered;
    var t := Derive(w, root);
    CenteredMixes(w.pre, w.source, w.physical, a, b, before);
    CenteredMixes(w.post, w.source, w.physical, c, d, after);
    DerivedSignals(w, root);
    SolveRecovers(t, t.p, a, b);
    SolveRecovers(t, t.q, c, d);
  }

  lemma DerivedSignals(w: Slices, root: Root)
    requires w.Valid()
    ensures var t := Derive(w, root);
            && t.s == Centered(w.source) && t.e == Centered(w.physical)
            && t.p == Centered(w.pre) && t.q == Centered(w.post)
  {
    hide Dot, Centered, Pearson;
  }

  /**
   A window of exact mixtures whose references are identifiable passes if and only if the
   coefficients meet the thresholds: with nothing left unexplained there is no uncertainty either,
   so the pessimistic bounds are the coefficients themselves.
   */
  lemma IdealWindowPassesExactlyWhen(start: nat, w: Slices, root: Root, tolerance: real,
                                     a: real, b: real, c: real, d: real, before: real, after: real)
    requires w.Valid() && tolerance > 1.0 && IsRoot(root)
    requires Derive(w, root).identifiable && IsIdeal(w, root, a, b, c, d, before, after)
    ensures var t := Derive(w, root);
            Analyze(start, w, root, tolerance).passed
            <==> MeetThresholds(t.sourceActive, t.echoActive, a, b, c, d, tolerance)
  {
    hide Analyze, Derive, Solve, Dot, EchoUncertainty, IsIdeal, Before, After;
    IdealGains(w, root, a, b, c, d, before, after);
    PassedExactlyWhen(start, w, root, tolerance);
    RootOfNothing(root, 0.0);
    var uncertainty := EchoUncertainty(Derive(w, root), root);
    assert uncertainty * root(0.0) == 0.0;
  }
}
