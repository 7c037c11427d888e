/**
 What the evaluation says of noisy recordings: mixtures of the references plus noise that is
 orthogonal to them. The coefficients are still recovered, the noise is what stays unexplained, and
 the echo coefficients count three standard errors less before and three more after.
 */
module AecNoise {
  import opened LeastSquares
  import opened Correlation
  import opened AecWindow
  import opened AecVerdict
  import opened AecMixture

  // ----- the standard error -----

  /**
   `sigma` is the standard error of the echo coefficient when `residual` is left unexplained by
   a fit over n samples: its square times n - 2 degrees of freedom and the energy the echo
   reference does not share with the source is that residual.
   */
  ghost predicate IsStandardError(t: Terms, residual: real, sigma: real)
    requires t.Valid()
  {
    && sigma >= 0.0
    && if t.Dual() then sigma * sigma * ((|t.s| - 2) as real * (t.ss * t.ee - t.se * t.se)) == t.ss * residual
       else sigma * sigma * ((|t.s| - 2) as real * t.ee) == residual
  }

  lemma SquareOfQuotient(r: real, share: real, freedom: real)
    requires freedom > 0.0 && r * r == share / freedom
    ensures (r * 3.0) * (r * 3.0) * freedom == 9.0 * share
  {
    assert (r * 3.0) * (r * 3.0) == 9.0 * (r * r);
    assert (share / freedom) * freedom == share;
  }

  lemma QuotientTimes(x: real, y: real, k: real, n: real)
    requires y > 0.0 && k * n == 9.0 * (x / y)
    ensures k * (n * y) == 9.0 * x
  {
    assert (x / y) * y == x;
    assert k * (n * y) == (k * n) * y;
  }

  lemma ThreeRoots(root: Root, x: real, y: real, n: real)
    requires IsRoot(root) && x >= 0.0 && y > 0.0 && n > 0.0
    ensures var u := root(x / y / n) * 3.0; u >= 0.0 && Times(Times(u, u), Times(n, y)) == 9.0 * x
  {
    QuotientNonNegative(x, y);
    QuotientNonNegative(x / y, n);
    var r := root(x / y / n);
    assert r >= 0.0 && r * r == x / y / n;
    SquareOfQuotient(r, x / y, n);
    QuotientTimes(x, y, (r * 3.0) * (r * 3.0), n);
  }

  lemma DualUncertainty(t: Terms, root: Root)
    requires t.Valid() && IsRoot(root) && t.identifiable && t.Dual()
    ensures var u, n := EchoUncertainty(t, root), (|t.s| - 2) as real;
            u >= 0.0 && u * u * (n * (t.ss * t.ee - t.se * t.se)) == 9.0 * t.ss
  {
    hide Dot, IsRoot, EchoUncertainty, Times;
    var n, determinant := (|t.s| - 2) as real, t.ss * t.ee - t.se * t.se;
    DualUncertaintyIs(t, root, determinant);
    ThreeRoots(root, t.ss, determinant, n);
    TimesIs(EchoUncertainty(t, root), n, determinant);
  }

  lemma DualUncertaintyIs(t: Terms, root: Root, determinant: real)
    requires t.Valid() && t.identifiable && t.Dual() && determinant == t.ss * t.ee - t.se * t.se
    ensures determinant > 0.0 && EchoUncertainty(t, root) == root(t.ss / determinant / (|t.s| - 2) as real) * 3.0
  {
    hide Dot;
    assert EchoVariance(t) == t.ss / determinant;
  }

  lemma EchoUncertaintyAlone(t: Terms, root: Root)
    requires t.Valid() && IsRoot(root) && t.identifiable && t.echoActive && !t.sourceActive
    ensures var u, n := EchoUncertainty(t, root), (|t.s| - 2) as real;
            u >= 0.0 && u * u * (n * t.ee) == 9.0
  {
    hide Dot, IsRoot;
    var n := (|t.s| - 2) as real;
    ThreeRoots(root, 1.0, t.ee, n);
    TimesIs(EchoUncertainty(t, root), n, t.ee);
  }

  lemma TimesIs(u: real, n: real, y: real)
    ensures Times(Times(u, u), Times(n, y)) == u * u * (n * y)
  {
  }

  /** Per unit of unexplained rms, the bound is three standard errors. */
  lemma UncertaintyIsThreeSigma(t: Terms, root: Root)
    requires t.Valid() && IsRoot(root) && t.identifiable && t.echoActive
    ensures var u, n := EchoUncertainty(t, root), (|t.s| - 2) as real;
            && u >= 0.0
            && (t.Dual() ==> u * u * (n * (t.ss * t.ee - t.se * t.se)) == 9.0 * t.ss)
            && (!t.Dual() ==> u * u * (n * t.ee) == 9.0)
  {
    hide Dot;
    if t.Dual() {
      DualUncertainty(t, root);
    } else {
      EchoUncertaintyAlone(t, root);
    }
  }

  lemma SameSquares(x: real, y: real)
    requires x >= 0.0 && y >= 0.0 && x * x == y * y
    ensures x == y
  {
    if x < y { SquareGrows(x, y); }
    if y < x { SquareGrows(y, x); }
  }

  /** u^2 k = 9 x, q^2 = v and sigma^2 k = x v make u q three sigma. */
  lemma ThreeSigmaOf(u: real, q: real, sigma: real, k: real, x: real, v: real)
    requires u >= 0.0 && q >= 0.0 && sigma >= 0.0 && k > 0.0
    requires u * u * k == 9.0 * x && q * q == v && sigma * sigma * k == x * v
    ensures u * q == 3.0 * sigma
  {
    ProductNonNegative(u, q);
    assert ((u * q) * (u * q)) * k == (u * u * k) * (q * q);
    assert (9.0 * x) * v == 9.0 * (x * v);
    assert ((3.0 * sigma) * (3.0 * sigma)) * k == 9.0 * (sigma * sigma * k);
    CancelFactor((u * q) * (u * q), (3.0 * sigma) * (3.0 * sigma), k);
    SameSquares(u * q, 3.0 * sigma);
  }

  lemma MarginIsThreeSigma(t: Terms, root: Root, residual: real, sigma: real)
    requires t.Valid() && IsRoot(root) && t.identifiable && t.echoActive && residual >= 0.0
    requires IsStandardError(t, residual, sigma)
    ensures EchoUncertainty(t, root) * root(residual) == 3.0 * sigma
  {
    hide EchoUncertainty, Dot;
    UncertaintyIsThreeSigma(t, root);
    var u, n, q := EchoUncertainty(t, root), (|t.s| - 2) as real, root(residual);
    if t.Dual() {
      ProductPositive(n, t.ss * t.ee - t.se * t.se);
      ThreeSigmaOf(u, q, sigma, n * (t.ss * t.ee - t.se * t.se), t.ss, residual);
    } else {
      ProductPositive(n, t.ee);
      ThreeSigmaOf(u, q, sigma, n * t.ee, 1.0, residual);
    }
  }

  // ----- mixtures with noise -----

  /** y is a of s and b of e, with any constant offset, and noise on top. */
  ghost predicate NoisyMix(y: Signal, s: Signal, e: Signal, noise: Signal, a: real, b: real, offset: real)
    requires |y| == |s| == |e| == |noise|
  {
    forall i :: 0 <= i < |y| ==> y[i] == Mixed(s[i], e[i], a, b) + offset + noise[i]
  }

  /** The same of centred signals. */
  ghost predicate IsNoisy(y: Signal, s: Signal, e: Signal, noise: Signal, a: real, b: real)
    requires |y| == |s| == |e| == |noise|
  {
    forall i :: 0 <= i < |y| ==> y[i] == Mixed(s[i], e[i], a, b) + noise[i]
  }

  /** What is left of y without the noise. */
  function Without(y: Signal, noise: Signal): (c: Signal)
    requires |y| == |noise|
    ensures |c| == |y| && forall i :: 0 <= i < |y| ==> c[i] == y[i] - noise[i]
  {
    seq(|y|, i requires 0 <= i < |y| => y[i] - noise[i])
  }

  lemma {:induction false} SumWithout(y: Signal, noise: Signal)
    requires |y| == |noise|
    ensures Sum(y) == Sum(Without(y, noise)) + Sum(noise)
  {
    if y != [] {
      SumWithout(y[1..], noise[1..]);
      assert Without(y, noise)[1..] == Without(y[1..], noise[1..]);
    }
  }

  lemma MeanWithout(y: Signal, noise: Signal)
    requires |y| == |noise| > 0
    ensures Mean(y) == Mean(Without(y, noise)) + Mean(noise)
  {
    SumWithout(y, noise);
  }

  lemma CenteredNoisy(y: Signal, s: Signal, e: Signal, noise: Signal, a: real, b: real, offset: real)
    requires |y| == |s| == |e| == |noise| > 0 && NoisyMix(y, s, e, noise, a, b, offset)
    ensures IsNoisy(Centered(y), Centered(s), Centered(e), Centered(noise), a, b)
  {
    hide Mean, Mixed, Sum;
    var clean := Without(y, noise);
    assert Mixes(clean, s, e, a, b, offset);
    CenteredMixes(clean, s, e, a, b, offset);
    MeanWithout(y, noise);
    forall i | 0 <= i < |y| ensures Centered(y)[i] == Mixed(Centered(s)[i], Centered(e)[i], a, b) + Centered(noise)[i] {
      assert Centered(clean)[i] == a * Centered(s)[i] + b * Centered(e)[i];
      MixedIs(Centered(s)[i], Centered(e)[i], a, b);
    }
  }

  lemma MixedIs(x: real, y: real, a: real, b: real)
    ensures Mixed(x, y, a, b) == a * x + b * y
  {
  }

  lemma AddNoiseTerm(r: real, y: real, mixed: real, f: real, dy: real, dm: real, df: real)
    requires y == mixed + f && dy == dm + df
    ensures Times(r, y) + dy == (Times(r, mixed) + dm) + (Times(r, f) + df)
  {
  }

  /** An inner product with y is that with the mixture plus that with the noise. */
  lemma {:induction false} DotWithout(r: Signal, y: Signal, noise: Signal)
    requires |r| == |y| == |noise|
    ensures Dot(r, y) == Dot(r, Without(y, noise)) + Dot(r, noise)
  {
    hide Dot, Times;
    if y == [] {
      DotOfNothing(r, y, noise);
    } else {
      var clean := Without(y, noise);
      DotWithout(r[1..], y[1..], noise[1..]);
      assert clean[1..] == Without(y[1..], noise[1..]);
      DotUnfold(r, y);
      DotUnfold(r, clean);
      DotUnfold(r, noise);
      AddNoiseTerm(r[0], y[0], clean[0], noise[0], Dot(r[1..], y[1..]), Dot(r[1..], clean[1..]),
                   Dot(r[1..], noise[1..]));
    }
  }

  lemma DotOfNothing(r: Signal, y: Signal, noise: Signal)
    requires |r| == |y| == |noise| == 0
    ensures Dot(r, y) == 0.0 == Dot(r, Without(y, noise)) == Dot(r, noise)
  {
  }

  lemma WithoutNoiseIsMixture(y: Signal, s: Signal, e: Signal, noise: Signal, a: real, b: real)
    requires |y| == |s| == |e| == |noise| && IsNoisy(y, s, e, noise, a, b)
    ensures IsMixture(Without(y, noise), s, e, a, b)
  {
    hide Mixed;
    forall i | 0 <= i < |y| ensures Without(y, noise)[i] == a * s[i] + b * e[i] {
      assert y[i] == Mixed(s[i], e[i], a, b) + noise[i];
      MixedIs(s[i], e[i], a, b);
    }
  }

  /** Orthogonal noise is invisible to the references. */
  lemma NoisyDot(r: Signal, y: Signal, s: Signal, e: Signal, noise: Signal, a: real, b: real)
    requires |r| == |y| == |s| == |e| == |noise| && IsNoisy(y, s, e, noise, a, b) && Dot(r, noise) == 0.0
    ensures Dot(r, y) == Mixed(Dot(r, s), Dot(r, e), a, b)
  {
    hide Dot, Mixed, IsMixture, IsNoisy;
    DotWithout(r, y, noise);
    WithoutNoiseIsMixture(y, s, e, noise, a, b);
    MixtureDotMixed(r, Without(y, noise), s, e, a, b);
  }

  lemma ResidualUnfold(y: Signal, s: Signal, e: Signal, a: real, b: real)
    requires |y| == |s| == |e| > 0
    ensures var d := y[0] - a * s[0] - b * e[0];
            Residual(y, s, e, a, b) == Times(d, d) + Residual(y[1..], s[1..], e[1..], a, b)
  {
  }

  /** Taking the mixture away leaves the noise. */
  lemma {:induction false} NoisyResidual(y: Signal, s: Signal, e: Signal, noise: Signal, a: real, b: real)
    requires |y| == |s| == |e| == |noise| && IsNoisy(y, s, e, noise, a, b)
    ensures Residual(y, s, e, a, b) == Dot(noise, noise)
  {
    hide Mixed, Times;
    if y != [] {
      NoisyResidual(y[1..], s[1..], e[1..], noise[1..], a, b);
      MixedIs(s[0], e[0], a, b);
      ResidualUnfold(y, s, e, a, b);
      DotUnfold(noise, noise);
      assert y[0] - a * s[0] - b * e[0] == noise[0];
    }
  }

  lemma MixedOne(x: real, y: real, gain: real)
    ensures Mixed(x, y, gain, 0.0) == gain * x
  {
  }

  /** One reference alone. */
  lemma SingleRecoversNoisy(y: Signal, r: Signal, other: Signal, noise: Signal, gain: real)
    requires |y| == |r| == |other| == |noise| && Dot(r, r) > 0.0
    requires IsNoisy(y, r, other, noise, gain, 0.0) && Dot(r, noise) == 0.0
    ensures Dot(r, y) / Dot(r, r) == gain && SingleResidual(y, r, gain) == Dot(noise, noise)
  {
    hide Dot, Residual, SingleResidual, IsNoisy;
    NoisyDot(r, y, r, other, noise, gain, 0.0);
    MixedOne(Dot(r, r), Dot(r, other), gain);
    QuotientOfProduct(gain, Dot(r, r));
    SingleIsSourceOnly(y, r, other, gain);
    NoisyResidual(y, r, other, noise, gain, 0.0);
  }

  lemma NoisySolves(y: Signal, s: Signal, e: Signal, noise: Signal, a: real, b: real)
    requires |y| == |s| == |e| == |noise| && IsNoisy(y, s, e, noise, a, b)
    requires Dot(s, noise) == 0.0 == Dot(e, noise)
    ensures SolvesNormalEquations(y, s, e, a, b)
  {
    hide Dot, IsNoisy, SolvesNormalEquations, Mixed;
    NoisyDot(s, y, s, e, noise, a, b);
    NoisyDot(e, y, s, e, noise, a, b);
    TheySolve(y, s, e, a, b);
  }

  /** Both references. */
  lemma GainsRecoverNoisy(y: Signal, s: Signal, e: Signal, noise: Signal, a: real, b: real)
    requires |y| == |s| == |e| == |noise| && IsNoisy(y, s, e, noise, a, b)
    requires Dot(s, noise) == 0.0 == Dot(e, noise) && Dot(s, s) * Dot(e, e) - Dot(s, e) * Dot(s, e) != 0.0
    ensures Gains(y, s, e, Dot(s, s), Dot(e, e), Dot(s, e)) == Fit(a, b, Dot(noise, noise))
  {
    hide Cramer, Residual, Dot, IsNoisy, SolvesNormalEquations;
    var fit := Gains(y, s, e, Dot(s, s), Dot(e, e), Dot(s, e));
    GainsSolve(y, s, e);
    NoisySolves(y, s, e, noise, a, b);
    SolutionsAreUnique(y, s, e, fit.a, fit.b, a, b);
    NoisyResidual(y, s, e, noise, a, b);
  }

  lemma Swapped(y: Signal, s: Signal, e: Signal, noise: Signal, b: real)
    requires |y| == |s| == |e| == |noise| && IsNoisy(y, s, e, noise, 0.0, b)
    ensures IsNoisy(y, e, s, noise, b, 0.0)
  {
  }

  /** The solve over the references in use recovers the coefficients and leaves the noise. */
  lemma SolveRecoversNoisy(t: Terms, y: Signal, noise: Signal, a: real, b: real)
    requires t.Valid() && |y| == |t.s| == |noise| && t.identifiable && IsNoisy(y, t.s, t.e, noise, a, b)
    requires (!t.sourceActive ==> a == 0.0) && (!t.echoActive ==> b == 0.0)
    requires (t.sourceActive ==> Dot(t.s, noise) == 0.0) && (t.echoActive ==> Dot(t.e, noise) == 0.0)
    ensures Solve(t, y) == Fit(a, b, Dot(noise, noise))
  {
    hide Dot, Residual, SingleResidual, Gains, IsNoisy;
    if t.Dual() {
      GainsRecoverNoisy(y, t.s, t.e, noise, a, b);
    } else if t.sourceActive {
      SingleRecoversNoisy(y, t.s, t.e, noise, a);
    } else {
      Swapped(y, t.s, t.e, noise, b);
      SingleRecoversNoisy(y, t.e, t.s, noise, b);
    }
  }

  /** Coefficients, offset and noise of one recording. */
  datatype Recipe = Recipe(a: real, b: real, offset: real, noise: Signal)

  /** The recording follows the recipe, over the references in use, with noise orthogonal to them. */
  ghost predicate Follows(y: Signal, w: Slices, root: Root, r: Recipe)
    requires w.Valid() && |y| == |w.pre|
  {
    var t := Derive(w, root);
    && |r.noise| == |y| && NoisyMix(y, w.source, w.physical, r.noise, r.a, r.b, r.offset)
    && (!t.sourceActive ==> r.a == 0.0) && (!t.echoActive ==> r.b == 0.0)
    && (t.sourceActive ==> Dot(t.s, Centered(r.noise)) == 0.0)
    && (t.echoActive ==> Dot(t.e, Centered(r.noise)) == 0.0)
  }

  /** The energy of the noise about its mean. */
  ghost function NoiseEnergy(r: Recipe): real
    requires r.noise != []
  {
    Dot(Centered(r.noise), Centered(r.noise))
  }

  lemma NoisyGains(y: Signal, c: Signal, w: Slices, root: Root, r: Recipe)
    requires w.Valid() && |y| == |w.pre| && Follows(y, w, root, r) && Derive(w, root).identifiable && c == Centered(y)
    ensures Solve(Derive(w, root), c) == Fit(r.a, r.b, NoiseEnergy(r))
  {
    hide Dot, Solve, NoisyMix, IsNoisy, Centered, Derive;
    DerivedSignals(w, root);
    CenteredNoisy(y, w.source, w.physical, r.noise, r.a, r.b, r.offset);
    SolveRecoversNoisy(Derive(w, root), c, Centered(r.noise), r.a, r.b);
  }

  /**
   The thresholds for noisy recordings: at most a fifth of the energy is noise, before and after; the
   source is kept; and of the echo coefficients the one before counts three standard errors less, the
   one after three more.
   */
  ghost predicate MeetWithNoise(t: Terms, before: Recipe, after: Recipe, sigma: real, tau: real, tolerance: real)
    requires t.Valid() && before.noise != [] && after.noise != []
  {
    && 5.0 * NoiseEnergy(before) <= t.energy && 5.0 * NoiseEnergy(after) <= t.energy
    && (t.sourceActive ==>
          && before.a > 0.01 && after.a > 0.0
          && before.a <= tolerance * after.a && after.a <= tolerance * before.a)
    && (t.echoActive ==>
          && Abs(before.b) - 3.0 * sigma > 0.01
          && 10.0 * (Abs(after.b) + 3.0 * tau) <= Abs(before.b) - 3.0 * sigma)
  }

  /**
   A window of mixtures with noise orthogonal to the identifiable references passes if and only if
   coefficients, noise and standard errors meet these thresholds.
   */
  lemma NoisyWindowPassesExactlyWhen(start: nat, w: Slices, root: Root, tolerance: real,
                                     before: Recipe, after: Recipe, sigma: real, tau: real)
    requires w.Valid() && tolerance > 1.0 && IsRoot(root) && Derive(w, root).identifiable
    requires Follows(w.pre, w, root, before) && Follows(w.post, w, root, after)
    requires Derive(w, root).echoActive ==>
               && IsStandardError(Derive(w, root), NoiseEnergy(before), sigma)
               && IsStandardError(Derive(w, root), NoiseEnergy(after), tau)
    ensures Analyze(start, w, root, tolerance).passed
            <==> MeetWithNoise(Derive(w, root), before, after, sigma, tau, tolerance)
  {
    hide Analyze, Derive, Solve, Dot, EchoUncertainty, Follows, IsStandardError, Centered;
    var t := Derive(w, root);
    DerivedSignals(w, root);
    HaveNoise(w.pre, w, root, before);
    HaveNoise(w.post, w, root, after);
    NoisyGains(w.pre, t.p, w, root, before);
    NoisyGains(w.post, t.q, w, root, after);
    PassedExactlyWhen(start, w, root, tolerance);
    DotSelfNonNegative(Centered(before.noise));
    DotSelfNonNegative(Centered(after.noise));
    if t.echoActive {
      MarginIsThreeSigma(t, root, NoiseEnergy(before), sigma);
      MarginIsThreeSigma(t, root, NoiseEnergy(after), tau);
    }
  }

  lemma HaveNoise(y: Signal, w: Slices, root: Root, r: Recipe)
    requires w.Valid() && |y| == |w.pre| && Follows(y, w, root, r)
    ensures r.noise != []
  {
  }
}
