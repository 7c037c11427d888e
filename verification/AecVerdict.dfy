/**
 What a passed window means: its gains are least-squares optimal, the echo really was cut to
 a tenth, and the source kept its level. The verdict fails closed: noise can only make it fail.
 */
module AecVerdict {
  import opened LeastSquares
  import opened Correlation
  import opened AecWindow

  /** No gains on the references in use leave less of y than `fit` does. */
  ghost predicate Optimal(y: Signal, s: Signal, e: Signal, useS: bool, useE: bool, fit: Fit)
    requires |y| == |s| == |e|
  {
    && fit.residual == Residual(y, s, e, fit.a, fit.b)
    && (!useS ==> fit.a == 0.0) && (!useE ==> fit.b == 0.0)
    && forall a, b :: (useS || a == 0.0) && (useE || b == 0.0) ==> fit.residual <= Residual(y, s, e, a, b)
  }

  lemma {:induction false} SingleIsSourceOnly(y: Signal, r: Signal, other: Signal, gain: real)
    requires |y| == |r| == |other|
    ensures SingleResidual(y, r, gain) == Residual(y, r, other, gain, 0.0)
  {
    if y != [] {
      SingleIsSourceOnly(y[1..], r[1..], other[1..], gain);
      assert 0.0 * other[0] == 0.0;
    }
  }

  lemma {:induction false} SingleIsEchoOnly(y: Signal, r: Signal, other: Signal, gain: real)
    requires |y| == |r| == |other|
    ensures SingleResidual(y, r, gain) == Residual(y, other, r, 0.0, gain)
  {
    if y != [] {
      SingleIsEchoOnly(y[1..], r[1..], other[1..], gain);
      assert 0.0 * other[0] == 0.0;
    }
  }

  /** One reference: the quotient of the inner products is the best gain. */
  lemma SingleOptimal(y: Signal, r: Signal, gain: real, other: real)
    requires |y| == |r| && Dot(r, r) > 0.0 && gain == Dot(r, y) / Dot(r, r)
    ensures SingleResidual(y, r, gain) <= SingleResidual(y, r, other)
  {
    var zero := seq(|r|, i => 0.0);
    DotZero(r, zero);
    DotZero(zero, zero);
    DotZero(y, zero);
    DotCommutes(y, zero);
    assert gain * Dot(r, r) == Dot(r, y);
    assert SolvesNormalEquations(y, r, zero, gain, 0.0);
    SingleIsSourceOnly(y, r, zero, gain);
    SingleIsSourceOnly(y, r, zero, other);
    NormalEquationsMinimise(y, r, zero, gain, 0.0, other, 0.0);
  }

  lemma DualIsOptimal(t: Terms, y: Signal)
    requires t.Valid() && |y| == |t.s| && t.identifiable && t.Dual()
    ensures Optimal(y, t.s, t.e, true, true, Solve(t, y))
  {
    hide Cramer, Residual, Dot;
    GainsSolve(y, t.s, t.e);
    forall a, b ensures Solve(t, y).residual <= Residual(y, t.s, t.e, a, b) {
      GainsAreOptimal(y, t.s, t.e, a, b);
    }
  }

  lemma SourceOnlyIsOptimal(t: Terms, y: Signal)
    requires t.Valid() && |y| == |t.s| && t.identifiable && t.sourceActive && !t.echoActive
    ensures Optimal(y, t.s, t.e, true, false, Solve(t, y))
  {
    hide Residual, SingleResidual, Dot;
    var fit := Solve(t, y);
    SingleIsSourceOnly(y, t.s, t.e, fit.a);
    forall a ensures fit.residual <= Residual(y, t.s, t.e, a, 0.0) {
      SingleOptimal(y, t.s, fit.a, a);
      SingleIsSourceOnly(y, t.s, t.e, a);
    }
  }

  lemma EchoOnlyIsOptimal(t: Terms, y: Signal)
    requires t.Valid() && |y| == |t.s| && t.identifiable && !t.sourceActive && t.echoActive
    ensures Optimal(y, t.s, t.e, false, true, Solve(t, y))
  {
    hide Residual, SingleResidual, Dot;
    var fit := Solve(t, y);
    SingleIsEchoOnly(y, t.e, t.s, fit.b);
    forall b ensures fit.residual <= Residual(y, t.s, t.e, 0.0, b) {
      SingleOptimal(y, t.e, fit.b, b);
      SingleIsEchoOnly(y, t.e, t.s, b);
    }
  }

  /** In an identifiable window both solves are optimal over the references in use. */
  lemma SolveIsOptimal(t: Terms, y: Signal)
    requires t.Valid() && |y| == |t.s| && t.identifiable
    ensures Optimal(y, t.s, t.e, t.sourceActive, t.echoActive, Solve(t, y))
  {
    if t.Dual() {
      DualIsOptimal(t, y);
    } else if t.sourceActive {
      SourceOnlyIsOptimal(t, y);
    } else {
      EchoOnlyIsOptimal(t, y);
    }
  }

  /** A solve leaves between nothing and, of the signal it is measured against, everything. */
  lemma SolveBounds(t: Terms, y: Signal)
    requires t.Valid() && |y| == |t.s|
    ensures Solve(t, y).residual >= 0.0
    ensures t.identifiable ==> Solve(t, y).residual <= Dot(y, y)
    ensures !t.identifiable ==> Solve(t, y).residual == t.energy
  {
    hide Residual, SingleResidual, Dot, Cramer;
    if t.identifiable {
      SolveIsOptimal(t, y);
      var fit := Solve(t, y);
      ResidualNonNegative(y, t.s, t.e, fit.a, fit.b);
      EnergyIsResidualOfNothing(y, t.s, t.e);
    } else {
      DotSelfNonNegative(t.p);
    }
  }

  lemma RatioInUnit(x: real, y: real)
    requires 0.0 <= x <= y && y > 0.0
    ensures 0.0 <= x / y <= 1.0
  {
  }

  /** For every window, whatever its verdict, the pre-cancellation unexplained ratio lies in [0, 1]. */
  lemma PreUnexplainedInUnit(start: nat, w: Slices, root: Root, tolerance: real)
    requires w.Valid() && tolerance > 1.0
    ensures 0.0 <= Analyze(start, w, root, tolerance).preUnexplained <= 1.0
  {
    hide Derive, Solve, Dot;
    var t := Derive(w, root);
    SolveBounds(t, t.p);
    if t.energy > 0.000000000001 {
      RatioInUnit(Solve(t, t.p).residual, t.energy);
    }
  }

  lemma UncertaintyNonNegative(t: Terms, root: Root)
    requires t.Valid() && IsRoot(root)
    ensures EchoUncertainty(t, root) >= 0.0
  {
    hide Dot;
    if t.identifiable && t.echoActive {
      assert EchoVariance(t) >= 0.0;
      QuotientNonNegative(EchoVariance(t), (|t.s| - 2) as real);
    }
  }

  lemma QuotientNonNegative(x: real, y: real)
    requires x >= 0.0 && y > 0.0
    ensures x / y >= 0.0
  {
  }

  lemma RatioAtLeast(x: real, y: real, k: real)
    requires y > 0.0 && x / y >= k
    ensures x >= k * y
  {
    assert x == (x / y) * y;
    ProductNonNegative(x / y - k, y);
  }

  lemma RatioAtMost(x: real, y: real, k: real)
    requires y > 0.0 && x / y <= k
    ensures x <= k * y
  {
    assert x == (x / y) * y;
    ProductNonNegative(k - x / y, y);
  }

  /** The gains of a window. */
  ghost function Before(w: Slices, root: Root): Fit
    requires w.Valid()
  {
    var t := Derive(w, root);
    Solve(t, t.p)
  }

  ghost function After(w: Slices, root: Root): Fit
    requires w.Valid()
  {
    var t := Derive(w, root);
    Solve(t, t.q)
  }

  /**
   A window that passed: if a reference was active, the gains before and after are optimal over
   the active references; an active echo was at least 0.01 before and is at most a tenth of that
   now; an active source kept its sign and its level within the tolerance; and if neither was
   active, nothing in the window is above the quiet floor.
   */
  ghost predicate Sound(w: Slices, root: Root, tolerance: real)
    requires w.Valid() && tolerance > 1.0
  {
    var t, before, after := Derive(w, root), Before(w, root), After(w, root);
    var floor := MINIMUM_REFERENCE_RMS * MINIMUM_REFERENCE_RMS;
    && (t.sourceActive || t.echoActive ==>
          && |w.pre| >= MINIMUM_WINDOW
          && Optimal(t.p, t.s, t.e, t.sourceActive, t.echoActive, before)
          && Optimal(t.q, t.s, t.e, t.sourceActive, t.echoActive, after))
    && (t.echoActive ==> Abs(before.b) > 0.01 && 10.0 * Abs(after.b) <= Abs(before.b))
    && (t.sourceActive ==> SourceKept(before, after, tolerance))
    && (!t.sourceActive && !t.echoActive ==> MeanSquare(w.pre) <= floor && MeanSquare(w.post) <= floor)
  }

  /** The uncertainty bounds lie on either side of the coefficient. */
  lemma EchoBounds(t: Terms, fit: Fit, root: Root)
    requires t.Valid() && IsRoot(root) && fit.residual >= 0.0
    ensures EchoLower(fit, EchoUncertainty(t, root), root) <= Abs(fit.b) <= EchoUpper(fit, EchoUncertainty(t, root),
            root)
  {
    hide Dot, EchoUncertainty;
    UncertaintyNonNegative(t, root);
    ProductNonNegative(EchoUncertainty(t, root), root(fit.residual));
  }

  // ----- the figures of a report -----

  lemma RatioTimes(x: real, y: real)
    requires y > 0.0
    ensures x / y * y == x
  {
  }

  /**
   The figures beside the verdict: the gains of the two fits; the unexplained shares, as parts of the
   energy before cancellation; the attenuation as the least echo before over the most after; and the
   source ratio as the gain after over the gain before.
   */
  lemma ReportIs(start: nat, w: Slices, root: Root, tolerance: real)
    requires w.Valid() && tolerance > 1.0
    ensures var t, before, after, r :=
              Derive(w, root), Before(w, root), After(w, root), Analyze(start, w, root, tolerance);
            && r.startSample == start && r.sampleCount == |w.pre|
            && r.sourceActive == t.sourceActive && r.echoActive == t.echoActive
            && r.preSourceGain == before.a && r.preEchoGain == before.b
            && r.postSourceGain == after.a && r.postEchoGain == after.b
            && (t.energy > 0.000000000001 && !t.quiet ==>
                  r.preUnexplained * t.energy == before.residual && r.postUnexplained * t.energy == after.residual)
            && (t.quiet ==> r.preUnexplained == 0.0 == r.postUnexplained)
            && (t.energy <= 0.000000000001 && !t.quiet ==> r.preUnexplained == 1.0 == r.postUnexplained)
            && (r.echoAttenuation.Some? ==>
                  var uncertainty := EchoUncertainty(t, root);
                  r.echoAttenuation.value * EchoUpper(after, uncertainty, root)
                  == EchoLower(before, uncertainty, root))
            && (r.sourceRatio.Some? ==> r.sourceRatio.value * before.a == after.a)
  {
    hide Derive, Solve, Dot, EchoUncertainty, EchoLower, EchoUpper;
    var t, before, after := Derive(w, root), Before(w, root), After(w, root);
    if t.energy > 0.000000000001 {
      RatioTimes(before.residual, t.energy);
      RatioTimes(after.residual, t.energy);
    }
    var uncertainty := EchoUncertainty(t, root);
    if EchoUpper(after, uncertainty, root) > 0.000000000000001 {
      RatioTimes(EchoLower(before, uncertainty, root), EchoUpper(after, uncertainty, root));
    }
    if before.a > 0.01 {
      RatioTimes(after.a, before.a);
    }
  }

  // ----- the verdict, exactly -----

  lemma RatioAtMostIff(x: real, y: real, k: real)
    requires y > 0.0
    ensures x / y <= k <==> x <= k * y
  {
    if x / y <= k {
      RatioAtMost(x, y, k);
    } else {
      assert x == (x / y) * y;
      ProductPositive(x / y - k, y);
    }
  }

  lemma RatioAtLeastIff(x: real, y: real, k: real)
    requires y > 0.0
    ensures x / y >= k <==> x >= k * y
  {
    if x / y >= k {
      RatioAtLeast(x, y, k);
    } else {
      assert x == (x / y) * y;
      ProductPositive(k - x / y, y);
    }
  }

  lemma ToleranceIff(a: real, c: real, tolerance: real)
    requires a > 0.0 && tolerance > 1.0
    ensures 1.0 / tolerance <= c / a <= tolerance <==> a <= tolerance * c && c <= tolerance * a
  {
    RatioAtMostIff(c, a, tolerance);
    RatioAtLeastIff(c, a, 1.0 / tolerance);
    RatioAtMostIff(a, tolerance, c);
    assert (1.0 / tolerance) * a == a / tolerance;
  }

  /** The source had a level worth keeping and kept its sign and level. */
  predicate SourceKept(before: Fit, after: Fit, tolerance: real) {
    before.a > 0.01 && after.a > 0.0 && before.a <= tolerance * after.a && after.a <= tolerance * before.a
  }

  /** Even the least echo there can have been is ten times the most there can be now. */
  predicate EchoCut(before: Fit, after: Fit, uncertainty: real, root: Root) {
    && EchoLower(before, uncertainty, root) > 0.01
    && 10.0 * EchoUpper(after, uncertainty, root) <= EchoLower(before, uncertainty, root)
  }

  /** What passing certifies, with no quotients, no logarithms and no cases that fail open. */
  ghost predicate Certified(w: Slices, root: Root, tolerance: real)
    requires w.Valid()
  {
    var t, before, after := Derive(w, root), Before(w, root), After(w, root);
    if t.sourceActive || t.echoActive then
      && t.identifiable
      && before.residual <= MAXIMUM_UNEXPLAINED_ENERGY_RATIO * t.energy
      && after.residual <= MAXIMUM_UNEXPLAINED_ENERGY_RATIO * t.energy
      && (t.echoActive ==> EchoCut(before, after, EchoUncertainty(t, root), root))
      && (t.sourceActive ==> SourceKept(before, after, tolerance))
    else t.quiet
  }

  /** A window passes if and only if it is certified. */
  lemma PassedExactlyWhen(start: nat, w: Slices, root: Root, tolerance: real)
    requires w.Valid() && tolerance > 1.0
    ensures Analyze(start, w, root, tolerance).passed <==> Certified(w, root, tolerance)
  {
    hide Derive, Solve, Dot, EchoUncertainty, EchoLower, EchoUpper;
    var t, before, after := Derive(w, root), Before(w, root), After(w, root);
    var uncertainty := EchoUncertainty(t, root);
    var lower, upper := EchoLower(before, uncertainty, root), EchoUpper(after, uncertainty, root);
    if t.identifiable {
      RatioAtMostIff(before.residual, t.energy, MAXIMUM_UNEXPLAINED_ENERGY_RATIO);
      RatioAtMostIff(after.residual, t.energy, MAXIMUM_UNEXPLAINED_ENERGY_RATIO);
      if upper > 0.000000000000001 {
        RatioAtLeastIff(lower, upper, ECHO_ATTENUATION);
      }
      if before.a > 0.01 {
        ToleranceIff(before.a, after.a, tolerance);
      }
    }
  }

  /** Certified windows are sound: the pessimistic bounds hold of the coefficients themselves. */
  lemma CertifiedIsSound(w: Slices, root: Root, tolerance: real)
    requires w.Valid() && tolerance > 1.0 && IsRoot(root) && Certified(w, root, tolerance)
    ensures Sound(w, root, tolerance)
  {
    var t, before, after := Derive(w, root), Before(w, root), After(w, root);
    SolveBounds(t, t.p);
    SolveBounds(t, t.q);
    EchoBounds(t, before, root);
    EchoBounds(t, after, root);
    if t.sourceActive || t.echoActive {
      SolveIsOptimal(t, t.p);
      SolveIsOptimal(t, t.q);
    }
  }

  lemma PassedIsSound(start: nat, w: Slices, root: Root, tolerance: real)
    requires w.Valid() && tolerance > 1.0 && IsRoot(root)
    requires Analyze(start, w, root, tolerance).passed
    ensures Sound(w, root, tolerance)
  {
    hide Analyze, Certified, Sound;
    PassedExactlyWhen(start, w, root, tolerance);
    CertifiedIsSound(w, root, tolerance);
  }
}
