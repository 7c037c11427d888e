/**
 The two-reference least-squares solve of the echo-cancellation evaluation, over exact reals:
 the closed form is the minimiser, it recovers exact mixtures, and what it leaves unexplained
 never exceeds the energy there was.
 */
module LeastSquares {

  type Signal = seq<real>

  function Dot(x: Signal, y: Signal): real
    requires |x| == |y|
  {
    if x == [] then 0.0 else x[0] * y[0] + Dot(x[1..], y[1..])
  }

  /** What is left of y after taking a of s and b of e away, as energy. */
  function Residual(y: Signal, s: Signal, e: Signal, a: real, b: real): real
    requires |y| == |s| == |e|
  {
    if y == [] then 0.0
    else
      var d := y[0] - a * s[0] - b * e[0];
      d * d + Residual(y[1..], s[1..], e[1..], a, b)
  }

  datatype Fit = Fit(a: real, b: real, residual: real)

  /** Cramer's rule for the two normal equations. */
  function Cramer(ss: real, se: real, ee: real, sy: real, ey: real): (real, real)
    requires ss * ee - se * se != 0.0
  {
    var determinant := ss * ee - se * se;
    ((sy * ee - ey * se) / determinant, (ey * ss - sy * se) / determinant)
  }

  /** `gains`: both coefficients at once, with what they leave. */
  function Gains(y: Signal, s: Signal, e: Signal, ss: real, ee: real, se: real): Fit
    requires |y| == |s| == |e| && ss * ee - se * se != 0.0
  {
    var (a, b) := Cramer(ss, se, ee, Dot(s, y), Dot(e, y));
    Fit(a, b, Residual(y, s, e, a, b))
  }

  function Times(x: real, y: real): real {
    x * y
  }

  lemma DotUnfold(l: Signal, r: Signal)
    requires |l| == |r| > 0
    ensures Dot(l, r) == Times(l[0], r[0]) + Dot(l[1..], r[1..])
  {
  }

  lemma SquareNonNegative(x: real)
    ensures x * x >= 0.0
  {
  }

  lemma ProductNonNegative(x: real, y: real)
    requires x >= 0.0 && y >= 0.0
    ensures x * y >= 0.0
  {
  }

  lemma ProductPositive(x: real, y: real)
    requires x > 0.0 && y > 0.0
    ensures x * y > 0.0
  {
  }

  lemma {:induction false} DotCommutes(x: Signal, y: Signal)
    requires |x| == |y|
    ensures Dot(x, y) == Dot(y, x)
  {
    if x != [] { DotCommutes(x[1..], y[1..]); }
  }

  lemma {:induction false} ResidualNonNegative(y: Signal, s: Signal, e: Signal, a: real, b: real)
    requires |y| == |s| == |e|
    ensures Residual(y, s, e, a, b) >= 0.0
  {
    if y != [] {
      var d := y[0] - a * s[0] - b * e[0];
      SquareNonNegative(d);
      ResidualNonNegative(y[1..], s[1..], e[1..], a, b);
      assert Residual(y, s, e, a, b) == d * d + Residual(y[1..], s[1..], e[1..], a, b);
    }
  }

  /** The square of a three-term difference. */
  lemma SquareOfDifference(y: real, s: real, e: real, a: real, b: real)
    ensures (y - a * s - b * e) * (y - a * s - b * e)
            == y * y - 2.0 * a * (s * y) - 2.0 * b * (e * y)
               + a * a * (s * s) + 2.0 * a * b * (s * e) + b * b * (e * e)
  {
    var p, q := a * s, b * e;
    assert (y - p - q) * (y - p - q) == y * y - 2.0 * p * y - 2.0 * q * y + p * p + 2.0 * p * q + q * q;
    assert p * p == a * a * (s * s) && q * q == b * b * (e * e) && p * q == a * b * (s * e);
    assert p * y == a * (s * y) && q * y == b * (e * y);
  }

  /** The residual as a quadratic in the two gains. */
  ghost function Expanded(yy: real, sy: real, ey: real, ss: real, se: real, ee: real, a: real, b: real): real {
    yy - 2.0 * a * sy - 2.0 * b * ey + a * a * ss + 2.0 * a * b * se + b * b * ee
  }

  lemma ExpandedAdds(yy: real, sy: real, ey: real, ss: real, se: real, ee: real,
                     yy': real, sy': real, ey': real, ss': real, se': real, ee': real, a: real, b: real)
    ensures Expanded(yy + yy', sy + sy', ey + ey', ss + ss', se + se', ee + ee', a, b)
            == Expanded(yy, sy, ey, ss, se, ee, a, b) + Expanded(yy', sy', ey', ss', se', ee', a, b)
  {
    assert a * a * (ss + ss') == a * a * ss + a * a * ss';
    assert 2.0 * a * b * (se + se') == 2.0 * a * b * se + 2.0 * a * b * se';
    assert b * b * (ee + ee') == b * b * ee + b * b * ee';
    assert 2.0 * a * (sy + sy') == 2.0 * a * sy + 2.0 * a * sy';
    assert 2.0 * b * (ey + ey') == 2.0 * b * ey + 2.0 * b * ey';
  }

  lemma {:induction false} ResidualExpands(y: Signal, s: Signal, e: Signal, a: real, b: real)
    requires |y| == |s| == |e|
    ensures Residual(y, s, e, a, b)
            == Expanded(Dot(y, y), Dot(s, y), Dot(e, y), Dot(s, s), Dot(s, e), Dot(e, e), a, b)
  {
    if y != [] {
      var y', s', e' := y[1..], s[1..], e[1..];
      ResidualExpands(y', s', e', a, b);
      SquareOfDifference(y[0], s[0], e[0], a, b);
      ExpandedAdds(y[0] * y[0], s[0] * y[0], e[0] * y[0], s[0] * s[0], s[0] * e[0], e[0] * e[0],
                   Dot(y', y'), Dot(s', y'), Dot(e', y'), Dot(s', s'), Dot(s', e'), Dot(e', e'), a, b);
    }
  }

  /** The energy of p * s + q * e. */
  ghost function Form(ss: real, se: real, ee: real, p: real, q: real): real {
    Expanded(0.0, 0.0, 0.0, ss, se, ee, p, q)
  }

  lemma {:induction false} FormNonNegative(s: Signal, e: Signal, p: real, q: real)
    requires |s| == |e|
    ensures Form(Dot(s, s), Dot(s, e), Dot(e, e), p, q) >= 0.0
  {
    var zero := seq(|s|, i => 0.0);
    ResidualNonNegative(zero, s, e, p, q);
    ResidualExpands(zero, s, e, p, q);
    DotZero(zero, zero);
    DotZero(s, zero);
    DotZero(e, zero);
  }

  lemma {:induction false} DotZero(x: Signal, zero: Signal)
    requires |x| == |zero| && forall i :: 0 <= i < |zero| ==> zero[i] == 0.0
    ensures Dot(x, zero) == 0.0
  {
    if x != [] { DotZero(x[1..], zero[1..]); }
  }

  /** Moving away from a solution of the normal equations costs exactly the form of the move. */
  lemma ExpandedAround(yy: real, sy: real, ey: real, ss: real, se: real, ee: real,
                       a: real, b: real, a': real, b': real, p: real, q: real)
    requires a * ss + b * se == sy && a * se + b * ee == ey && a' == a + p && b' == b + q
    ensures Expanded(yy, sy, ey, ss, se, ee, a', b')
            == Expanded(yy, sy, ey, ss, se, ee, a, b) + Form(ss, se, ee, p, q)
  {
    assert (a + p) * (a + p) * ss == a * a * ss + 2.0 * p * (a * ss) + p * p * ss;
    assert (b + q) * (b + q) * ee == b * b * ee + 2.0 * q * (b * ee) + q * q * ee;
    assert 2.0 * (a + p) * (b + q) * se
           == 2.0 * a * b * se + 2.0 * q * (a * se) + 2.0 * p * (b * se) + 2.0 * p * q * se;
    assert 2.0 * p * (a * ss) + 2.0 * p * (b * se) == 2.0 * p * sy;
    assert 2.0 * q * (b * ee) + 2.0 * q * (a * se) == 2.0 * q * ey;
  }

  lemma CancelFactor(x: real, y: real, d: real)
    requires d != 0.0 && x * d == y * d
    ensures x == y
  {
    assert (x - y) * d == 0.0;
  }

  /** Cramer's rule solves both normal equations. */
  lemma CramerSolves(ss: real, se: real, ee: real, sy: real, ey: real)
    requires ss * ee - se * se != 0.0
    ensures var (a, b) := Cramer(ss, se, ee, sy, ey); a * ss + b * se == sy && a * se + b * ee == ey
  {
    var (a, b) := Cramer(ss, se, ee, sy, ey);
    var d := ss * ee - se * se;
    var ad, bd := sy * ee - ey * se, ey * ss - sy * se;
    assert a * d == ad && b * d == bd;
    assert (a * ss + b * se) * d == ad * ss + bd * se == sy * d;
    assert (a * se + b * ee) * d == ad * se + bd * ee == ey * d;
    CancelFactor(a * ss + b * se, sy, d);
    CancelFactor(a * se + b * ee, ey, d);
  }

  /** The two normal equations for taking y apart into s and e. */
  ghost predicate SolvesNormalEquations(y: Signal, s: Signal, e: Signal, a: real, b: real)
    requires |y| == |s| == |e|
  {
    a * Dot(s, s) + b * Dot(s, e) == Dot(s, y) && a * Dot(s, e) + b * Dot(e, e) == Dot(e, y)
  }

  /** Any gains whatever leave at least as much residual as a solution of the normal equations. */
  lemma NormalEquationsMinimise(y: Signal, s: Signal, e: Signal, a: real, b: real, a': real, b': real)
    requires |y| == |s| == |e| && SolvesNormalEquations(y, s, e, a, b)
    ensures Residual(y, s, e, a, b) <= Residual(y, s, e, a', b')
  {
    hide Dot, Residual, Expanded, Form;
    var yy, sy, ey, ss, se, ee := Dot(y, y), Dot(s, y), Dot(e, y), Dot(s, s), Dot(s, e), Dot(e, e);
    var p, q := a' - a, b' - b;
    ResidualExpands(y, s, e, a, b);
    ResidualExpands(y, s, e, a', b');
    FormNonNegative(s, e, p, q);
    ExpandedAround(yy, sy, ey, ss, se, ee, a, b, a', b', p, q);
  }

  lemma GainsSolve(y: Signal, s: Signal, e: Signal)
    requires |y| == |s| == |e| && Dot(s, s) * Dot(e, e) - Dot(s, e) * Dot(s, e) != 0.0
    ensures var fit := Gains(y, s, e, Dot(s, s), Dot(e, e), Dot(s, e));
            fit.residual == Residual(y, s, e, fit.a, fit.b) && SolvesNormalEquations(y, s, e, fit.a, fit.b)
  {
    hide Cramer, Residual, Dot;
    CramerSolves(Dot(s, s), Dot(s, e), Dot(e, e), Dot(s, y), Dot(e, y));
  }

  /**
   For references with non-zero determinant, `gains` satisfies both normal equations and its
   residual is no larger than that of any other pair of gains.
   */
  lemma GainsAreOptimal(y: Signal, s: Signal, e: Signal, a': real, b': real)
    requires |y| == |s| == |e| && Dot(s, s) * Dot(e, e) - Dot(s, e) * Dot(s, e) != 0.0
    ensures var fit := Gains(y, s, e, Dot(s, s), Dot(e, e), Dot(s, e));
            SolvesNormalEquations(y, s, e, fit.a, fit.b) && fit.residual <= Residual(y, s, e, a', b')
  {
    hide Cramer, Residual, Dot;
    GainsSolve(y, s, e);
    var fit := Gains(y, s, e, Dot(s, s), Dot(e, e), Dot(s, e));
    NormalEquationsMinimise(y, s, e, fit.a, fit.b, a', b');
  }

  // ----- exact mixtures -----

  ghost predicate IsMixture(y: Signal, s: Signal, e: Signal, a: real, b: real)
    requires |y| == |s| == |e|
  {
    forall i :: 0 <= i < |y| ==> y[i] == a * s[i] + b * e[i]
  }

  lemma {:induction false} MixtureResidual(y: Signal, s: Signal, e: Signal, a: real, b: real)
    requires |y| == |s| == |e| && IsMixture(y, s, e, a, b)
    ensures Residual(y, s, e, a, b) == 0.0
  {
    if y != [] {
      MixtureResidual(y[1..], s[1..], e[1..], a, b);
    }
  }

  ghost function Mixed(x: real, y: real, a: real, b: real): real {
    a * x + b * y
  }

  lemma MixtureTerm(r: real, y: real, s: real, e: real, a: real, b: real, rs: real, re: real)
    requires y == a * s + b * e
    ensures Times(r, y) + Mixed(rs, re, a, b) == Mixed(Times(r, s) + rs, Times(r, e) + re, a, b)
  {
    assert r * (a * s + b * e) == a * (r * s) + b * (r * e);
  }

  lemma MixedNothing(a: real, b: real)
    ensures Dot([], []) == Mixed(Dot([], []), Dot([], []), a, b)
  {
  }

  lemma {:induction false} MixtureDotMixed(r: Signal, y: Signal, s: Signal, e: Signal, a: real, b: real)
    requires |r| == |y| == |s| == |e| && IsMixture(y, s, e, a, b)
    ensures Dot(r, y) == Mixed(Dot(r, s), Dot(r, e), a, b)
  {
    hide Dot, Times, Mixed;
    if y == [] {
      assert r == [] && s == [] && e == [];
      MixedNothing(a, b);
    } else {
      MixtureDotMixed(r[1..], y[1..], s[1..], e[1..], a, b);
      MixtureTerm(r[0], y[0], s[0], e[0], a, b, Dot(r[1..], s[1..]), Dot(r[1..], e[1..]));
      DotUnfold(r, y);
      DotUnfold(r, s);
      DotUnfold(r, e);
    }
  }

  lemma MixtureDot(r: Signal, y: Signal, s: Signal, e: Signal, a: real, b: real)
    requires |r| == |y| == |s| == |e| && IsMixture(y, s, e, a, b)
    ensures Dot(r, y) == a * Dot(r, s) + b * Dot(r, e)
  {
    hide Dot;
    MixtureDotMixed(r, y, s, e, a, b);
  }

  /** The two normal equations have one solution. */
  lemma NormalEquationsUnique(ss: real, se: real, ee: real, a: real, b: real, a': real, b': real)
    requires ss * ee - se * se != 0.0
    requires a * ss + b * se == a' * ss + b' * se && a * se + b * ee == a' * se + b' * ee
    ensures a == a' && b == b'
  {
    var d, p, q := ss * ee - se * se, a - a', b - b';
    var first, second := p * ss + q * se, p * se + q * ee;
    assert first == 0.0 && second == 0.0;
    assert p * d == first * ee - second * se;
    assert q * d == second * ss - first * se;
    CancelFactor(p, 0.0, d);
    CancelFactor(q, 0.0, d);
  }

  /** The normal equations in numbers, with the mixed product taken either way round. */
  lemma SolvesInNumbers(sy: real, ey: real, ss: real, se: real, es: real, ee: real, a: real, b: real)
    requires es == se && sy == Mixed(ss, se, a, b) && ey == Mixed(es, ee, a, b)
    ensures a * ss + b * se == sy && a * se + b * ee == ey
  {
  }

  lemma SolutionsAreUnique(y: Signal, s: Signal, e: Signal, a: real, b: real, a': real, b': real)
    requires |y| == |s| == |e| && Dot(s, s) * Dot(e, e) - Dot(s, e) * Dot(s, e) != 0.0
    requires SolvesNormalEquations(y, s, e, a, b) && SolvesNormalEquations(y, s, e, a', b')
    ensures a == a' && b == b'
  {
    hide Dot;
    NormalEquationsUnique(Dot(s, s), Dot(s, e), Dot(e, e), a, b, a', b');
  }

  lemma TheySolve(y: Signal, s: Signal, e: Signal, a: real, b: real)
    requires |y| == |s| == |e|
    requires Dot(s, y) == Mixed(Dot(s, s), Dot(s, e), a, b) && Dot(e, y) == Mixed(Dot(e, s), Dot(e, e), a, b)
    ensures SolvesNormalEquations(y, s, e, a, b)
  {
    hide Dot, Mixed;
    DotCommutes(s, e);
    SolvesInNumbers(Dot(s, y), Dot(e, y), Dot(s, s), Dot(s, e), Dot(e, s), Dot(e, e), a, b);
  }

  lemma MixtureSolves(y: Signal, s: Signal, e: Signal, a: real, b: real)
    requires |y| == |s| == |e| && IsMixture(y, s, e, a, b)
    ensures SolvesNormalEquations(y, s, e, a, b)
  {
    hide Dot, IsMixture, SolvesNormalEquations, Mixed;
    MixtureDotMixed(s, y, s, e, a, b);
    MixtureDotMixed(e, y, s, e, a, b);
    TheySolve(y, s, e, a, b);
  }

  /** From an exact mixture `gains` recovers the two coefficients and leaves nothing. */
  lemma GainsRecoverMixture(y: Signal, s: Signal, e: Signal, a: real, b: real)
    requires |y| == |s| == |e| && IsMixture(y, s, e, a, b)
    requires Dot(s, s) * Dot(e, e) - Dot(s, e) * Dot(s, e) != 0.0
    ensures Gains(y, s, e, Dot(s, s), Dot(e, e), Dot(s, e)) == Fit(a, b, 0.0)
  {
    hide Cramer, Residual, Dot, IsMixture, SolvesNormalEquations;
    var fit := Gains(y, s, e, Dot(s, s), Dot(e, e), Dot(s, e));
    GainsSolve(y, s, e);
    MixtureSolves(y, s, e, a, b);
    SolutionsAreUnique(y, s, e, fit.a, fit.b, a, b);
    MixtureResidual(y, s, e, a, b);
  }

  // ----- bounds -----

  lemma EnergyIsResidualOfNothing(y: Signal, s: Signal, e: Signal)
    requires |y| == |s| == |e|
    ensures Residual(y, s, e, 0.0, 0.0) == Dot(y, y)
  {
    ResidualExpands(y, s, e, 0.0, 0.0);
  }

  lemma DotSelfNonNegative(x: Signal)
    ensures Dot(x, x) >= 0.0
  {
    EnergyIsResidualOfNothing(x, x, x);
    ResidualNonNegative(x, x, x, 0.0, 0.0);
  }

  lemma DeterminantOfForm(ss: real, se: real, ee: real)
    requires ss >= 0.0 && ee >= 0.0
    requires Form(ss, se, ee, -se, ss) >= 0.0 && Form(ss, se, ee, ee + 1.0, -se) >= 0.0
    ensures se * se <= ss * ee
  {
    if ss > 0.0 {
      assert Form(ss, se, ee, -se, ss) == ss * (ss * ee - se * se);
      FactorNonNegative(ss, ss * ee - se * se);
    } else {
      assert Form(ss, se, ee, ee + 1.0, -se) == -(ee + 2.0) * (se * se);
      SquareNonNegative(se);
      FactorNonNegative(ee + 2.0, -(se * se));
    }
  }

  /** Cauchy and Schwarz: the determinant of two references is never negative. */
  lemma DeterminantNonNegative(s: Signal, e: Signal)
    requires |s| == |e|
    ensures Dot(s, e) * Dot(s, e) <= Dot(s, s) * Dot(e, e)
  {
    hide Dot, Form;
    var ss, se, ee := Dot(s, s), Dot(s, e), Dot(e, e);
    DotSelfNonNegative(s);
    DotSelfNonNegative(e);
    FormNonNegative(s, e, -se, ss);
    FormNonNegative(s, e, ee + 1.0, -se);
    DeterminantOfForm(ss, se, ee);
  }

  lemma FactorNonNegative(f: real, x: real)
    requires f > 0.0 && f * x >= 0.0
    ensures x >= 0.0
  {
  }
}
