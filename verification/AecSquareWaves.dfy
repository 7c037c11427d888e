/**
 A stage that passes: the source is a square wave of period 2 and the loudspeaker one of period 4,
 the microphone hears both, and the canceller leaves a fiftieth of the echo it found.
 */
module AecSquareWaves {
  import opened Arithmetic
  import opened LeastSquares
  import opened Correlation
  import opened AecWindow
  import opened AecVerdict
  import opened AecAnalysis
  import opened AecMixture
  import opened AecNoise
  import opened AecIdealStage

  function Fast(i: nat): real {
    if i % 4 == 0 || i % 4 == 2 then 0.5 else -0.5
  }

  function Slow(i: nat): real {
    if i % 4 < 2 then 0.5 else -0.5
  }

  /** Whole periods of both waves. */
  ghost predicate AreWaves(s: Signal, e: Signal) {
    && |s| == |e| && |s| % 4 == 0
    && forall i :: 0 <= i < |s| ==> s[i] == Fast(i) && e[i] == Slow(i)
  }

  lemma FourTerms(x: Signal, y: Signal)
    requires |x| == |y| >= 4
    ensures Dot(x, y)
            == Times(x[0], y[0]) + Times(x[1], y[1]) + Times(x[2], y[2]) + Times(x[3], y[3]) + Dot(x[4..], y[4..])
  {
    hide Dot, Times;
    DotUnfold(x, y);
    DotUnfold(x[1..], y[1..]);
    DotUnfold(x[1..][1..], y[1..][1..]);
    DotUnfold(x[1..][1..][1..], y[1..][1..][1..]);
    assert x[4..] == x[1..][1..][1..][1..] && y[4..] == y[1..][1..][1..][1..];
  }

  lemma FourAddends(x: Signal)
    requires |x| >= 4
    ensures Sum(x) == x[0] + x[1] + x[2] + x[3] + Sum(x[4..])
  {
    hide Sum;
    SumUnfold(x);
    SumUnfold(x[1..]);
    SumUnfold(x[1..][1..]);
    SumUnfold(x[1..][1..][1..]);
    assert x[4..] == x[1..][1..][1..][1..];
  }

  lemma SumUnfold(x: Signal)
    requires x != []
    ensures Sum(x) == x[0] + Sum(x[1..])
  {
  }

  /** Each four samples add one to the energies, and nothing to the sums and the inner product. */
  lemma {:induction false} WaveSums(s: Signal, e: Signal)
    requires AreWaves(s, e)
    ensures Dot(s, s) == (|s| / 4) as real == Dot(e, e) && Dot(s, e) == 0.0
    ensures Sum(s) == 0.0 == Sum(e)
  {
    if s != [] {
      FourTerms(s, s);
      FourTerms(e, e);
      FourTerms(s, e);
      FourAddends(s);
      FourAddends(e);
      WavesGoOn(s, e);
      WaveSums(s[4..], e[4..]);
      assert |s| / 4 == |s[4..]| / 4 + 1;
    }
  }

  lemma WavesGoOn(s: Signal, e: Signal)
    requires AreWaves(s, e) && s != []
    ensures AreWaves(s[4..], e[4..])
  {
    hide Fast, Slow;
    forall i: nat | i < |s[4..]| ensures s[4..][i] == Fast(i) && e[4..][i] == Slow(i) {
      assert s[4..][i] == s[i + 4] && e[4..][i] == e[i + 4];
      Periodic(i, 4);
    }
  }

  lemma SameRemainder(i: nat, shift: nat)
    requires shift % 4 == 0
    ensures (i + shift) % 4 == i % 4
  {
    var k, q := shift / 4, i / 4;
    assert i + shift == 4 * (q + k) + i % 4;
  }

  lemma Periodic(i: nat, shift: nat)
    requires shift % 4 == 0
    ensures Fast(i + shift) == Fast(i) && Slow(i + shift) == Slow(i)
  {
    SameRemainder(i, shift);
  }

  lemma CenteredIsItself(x: Signal)
    requires x != [] && Sum(x) == 0.0
    ensures Centered(x) == x
  {
  }

  lemma WavesUncorrelated(s: Signal, e: Signal, root: Root)
    requires AreWaves(s, e)
    ensures Pearson(s, e, root) == 0.0
  {
    hide Dot, Sum, Centered, Energy;
    if |s| >= 12 {
      WaveSums(s, e);
      CenteredIsItself(s);
      CenteredIsItself(e);
      assert s[..|s|] == s && e[..|s|] == e;
      NothingNormalised(Energy(s, e), root);
    }
  }

  lemma NothingNormalised(energy: real, root: Root)
    ensures Normalised(0.0, energy, root) == 0.0
  {
  }

  /** The energy of a mixture of the two waves. */
  lemma MixtureEnergy(p: Signal, s: Signal, e: Signal, a: real, b: real)
    requires |p| == |s| > 0 && AreWaves(s, e) && IsMixture(p, s, e, a, b) && a > 0.01
    ensures Dot(p, p) > 0.0001
  {
    hide Dot, AreWaves, Sum, IsMixture;
    var n := (|s| / 4) as real;
    WavesHaveLength(s, e);
    WaveSums(s, e);
    MixtureDot(p, p, s, e, a, b);
    MixtureDot(s, p, s, e, a, b);
    MixtureDot(e, p, s, e, a, b);
    DotCommutes(p, s);
    DotCommutes(p, e);
    DotCommutes(s, e);
    EnergyIs(Dot(p, p), Dot(s, p), Dot(e, p), a, b, n);
  }

  lemma WavesHaveLength(s: Signal, e: Signal)
    requires AreWaves(s, e) && s != []
    ensures |s| == |e| && (|s| / 4) as real >= 1.0
  {
  }

  lemma EnergyIs(pp: real, sp: real, ep: real, a: real, b: real, n: real)
    requires pp == a * sp + b * ep && sp == a * n + b * 0.0 && ep == a * 0.0 + b * n
    requires a > 0.01 && n >= 1.0
    ensures pp > 0.0001
  {
    SquareNonNegative(b);
    ProductNonNegative(b * b, n);
    ProductPositive(a - 0.01, a + 0.01);
    ProductNonNegative(a * a, n - 1.0);
    assert pp == a * a * n + b * b * n;
  }

  lemma ActiveIs(energy: real, count: nat)
    requires count > 0 && count % 4 == 0 && energy == (count / 4) as real
    ensures IsActive(energy, count)
  {
    assert energy == 0.25 * count as real;
    QuotientOfProduct(0.25, count as real);
  }

  /** The evaluation tells the two waves apart in any window of whole periods. */
  lemma WavesAreToldApart(w: Slices, root: Root, a: real, b: real, offset: real)
    requires w.Valid() && |w.pre| >= MINIMUM_WINDOW && AreWaves(w.source, w.physical)
    requires Mixes(w.pre, w.source, w.physical, a, b, offset) && a > 0.01
    ensures TellsApart(w, root)
  {
    hide Dot, Sum, Centered, AreWaves, Mixes, Pearson, IsActive, IsMixture;
    var s, e := w.source, w.physical;
    WaveSums(s, e);
    CenteredIsItself(s);
    CenteredIsItself(e);
    CenteredMixes(w.pre, s, e, a, b, offset);
    WavesHaveLength(s, e);
    WavesUncorrelated(s, e, root);
    MixtureEnergy(Centered(w.pre), s, e, a, b);
    LengthIsWhole(s, e);
    ActiveIs(Dot(s, s), |w.pre|);
    ActiveIs(Dot(e, e), |w.pre|);
    ProductPositive(Dot(s, s), Dot(e, e));
  }

  lemma LengthIsWhole(s: Signal, e: Signal)
    requires AreWaves(s, e)
    ensures |s| % 4 == 0
  {
  }

  // ----- the stage -----

  /** The captures of a stage of n samples: microphone, output, source and loudspeaker. */
  function Microphone(n: nat): seq<Sample> {
    seq(n, i requires 0 <= i < n => Finite(Fast(i) + 0.5 * Slow(i)))
  }

  function Output(n: nat): seq<Sample> {
    seq(n, i requires 0 <= i < n => Finite(Fast(i) + 0.01 * Slow(i)))
  }

  function Source(n: nat): seq<Sample> {
    seq(n, i requires 0 <= i < n => Finite(Fast(i)))
  }

  function Loudspeaker(n: nat): seq<Sample> {
    seq(n, i requires 0 <= i < n => Finite(Slow(i)))
  }

  lemma CapturesAreValid(n: nat)
    requires n > 0
    ensures Aligned(Microphone(n), Output(n), Source(n), Loudspeaker(n), RATE)
    ensures AllInRange(Microphone(n), Output(n), Source(n), Loudspeaker(n))
  {
  }

  lemma CapturesMix(n: nat)
    requires n > 0
    ensures Aligned(Microphone(n), Output(n), Source(n), Loudspeaker(n), RATE)
    ensures AllInRange(Microphone(n), Output(n), Source(n), Loudspeaker(n))
    ensures var whole := Stage(Microphone(n), Output(n), Source(n), Loudspeaker(n));
            && |whole.pre| == n && IsIdealStage(whole, 1.0, 0.5, 1.0, 0.01, 0.0, 0.0)
            && forall i :: 0 <= i < n ==> whole.source[i] == Fast(i) && whole.physical[i] == Slow(i)
  {
    hide Fast, Slow;
    CapturesAreValid(n);
  }

  /** A window that starts with a period holds whole periods if its length does. */
  lemma WindowHoldsWaves(whole: Slices, start: nat, count: nat)
    requires whole.Valid() && start + count <= |whole.pre| && start % 4 == 0 && count % 4 == 0
    requires forall i :: 0 <= i < |whole.pre| ==> whole.source[i] == Fast(i) && whole.physical[i] == Slow(i)
    ensures AreWaves(WindowAt(whole, start, count).source, WindowAt(whole, start, count).physical)
  {
    hide Fast, Slow;
    var w := WindowAt(whole, start, count);
    forall i: nat | i < count ensures w.source[i] == Fast(i) && w.physical[i] == Slow(i) {
      Periodic(i, start);
    }
  }

  /** All windows start and end between periods. */
  lemma WindowsAreWhole(whole: Slices, root: Root, tolerance: real, windows: seq<Report>, k: nat)
    requires tolerance > 1.0 && Tiles(whole, root, tolerance, windows, |whole.pre|) && Cut(windows, |whole.pre|)
    requires |whole.pre| % 4 == 0 && |whole.pre| >= MINIMUM_WINDOW && k < |windows|
    ensures windows[k].startSample % 4 == 0 && windows[k].sampleCount % 4 == 0
    ensures windows[k].sampleCount >= MINIMUM_WINDOW
  {
    hide Analyze, WindowAt;
    assert windows[k].startSample == 4 * (1200 * k);
    if k + 1 < |windows| {
      assert windows[k].sampleCount == windows[k + 1].startSample - windows[k].startSample == 4 * 1200;
    } else {
      assert windows[k].startSample + windows[k].sampleCount == |whole.pre|;
      assert windows[k].sampleCount == 4 * (|whole.pre| / 4 - 1200 * k);
    }
  }

  /** The captures are accepted, and what is reported of them is that they passed, with full coverage. */
  lemma SquareWaveStagePasses(n: nat, root: Root, tolerance: real, m: Metrics)
    requires n % 4 == 0 && n >= 2 * WIDTH + MINIMUM_WINDOW && tolerance > 1.0 && IsRoot(root)
    ensures Aligned(Microphone(n), Output(n), Source(n), Loudspeaker(n), RATE)
    ensures AllInRange(Microphone(n), Output(n), Source(n), Loudspeaker(n))
    ensures Faithful(Stage(Microphone(n), Output(n), Source(n), Loudspeaker(n)), root, tolerance, m)
            ==> m.passed && (m.sourceCoverage.Some? ==> m.sourceCoverage.value == 1.0)
  {
    hide Microphone, Output, Source, Loudspeaker, Derive, Analyze, TotalActive, TotalRetained, CountEcho, Stage,
         Fast, Slow, TellsApart, AllPassed;
    CapturesMix(n);
    var whole := Stage(Microphone(n), Output(n), Source(n), Loudspeaker(n));
    if Faithful(whole, root, tolerance, m) {
      forall k | 0 <= k < |m.windows|
        ensures TellsApart(WindowAt(whole, m.windows[k].startSample, m.windows[k].sampleCount), root)
      {
        WindowsAreWhole(whole, root, tolerance, m.windows, k);
        var w := WindowAt(whole, m.windows[k].startSample, m.windows[k].sampleCount);
        WindowHoldsWaves(whole, m.windows[k].startSample, m.windows[k].sampleCount);
        WindowMixes(whole, m.windows[k].startSample, m.windows[k].sampleCount);
        WavesAreToldApart(w, root, 1.0, 0.5, 0.0);
      }
      ThreeWindows(n, |m.windows|);
      IdealStagePassesExactlyWhen(whole, root, tolerance, m, 1.0, 0.5, 1.0, 0.01, 0.0, 0.0);
    }
  }

  lemma WindowMixes(whole: Slices, start: nat, count: nat)
    requires whole.Valid() && start + count <= |whole.pre|
    requires IsIdealStage(whole, 1.0, 0.5, 1.0, 0.01, 0.0, 0.0)
    ensures var w := WindowAt(whole, start, count);
            |w.pre| == |w.source| == |w.physical| && Mixes(w.pre, w.source, w.physical, 1.0, 0.5, 0.0)
  {
    hide Mixed;
  }

  lemma ThreeWindows(n: nat, count: nat)
    requires n >= 2 * WIDTH + MINIMUM_WINDOW && count == (n - MINIMUM_WINDOW) / WIDTH + 1
    ensures count >= MINIMUM_ECHO_WINDOWS
  {
    DivAtLeast(n - MINIMUM_WINDOW, WIDTH, 2);
  }

  // ----- a window that noise fails -----

  /**
   Echo alone, cut from 1 to 0.0999 with noise a fifth of full scale on top: the coefficients
   themselves are more than ten to one.
   */
  ghost predicate IsNoisyCut(w: Slices) {
    && w.Valid() && |w.pre| % 4 == 0 && MINIMUM_WINDOW <= |w.pre| < WIDTH + MINIMUM_WINDOW
    && forall i :: 0 <= i < |w.pre| ==>
         && w.source[i] == 0.0 && w.physical[i] == Slow(i) && w.pre[i] == Slow(i)
         && w.post[i] == 0.0999 * Slow(i) + 0.4 * Fast(i)
  }

  function Tone(n: nat): Signal {
    seq(n, i requires 0 <= i < n => Fast(i))
  }

  function Hiss(n: nat): Signal {
    seq(n, i requires 0 <= i < n => 0.4 * Fast(i))
  }

  function Silence(n: nat): Signal {
    seq(n, i => 0.0)
  }

  lemma {:induction false} SumOfSilence(x: Signal)
    requires forall i :: 0 <= i < |x| ==> x[i] == 0.0
    ensures Sum(x) == 0.0
  {
    if x != [] { SumOfSilence(x[1..]); }
  }

  lemma SilenceIsCentered(x: Signal)
    requires x != [] && forall i :: 0 <= i < |x| ==> x[i] == 0.0
    ensures Centered(x) == x && Dot(x, x) == 0.0
  {
    SumOfSilence(x);
    CenteredIsItself(x);
    DotZero(x, x);
  }

  /** Only the loudspeaker is active, and identifiable. */
  lemma NoisyCutTerms(w: Slices, root: Root)
    requires IsNoisyCut(w)
    ensures var t := Derive(w, root);
            && t.identifiable && t.echoActive && !t.sourceActive && t.e == w.physical && t.ee == (|w.pre| / 4) as real
            && |t.s| == |w.pre| && t.energy == t.ee
  {
    hide Sum, Centered, Pearson, IsActive;
    var n := |w.pre|;
    assert AreWaves(Tone(n), w.physical);
    WaveSums(Tone(n), w.physical);
    CenteredIsItself(w.physical);
    SilenceIsCentered(w.source);
    ActiveIs(Dot(w.physical, w.physical), n);
    NothingIsInactive(n);
    assert w.pre == w.physical;
    DerivedSignals(w, root);
    WavesHaveLength(Tone(n), w.physical);
  }

  lemma NothingIsInactive(count: nat)
    requires count > 0
    ensures !IsActive(0.0, count)
  {
  }

  lemma DotScaled(x: Signal, y: Signal, z: Signal, k: real)
    requires |x| == |y| == |z| && forall i :: 0 <= i < |y| ==> z[i] == k * y[i]
    ensures Dot(x, z) == k * Dot(x, y)
  {
    MixtureDot(x, z, y, y, k, 0.0);
  }

  lemma HissIs(n: nat, e: Signal)
    requires n > 0 && AreWaves(Tone(n), e)
    ensures Centered(Hiss(n)) == Hiss(n) && Dot(e, Hiss(n)) == 0.0
    ensures Dot(Hiss(n), Hiss(n)) == 0.16 * (n / 4) as real
  {
    hide Dot, Sum;
    var tone, hiss := Tone(n), Hiss(n);
    WaveSums(tone, e);
    SumMixes(hiss, tone, tone, 0.4, 0.0, 0.0);
    CenteredIsItself(hiss);
    DotScaled(e, tone, hiss, 0.4);
    DotScaled(hiss, tone, hiss, 0.4);
    DotScaled(tone, tone, hiss, 0.4);
    DotCommutes(e, tone);
    DotCommutes(hiss, tone);
  }

  const CLEAN_ECHO: real := 1.0
  const LEFT_ECHO: real := 0.0999

  lemma NoisyCutFollows(w: Slices, root: Root)
    requires IsNoisyCut(w)
    ensures var n := |w.pre|;
            && Follows(w.pre, w, root, Recipe(0.0, CLEAN_ECHO, 0.0, Silence(n)))
            && Follows(w.post, w, root, Recipe(0.0, LEFT_ECHO, 0.0, Hiss(n)))
            && NoiseEnergy(Recipe(0.0, CLEAN_ECHO, 0.0, Silence(n))) == 0.0
            && NoiseEnergy(Recipe(0.0, LEFT_ECHO, 0.0, Hiss(n))) == 0.16 * (n / 4) as real
  {
    hide Dot, Centered, Derive, Fast, Slow;
    var n := |w.pre|;
    NoisyCutTerms(w, root);
    HissIs(n, w.physical);
    SilenceIsCentered(Silence(n));
    DotZero(w.physical, Silence(n));
  }

  lemma StandardErrorOfHiss(tau: real, n: real, ee: real)
    requires tau * tau * n == 0.16
    ensures tau * tau * (n * ee) == 0.16 * ee
  {
    Regroup(tau * tau, n, ee, 0.16);
  }

  lemma RootTimes(root: Root, x: real, n: real) returns (tau: real)
    requires IsRoot(root) && x >= 0.0 && n > 0.0
    ensures tau >= 0.0 && tau * tau * n == x
  {
    QuotientNonNegative(x, n);
    tau := root(x / n);
    assert tau >= 0.0 && tau * tau == x / n;
    SameTimes(tau * tau, x / n, n);
    QuotientTimesDivisor(x, n);
  }

  lemma QuotientTimesDivisor(x: real, n: real)
    requires n > 0.0
    ensures (x / n) * n == x
  {
  }

  lemma TauIsLarge(tau: real, square: real, n: real)
    requires tau >= 0.0 && 0.0 < n <= 5280.0 && Times(tau, tau) == square && square * n == 0.16
    ensures tau > 0.001
  {
    hide Times;
    if square <= 0.000001 { SmallTimes(square, 0.000001, n); }
    RootIsLarge(tau, square);
  }

  lemma SameTimes(x: real, y: real, k: real)
    requires x == y
    ensures x * k == y * k
  {
  }

  lemma Regroup(x: real, n: real, y: real, product: real)
    requires x * n == product
    ensures x * (n * y) == product * y
  {
  }

  lemma RootIsLarge(tau: real, square: real)
    requires tau >= 0.0 && Times(tau, tau) == square && square > 0.000001
    ensures tau > 0.001
  {
    hide Times;
    if tau <= 0.001 { SmallSquare(tau); }
  }

  lemma SmallSquare(x: real)
    requires 0.0 <= x <= 0.001
    ensures Times(x, x) <= 0.000001
  {
    ProductNonNegative(x, 0.001 - x);
  }

  lemma SmallTimes(x: real, y: real, n: real)
    requires x <= y && n >= 0.0
    ensures x * n <= y * n
  {
  }

  /**
   Such a window fails although its coefficients have fallen by more than a factor of ten and the noise is
   less than a fifth of the energy: three standard errors of the echo coefficient are too much.
   */
  lemma NoisyCutFails(start: nat, w: Slices, root: Root, tolerance: real)
    requires IsNoisyCut(w) && IsRoot(root) && tolerance > 1.0
    ensures !Analyze(start, w, root, tolerance).passed
    ensures 10.0 * Abs(After(w, root).b) < Abs(Before(w, root).b)
    ensures 5.0 * After(w, root).residual < Derive(w, root).energy
  {
    hide Analyze, Derive, Solve, Dot, Follows, NoiseEnergy, Fast, Slow, IsNoisyCut, MeetWithNoise, IsStandardError;
    CutIsBounded(w);
    var t, n := Derive(w, root), |w.pre|;
    var before, after := Recipe(0.0, CLEAN_ECHO, 0.0, Silence(n)), Recipe(0.0, LEFT_ECHO, 0.0, Hiss(n));
    NoisyCutTerms(w, root);
    NoisyCutFollows(w, root);
    DerivedSignals(w, root);
    NoisyGains(w.pre, t.p, w, root, before);
    NoisyGains(w.post, t.q, w, root, after);
    var tau := CutErrors(t, n, root, before, after);
    TooMuchNoise(t, before, after, tau, tolerance);
    NoisyWindowPassesExactlyWhen(start, w, root, tolerance, before, after, 0.0, tau);
  }

  lemma CutErrors(t: Terms, n: nat, root: Root, before: Recipe, after: Recipe) returns (tau: real)
    requires t.Valid() && !t.Dual() && |t.s| == n && t.ee == (n / 4) as real && IsRoot(root)
    requires MINIMUM_WINDOW <= n < WIDTH + MINIMUM_WINDOW && before.noise != [] && after.noise != []
    requires NoiseEnergy(before) == 0.0 && NoiseEnergy(after) == 0.16 * (n / 4) as real
    ensures IsStandardError(t, NoiseEnergy(before), 0.0) && IsStandardError(t, NoiseEnergy(after), tau)
    ensures tau > 0.001
  {
    hide Dot, NoiseEnergy;
    var freedom := (n - 2) as real;
    tau := RootTimes(root, 0.16, freedom);
    StandardErrorOfHiss(tau, freedom, t.ee);
    TauIsLarge(tau, tau * tau, freedom);
  }

  lemma TooMuchNoise(t: Terms, before: Recipe, after: Recipe, tau: real, tolerance: real)
    requires t.Valid() && t.echoActive && before.noise != [] && after.noise != []
    requires before.b == CLEAN_ECHO && after.b == LEFT_ECHO && tau > 0.001
    ensures !MeetWithNoise(t, before, after, 0.0, tau, tolerance)
  {
    hide Dot, NoiseEnergy;
  }

  lemma CutIsBounded(w: Slices)
    requires IsNoisyCut(w)
    ensures w.Valid() && MINIMUM_WINDOW <= |w.pre| < WIDTH + MINIMUM_WINDOW
  {
  }
}
