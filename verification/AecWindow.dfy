/**
 One window of the echo-cancellation evaluation. Decibel thresholds are stated as ratios:
 20 dB is a factor of 10, and 3 dB the factor `tolerance` whose 20th power is 1000. The square
 root is a parameter known only by its law.
 */
module AecWindow {
  import opened Prelude
  import opened LeastSquares
  import opened Correlation

  const MINIMUM_REFERENCE_RMS: real := 0.0001
  const MAXIMUM_REFERENCE_CORRELATION: real := 0.98
  const MAXIMUM_UNEXPLAINED_ENERGY_RATIO: real := 0.20
  const ECHO_ATTENUATION: real := 10.0
  const MINIMUM_WINDOW: nat := 480

  function MeanSquare(x: Signal): real
    requires x != []
  {
    Dot(x, x) / |x| as real
  }

  /** The signals of one window, all of the same non-zero length. */
  datatype Slices = Slices(pre: Signal, post: Signal, source: Signal, physical: Signal) {
    ghost predicate Valid() {
      |pre| > 0 && |pre| == |post| == |source| == |physical|
    }
  }

  /** The centred signals and the quantities derived from them before solving. */
  datatype Terms = Terms(
    s: Signal, e: Signal, p: Signal, q: Signal,
    ss: real, ee: real, se: real, energy: real,
    sourceActive: bool, echoActive: bool, quiet: bool, identifiable: bool
  ) {
    predicate Dual() { sourceActive && echoActive }

    /** What the definitions below guarantee. */
    ghost predicate Valid() {
      && |s| > 0 && |s| == |e| == |p| == |q|
      && ss == Dot(s, s) && ee == Dot(e, e) && se == Dot(s, e) && energy == Dot(p, p)
      && (sourceActive ==> ss > 0.0) && (echoActive ==> ee > 0.0)
      && (quiet ==> !sourceActive && !echoActive)
      && (identifiable ==>
            |s| >= MINIMUM_WINDOW && (sourceActive || echoActive) && energy > 0.000000000001
            && (sourceActive && echoActive ==> ss * ee - se * se > 0.0))
    }
  }

  lemma ActiveIsPositive(energy: real, count: nat, floor: real)
    requires count > 0 && floor > 0.0 && energy / count as real >= floor
    ensures energy > 0.0
  {
    var n := count as real;
    assert energy == (energy / n) * n;
    assert energy / n > 0.0 && n > 0.0;
    ProductPositive(energy / n, n);
  }

  /** Mean energy at or above the floor. */
  predicate IsActive(energy: real, count: nat): (active: bool)
    requires count > 0
    ensures active ==> energy > 0.0
  {
    var floor := MINIMUM_REFERENCE_RMS * MINIMUM_REFERENCE_RMS;
    if energy / count as real >= floor then
      ActiveIsPositive(energy, count, floor);
      true
    else false
  }

  function Derive(w: Slices, root: Root): (t: Terms)
    requires w.Valid()
    ensures t.Valid()
  {
    var floor := MINIMUM_REFERENCE_RMS * MINIMUM_REFERENCE_RMS;
    var count := |w.pre|;
    var s, e, p, q := Centered(w.source), Centered(w.physical), Centered(w.pre), Centered(w.post);
    var ss, ee, se, energy := Dot(s, s), Dot(e, e), Dot(s, e), Dot(p, p);
    var sourceActive, echoActive := IsActive(ss, count), IsActive(ee, count);
    var dual := sourceActive && echoActive;
    var quiet := !sourceActive && !echoActive
                 && MeanSquare(w.source) <= floor && MeanSquare(w.physical) <= floor
                 && MeanSquare(w.pre) <= floor && MeanSquare(w.post) <= floor;
    var identifiable := count >= MINIMUM_WINDOW && (sourceActive || echoActive)
                        && (!dual || (Abs(Pearson(s, e, root)) <= MAXIMUM_REFERENCE_CORRELATION
                           && ss * ee - se * se > 0.0))
                        && energy > 0.000000000001;
    Terms(s, e, p, q, ss, ee, se, energy, sourceActive, echoActive, quiet, identifiable)
  }

  /** The residual of one reference alone. */
  function SingleResidual(y: Signal, r: Signal, gain: real): real
    requires |y| == |r|
  {
    if y == [] then 0.0
    else
      var d := y[0] - gain * r[0];
      d * d + SingleResidual(y[1..], r[1..], gain)
  }

  /** Gains of source and echo in y, with what they leave. */
  function Solve(t: Terms, y: Signal): Fit
    requires t.Valid() && |y| == |t.s|
  {
    if !t.identifiable then Fit(0.0, 0.0, t.energy)
    else if t.Dual() then Gains(y, t.s, t.e, t.ss, t.ee, t.se)
    else if t.sourceActive then
      var gain := Dot(t.s, y) / t.ss;
      Fit(gain, 0.0, SingleResidual(y, t.s, gain))
    else
      var gain := Dot(t.e, y) / t.ee;
      Fit(0.0, gain, SingleResidual(y, t.e, gain))
  }

  datatype Report = Report(
    startSample: nat, sampleCount: nat, sourceActive: bool, echoActive: bool,
    preSourceGain: real, postSourceGain: real, preEchoGain: real, postEchoGain: real,
    echoAttenuation: Option<real>, sourceRatio: Option<real>,
    preUnexplained: real, postUnexplained: real,
    valid: bool, passed: bool
  )

  /** The variance of the echo coefficient per unit of residual energy and degree of freedom. */
  function EchoVariance(t: Terms): real
    requires t.Valid() && t.identifiable && t.echoActive
  {
    if t.Dual() then t.ss / (t.ss * t.ee - t.se * t.se) else 1.0 / t.ee
  }

  /** Three-sigma bound on the echo coefficient per unit of residual rms. */
  function EchoUncertainty(t: Terms, root: Root): real
    requires t.Valid()
  {
    if t.identifiable && t.echoActive then root(EchoVariance(t) / (|t.s| - 2) as real) * 3.0 else 0.0
  }

  /** The most echo a fit may hide, and the least it must contain. */
  function EchoUpper(fit: Fit, uncertainty: real, root: Root): real {
    Abs(fit.b) + uncertainty * root(fit.residual)
  }

  function EchoLower(fit: Fit, uncertainty: real, root: Root): real {
    Abs(fit.b) - uncertainty * root(fit.residual)
  }

  /** Active samples of the source: the denominator of coverage. */
  function CountActive(source: Signal): nat {
    if source == [] then 0
    else (if Abs(source[0]) >= MINIMUM_REFERENCE_RMS then 1 else 0) + CountActive(source[1..])
  }

  function Analyze(start: nat, w: Slices, root: Root, tolerance: real): Report
    requires w.Valid() && tolerance > 1.0
  {
    var t := Derive(w, root);
    var before, after := Solve(t, t.p), Solve(t, t.q);
    var a, b, r := before.a, before.b, before.residual;
    var c, d, u := after.a, after.b, after.residual;
    var uncertainty := EchoUncertainty(t, root);
    var lower := EchoLower(before, uncertainty, root);
    var upper := EchoUpper(after, uncertainty, root);
    var valid := t.quiet || (t.identifiable && (!t.sourceActive || a > 0.01) && (!t.echoActive || lower > 0.01)
                             && r / t.energy <= MAXIMUM_UNEXPLAINED_ENERGY_RATIO);
    var attenuation := if valid && t.echoActive && upper > 0.000000000000001 then Some(lower / upper) else None;
    var echoOk := valid && (!t.echoActive || upper <= 0.000000000000001
                            || (attenuation.Some? && attenuation.value >= ECHO_ATTENUATION));
    var ratio := if valid && t.sourceActive && c > 0.0 then Some(c / a) else None;
    var sourceOk := !t.sourceActive || (ratio.Some? && 1.0 / tolerance <= ratio.value <= tolerance);
    var unexplained := if t.quiet then 0.0 else if t.energy > 0.000000000001 then u / t.energy else 1.0;
    var passed := valid && echoOk && sourceOk && unexplained <= MAXIMUM_UNEXPLAINED_ENERGY_RATIO;
    Report(start, |w.pre|, t.sourceActive, t.echoActive, a, c, b, d, attenuation, ratio,
           if t.quiet then 0.0 else if t.energy > 0.000000000001 then r / t.energy else 1.0,
           unexplained, valid, passed)
  }

  /** The source kept its level; vacuous where there is no source. */
  predicate SourceOk(report: Report, tolerance: real)
    requires tolerance > 1.0
  {
    !report.sourceActive
    || (report.sourceRatio.Some? && 1.0 / tolerance <= report.sourceRatio.value <= tolerance)
  }

  /** There is signal to divide by. */
  predicate Divides(gain: real, ss: real, residual: real) {
    gain * gain * ss + residual > 0.0
  }

  /** The share of the source in what is left after the fit, at most 1. */
  function Coherence(gain: real, ss: real, residual: real): real
    requires Divides(gain, ss, residual)
  {
    var share := gain * gain * ss / (gain * gain * ss + residual);
    if share < 1.0 then share else 1.0
  }

  function ActiveIn(w: Slices, root: Root): nat
    requires w.Valid()
  {
    if Derive(w, root).sourceActive then CountActive(w.source) else 0
  }
}
