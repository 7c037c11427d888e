/**
 The whole echo-cancellation analysis: the loop over windows, the partition it makes of the
 stage, the coverage it reports, and what its verdict certifies.
 */
module AecAnalysis {
  import opened Prelude
  import opened Arithmetic
  import opened LeastSquares
  import opened Correlation
  import opened AecWindow
  import opened AecVerdict

  const WIDTH: nat := 4800
  const RATE: nat := 48_000
  const MINIMUM_ECHO_WINDOWS: nat := 3
  const SOURCE_COVERAGE: real := 0.95

  /** A 32-bit float as read from the capture: a number, or infinite or not a number. */
  datatype Sample = Finite(value: real) | NonFinite

  datatype Violation = Unaligned | InvalidPcm | WindowFailed(start: nat) | TooFewEchoWindows | LowCoverage

  datatype Metrics = Metrics(
    passed: bool, violations: seq<Violation>, sampleCount: nat,
    sourceCoverage: Option<real>, sourceSampleCount: nat, windows: seq<Report>)

  predicate InRange(samples: seq<Sample>) {
    forall k :: 0 <= k < |samples| ==> samples[k].Finite? && Abs(samples[k].value) <= 1.0
  }

  function Values(samples: seq<Sample>): (v: Signal)
    requires InRange(samples)
    ensures |v| == |samples|
  {
    seq(|samples|, k requires 0 <= k < |samples| => samples[k].value)
  }

  /** Where the window starting at `start` ends: a short final fragment joins its predecessor. */
  function WindowEnd(start: nat, n: nat): (end: nat)
    requires start < n
    ensures start < end <= n
  {
    var nominal := Min(start + WIDTH, n);
    if n - nominal < MINIMUM_WINDOW then n else nominal
  }

  function WindowAt(whole: Slices, start: nat, count: nat): (w: Slices)
    requires start + count <= |whole.pre| == |whole.post| == |whole.source| == |whole.physical|
    ensures |w.pre| == |w.post| == |w.source| == |w.physical| == count
  {
    Slices(whole.pre[start..start + count], whole.post[start..start + count],
           whole.source[start..start + count], whole.physical[start..start + count])
  }

  /** Windows that lie end to end from 0. */
  ghost predicate EndToEnd(windows: seq<Report>) {
    && (windows != [] ==> windows[0].startSample == 0)
    && forall k :: 0 <= k < |windows| - 1 ==>
         windows[k].startSample + windows[k].sampleCount == windows[k + 1].startSample
  }

  /** The windows so far lie end to end from 0 up to `end`, and each is analysed as `Analyze` says. */
  ghost predicate Tiles(whole: Slices, root: Root, tolerance: real, windows: seq<Report>, end: nat)
    requires tolerance > 1.0
  {
    && whole.Valid() && end <= |whole.pre|
    && EndToEnd(windows)
    && end == (if windows == [] then 0 else windows[|windows| - 1].startSample + windows[|windows| - 1].sampleCount)
    && (forall k :: 0 <= k < |windows| ==>
          var r := windows[k];
          && r.sampleCount > 0 && r.startSample + r.sampleCount <= end
          && r == Analyze(r.startSample, WindowAt(whole, r.startSample, r.sampleCount), root, tolerance))
  }

  function CountEcho(windows: seq<Report>): nat {
    if windows == [] then 0
    else
      var last := windows[|windows| - 1];
      CountEcho(windows[..|windows| - 1]) + if last.valid && last.echoActive then 1 else 0
  }

  ghost predicate Within(whole: Slices, windows: seq<Report>) {
    && whole.Valid()
    && forall k :: 0 <= k < |windows| ==>
         windows[k].sampleCount > 0 && windows[k].startSample + windows[k].sampleCount <= |whole.pre|
  }

  lemma CoherenceInUnit(gain: real, ss: real, residual: real)
    requires ss >= 0.0 && residual >= 0.0 && Divides(gain, ss, residual)
    ensures 0.0 <= Coherence(gain, ss, residual) <= 1.0
  {
    SquareNonNegative(gain);
    ProductNonNegative(gain * gain, ss);
    QuotientNonNegative(gain * gain * ss, gain * gain * ss + residual);
  }

  /** The share that the gained source has in itself and the residual together. */
  lemma CoherenceIsShare(gain: real, ss: real, residual: real)
    requires ss >= 0.0 && residual >= 0.0 && Divides(gain, ss, residual)
    ensures Coherence(gain, ss, residual) * (gain * gain * ss + residual) == gain * gain * ss
  {
    var kept, all := gain * gain * ss, gain * gain * ss + residual;
    ShareAtMostOne(kept, all);
    ShareTimesAll(kept, all);
  }

  lemma ShareAtMostOne(kept: real, all: real)
    requires kept <= all && all > 0.0
    ensures kept / all <= 1.0
  {
  }

  lemma ShareTimesAll(kept: real, all: real)
    requires all > 0.0
    ensures (kept / all) * all == kept
  {
  }

  /** y splits into what the fit explains and what it leaves. */
  lemma Pythagoras(yy: real, ry: real, rr: real, gain: real)
    requires gain * rr == ry
    ensures Expanded(yy, ry, 0.0, rr, 0.0, 0.0, gain, 0.0) == yy - gain * gain * rr
  {
    assert gain * (gain * rr) == gain * ry;
  }

  /** With the source alone, coherence is the part of the output's energy that the source explains. */
  lemma CoherenceExplains(w: Slices, root: Root)
    requires w.Valid() && Derive(w, root).identifiable && Derive(w, root).sourceActive && !Derive(w, root).echoActive
    ensures var t, fit := Derive(w, root), After(w, root);
            && Dot(t.q, t.q) == fit.a * fit.a * t.ss + fit.residual
            && (Divides(fit.a, t.ss, fit.residual) ==>
                  Coherence(fit.a, t.ss, fit.residual) * Dot(t.q, t.q) == Dot(t.q, t.q) - fit.residual)
  {
    hide Dot, Derive, Residual, SingleResidual, Coherence, Divides;
    var t, fit := Derive(w, root), After(w, root);
    var zero := seq(|t.q|, i => 0.0);
    SolveBounds(t, t.q);
    SingleIsSourceOnly(t.q, t.s, zero, fit.a);
    ResidualExpands(t.q, t.s, zero, fit.a, 0.0);
    DotZero(t.s, zero);
    DotZero(zero, zero);
    DotZero(t.q, zero);
    DotCommutes(t.q, zero);
    ShareTimesAll(Dot(t.s, t.q), t.ss);
    Pythagoras(Dot(t.q, t.q), Dot(t.s, t.q), t.ss, fit.a);
    if Divides(fit.a, t.ss, fit.residual) {
      CoherenceIsShare(fit.a, t.ss, fit.residual);
    }
  }

  lemma SignalPositive(gain: real, ss: real, residual: real)
    requires gain > 0.0 && ss > 0.0 && residual >= 0.0
    ensures Divides(gain, ss, residual)
  {
    ProductPositive(gain, ss);
    ProductPositive(gain, gain * ss);
    assert gain * (gain * ss) == gain * gain * ss;
  }

  /** Where coverage divides, there is signal to divide by. */
  lemma CoverageDivides(w: Slices, root: Root, tolerance: real)
    requires w.Valid() && tolerance > 1.0
    requires Derive(w, root).sourceActive && SourceOk(Analyze(0, w, root, tolerance), tolerance)
    ensures var t := Derive(w, root);
            var fit := Solve(t, t.q);
            fit.residual >= 0.0 && Divides(fit.a, t.ss, fit.residual)
  {
    hide Derive, Solve, Dot, EchoUncertainty, EchoLower, EchoUpper, Divides;
    var t := Derive(w, root);
    var fit := Solve(t, t.q);
    SolveBounds(t, t.q);
    SignalPositive(fit.a, t.ss, fit.residual);
  }

  /** Active source samples of the window that count as retained, weighted by coherence. */
  function RetainedIn(w: Slices, root: Root, tolerance: real): real
    requires w.Valid() && tolerance > 1.0
  {
    var t := Derive(w, root);
    var fit := Solve(t, t.q);
    if t.sourceActive && SourceOk(Analyze(0, w, root, tolerance), tolerance) then
      CoverageDivides(w, root, tolerance);
      CountActive(w.source) as real * Coherence(fit.a, t.ss, fit.residual)
    else 0.0
  }

  /**
   Of the active samples of a window with an active source that kept its level, the share is retained
   that the source has in the output; of other windows nothing.
   */
  lemma RetainedInIs(w: Slices, root: Root, tolerance: real)
    requires w.Valid() && tolerance > 1.0
    ensures var t, fit, kept := Derive(w, root), After(w, root), RetainedIn(w, root, tolerance);
            if t.sourceActive && SourceOk(Analyze(0, w, root, tolerance), tolerance) then
              var explained := fit.a * fit.a * t.ss;
              kept * (explained + fit.residual) == CountActive(w.source) as real * explained
            else kept == 0.0
  {
    hide Derive, Solve, Analyze, SourceOk, Coherence, CountActive, Dot, Divides;
    var t, fit := Derive(w, root), After(w, root);
    if t.sourceActive && SourceOk(Analyze(0, w, root, tolerance), tolerance) {
      CoverageDivides(w, root, tolerance);
      CoherenceIsShare(fit.a, t.ss, fit.residual);
      SameFactor(CountActive(w.source) as real, Coherence(fit.a, t.ss, fit.residual),
                 fit.a * fit.a * t.ss + fit.residual, fit.a * fit.a * t.ss);
    }
  }

  lemma SameFactor(n: real, c: real, all: real, part: real)
    requires c * all == part
    ensures (n * c) * all == n * part
  {
    assert (n * c) * all == n * (c * all);
  }

  lemma RetainedInBounds(w: Slices, root: Root, tolerance: real)
    requires w.Valid() && tolerance > 1.0
    ensures 0.0 <= RetainedIn(w, root, tolerance) <= ActiveIn(w, root) as real
  {
    hide Derive, Solve, Analyze, SourceOk, Coherence, CountActive, Dot, Divides;
    var t := Derive(w, root);
    if t.sourceActive && SourceOk(Analyze(0, w, root, tolerance), tolerance) {
      CoverageDivides(w, root, tolerance);
      var fit, n := Solve(t, t.q), CountActive(w.source) as real;
      CoherenceInUnit(fit.a, t.ss, fit.residual);
      var c := Coherence(fit.a, t.ss, fit.residual);
      ProductNonNegative(n, c);
      ProductNonNegative(n, 1.0 - c);
      assert n * (1.0 - c) == n - n * c;
    }
  }

  /** The samples of the source from `from` on that are not silent. */
  ghost function ActiveSamples(source: Signal, from: nat): set<nat> {
    set k: nat | from <= k < |source| && Abs(source[k]) >= MINIMUM_REFERENCE_RMS
  }

  lemma {:induction false} CountActiveCounts(source: Signal, from: nat)
    requires from <= |source|
    ensures CountActive(source[from..]) == |ActiveSamples(source, from)|
    decreases |source| - from
  {
    if from < |source| {
      CountActiveCounts(source, from + 1);
      assert source[from..][1..] == source[from + 1..];
      if Abs(source[from]) >= MINIMUM_REFERENCE_RMS {
        assert ActiveSamples(source, from) == ActiveSamples(source, from + 1) + {from};
      } else {
        assert ActiveSamples(source, from) == ActiveSamples(source, from + 1);
      }
    }
  }

  ghost function TotalActive(whole: Slices, root: Root, windows: seq<Report>): nat
    requires Within(whole, windows)
  {
    if windows == [] then 0
    else
      var last := windows[|windows| - 1];
      TotalActive(whole, root, windows[..|windows| - 1])
      + ActiveIn(WindowAt(whole, last.startSample, last.sampleCount), root)
  }

  ghost function TotalRetained(whole: Slices, root: Root, tolerance: real, windows: seq<Report>): real
    requires Within(whole, windows) && tolerance > 1.0
  {
    if windows == [] then 0.0
    else
      var last := windows[|windows| - 1];
      TotalRetained(whole, root, tolerance, windows[..|windows| - 1])
      + RetainedIn(WindowAt(whole, last.startSample, last.sampleCount), root, tolerance)
  }

  lemma {:induction false} RetainedAtMostActive(whole: Slices, root: Root, tolerance: real, windows: seq<Report>)
    requires Within(whole, windows) && tolerance > 1.0
    ensures 0.0 <= TotalRetained(whole, root, tolerance, windows) <= TotalActive(whole, root, windows) as real
  {
    if windows != [] {
      var last := windows[|windows| - 1];
      RetainedAtMostActive(whole, root, tolerance, windows[..|windows| - 1]);
      RetainedInBounds(WindowAt(whole, last.startSample, last.sampleCount), root, tolerance);
    }
  }

  // ----- the loop -----

  lemma AnalyzeLabels(start: nat, w: Slices, root: Root, tolerance: real)
    requires w.Valid() && tolerance > 1.0
    ensures var report := Analyze(start, w, root, tolerance);
            report.startSample == start && report.sampleCount == |w.pre|
  {
  }

  /** Analysing one more window keeps the tiling. */
  lemma TilesNext(whole: Slices, root: Root, tolerance: real, windows: seq<Report>, start: nat, end: nat)
    requires tolerance > 1.0 && Tiles(whole, root, tolerance, windows, start) && start < end <= |whole.pre|
    ensures Tiles(whole, root, tolerance,
                  windows + [Analyze(start, WindowAt(whole, start, end - start), root, tolerance)], end)
  {
    hide Analyze, WindowAt;
    var w := WindowAt(whole, start, end - start);
    AnalyzeLabels(start, w, root, tolerance);
    var report := Analyze(start, w, root, tolerance);
    var next := windows + [report];
    assert forall k :: 0 <= k < |windows| ==> next[k] == windows[k];
    assert next[|windows|] == report;
  }

  /** The totals grow by what the new window contributes. */
  lemma TotalsNext(whole: Slices, root: Root, tolerance: real, windows: seq<Report>, report: Report)
    requires tolerance > 1.0 && Within(whole, windows)
    requires report.sampleCount > 0 && report.startSample + report.sampleCount <= |whole.pre|
    ensures var next, w := windows + [report], WindowAt(whole, report.startSample, report.sampleCount);
            && Within(whole, next)
            && TotalActive(whole, root, next) == TotalActive(whole, root, windows) + ActiveIn(w, root)
            && TotalRetained(whole, root, tolerance, next)
               == TotalRetained(whole, root, tolerance, windows) + RetainedIn(w, root, tolerance)
            && CountEcho(next) == CountEcho(windows) + if report.valid && report.echoActive then 1 else 0
  {
    hide Analyze, ActiveIn, RetainedIn, WindowAt;
    assert (windows + [report])[..|windows|] == windows;
  }

  predicate AllPassed(windows: seq<Report>) {
    forall k :: 0 <= k < |windows| ==> windows[k].passed
  }

  lemma AllPassedNext(windows: seq<Report>, report: Report)
    ensures AllPassed(windows + [report]) <==> AllPassed(windows) && report.passed
  {
    var next := windows + [report];
    assert next[|windows|] == report;
    assert forall k :: 0 <= k < |windows| ==> next[k] == windows[k];
  }

  /** How the windows of a stage of n samples are cut. */
  ghost predicate Cut(windows: seq<Report>, n: nat) {
    && (n >= MINIMUM_WINDOW ==>
          && |windows| == (n - MINIMUM_WINDOW) / WIDTH + 1
          && forall k :: 0 <= k < |windows| ==> MINIMUM_WINDOW <= windows[k].sampleCount < WIDTH + MINIMUM_WINDOW)
    && (forall k :: 0 <= k < |windows| ==> windows[k].startSample == WIDTH * k)
    && (0 < n < MINIMUM_WINDOW ==> |windows| == 1)
  }

  /** The same while the loop runs and stands at `start`. */
  ghost predicate CutSoFar(windows: seq<Report>, start: nat, n: nat) {
    && (start < n ==> start == WIDTH * |windows| && (n >= MINIMUM_WINDOW ==> n - start >= MINIMUM_WINDOW))
    && (start < n && n < MINIMUM_WINDOW ==> start == 0)
    && (start == n > 0 ==> Cut(windows, n))
    && (n >= MINIMUM_WINDOW ==>
          forall k :: 0 <= k < |windows| ==> MINIMUM_WINDOW <= windows[k].sampleCount < WIDTH + MINIMUM_WINDOW)
    && (forall k :: 0 <= k < |windows| ==> windows[k].startSample == WIDTH * k)
  }

  lemma CutNext(windows: seq<Report>, start: nat, n: nat, report: Report)
    requires start < n && CutSoFar(windows, start, n)
    requires report.startSample == start && report.sampleCount == WindowEnd(start, n) - start
    ensures CutSoFar(windows + [report], WindowEnd(start, n), n)
  {
    if n >= MINIMUM_WINDOW && WindowEnd(start, n) == n {
      DivIs(n - MINIMUM_WINDOW, WIDTH, |windows|);
    }
  }

  datatype Scan = Scan(windows: seq<Report>, retained: real, sourceSamples: nat, echoWindows: nat,
      violations: seq<Violation>)

  /** The counts, sums and verdicts the loop has gathered are those of the windows it has analysed. */
  ghost predicate Tallied(whole: Slices, root: Root, tolerance: real, scan: Scan)
    requires tolerance > 1.0
  {
    && Within(whole, scan.windows)
    && scan.sourceSamples == TotalActive(whole, root, scan.windows)
    && scan.retained == TotalRetained(whole, root, tolerance, scan.windows)
    && scan.echoWindows == CountEcho(scan.windows)
    && (scan.violations == [] <==> AllPassed(scan.windows))
  }

  /** The scan once a window with this report has been added, given what it contributes. */
  function Add(scan: Scan, report: Report, active: nat, kept: real): Scan {
    Scan(scan.windows + [report], scan.retained + kept, scan.sourceSamples + active,
         scan.echoWindows + (if report.valid && report.echoActive then 1 else 0),
         if report.passed then scan.violations else scan.violations + [WindowFailed(report.startSample)])
  }

  lemma TalliedNext(whole: Slices, root: Root, tolerance: real, scan: Scan, report: Report)
    requires tolerance > 1.0 && Tallied(whole, root, tolerance, scan)
    requires report.sampleCount > 0 && report.startSample + report.sampleCount <= |whole.pre|
    ensures var w := WindowAt(whole, report.startSample, report.sampleCount);
            Tallied(whole, root, tolerance, Add(scan, report, ActiveIn(w, root), RetainedIn(w, root, tolerance)))
  {
    hide ActiveIn, RetainedIn, WindowAt, TotalActive, TotalRetained, CountEcho, AllPassed, Within;
    TotalsNext(whole, root, tolerance, scan.windows, report);
    AllPassedNext(scan.windows, report);
  }

  const NOTHING: Scan := Scan([], 0.0, 0, 0, [])

  lemma NothingScanned(whole: Slices, root: Root, tolerance: real)
    requires whole.Valid() && tolerance > 1.0
    ensures Tiles(whole, root, tolerance, [], 0) && CutSoFar([], 0, |whole.pre|)
    ensures Tallied(whole, root, tolerance, NOTHING)
  {
  }

  lemma AllCut(windows: seq<Report>, n: nat)
    requires n > 0 && CutSoFar(windows, n, n)
    ensures Cut(windows, n)
  {
  }

  /** One turn of the loop keeps everything the loop has established. */
  lemma ScanNext(whole: Slices, root: Root, tolerance: real, scan: Scan, start: nat, end: nat, w: Slices,
      report: Report)
    requires whole.Valid() && tolerance > 1.0 && start < |whole.pre| && end == WindowEnd(start, |whole.pre|)
    requires w == WindowAt(whole, start, end - start) && report == Analyze(start, w, root, tolerance)
    requires Tiles(whole, root, tolerance, scan.windows, start)
    requires CutSoFar(scan.windows, start, |whole.pre|)
    requires Tallied(whole, root, tolerance, scan)
    ensures var next := Add(scan, report, ActiveIn(w, root), RetainedIn(w, root, tolerance));
            && Tiles(whole, root, tolerance, next.windows, end)
            && CutSoFar(next.windows, end, |whole.pre|)
            && Tallied(whole, root, tolerance, next)
  {
    hide Analyze, ActiveIn, RetainedIn, Tiles, CutSoFar, Tallied, WindowAt;
    AnalyzeLabels(start, w, root, tolerance);
    TilesNext(whole, root, tolerance, scan.windows, start, end);
    CutNext(scan.windows, start, |whole.pre|, report);
    TalliedNext(whole, root, tolerance, scan, report);
  }

  /** Enter one window into the loop's counters. */
  method Record(scan: Scan, report: Report, active: nat, kept: real) returns (next: Scan)
    ensures next == Add(scan, report, active, kept)
  {
    next := scan;
    if report.valid && report.echoActive {
      next := next.(echoWindows := next.echoWindows + 1);
    }
    next := next.(sourceSamples := next.sourceSamples + active, retained := next.retained + kept);
    if !report.passed {
      next := next.(violations := next.violations + [WindowFailed(report.startSample)]);
    }
    next := next.(windows := next.windows + [report]);
  }

  /** The loop over the windows of a stage. */
  method ScanWindows(whole: Slices, root: Root, tolerance: real) returns (scan: Scan)
    requires whole.Valid() && tolerance > 1.0
    ensures Tiles(whole, root, tolerance, scan.windows, |whole.pre|)
    ensures Cut(scan.windows, |whole.pre|)
    ensures Tallied(whole, root, tolerance, scan)
  {
    hide Analyze, ActiveIn, RetainedIn, Tiles, CutSoFar, Cut, Tallied, WindowAt;
    scan := NOTHING;
    NothingScanned(whole, root, tolerance);
    var start := 0;
    while start < |whole.pre|
      invariant start <= |whole.pre|
      invariant Tiles(whole, root, tolerance, scan.windows, start)
      invariant CutSoFar(scan.windows, start, |whole.pre|)
      invariant Tallied(whole, root, tolerance, scan)
      decreases |whole.pre| - start
    {
      var end := WindowEnd(start, |whole.pre|);
      var w := WindowAt(whole, start, end - start);
      var report := Analyze(start, w, root, tolerance);
      ScanNext(whole, root, tolerance, scan, start, end, w, report);
      scan := Record(scan, report, ActiveIn(w, root), RetainedIn(w, root, tolerance));
      start := end;
    }
    AllCut(scan.windows, |whole.pre|);
  }

  // ----- the whole evaluation -----

  predicate Aligned(pre: seq<Sample>, post: seq<Sample>, source: seq<Sample>, physical: seq<Sample>, rate: nat) {
    rate == RATE && pre != [] && |post| == |source| == |physical| == |pre|
  }

  predicate AllInRange(pre: seq<Sample>, post: seq<Sample>, source: seq<Sample>, physical: seq<Sample>) {
    InRange(pre) && InRange(post) && InRange(source) && InRange(physical)
  }

  ghost function Stage(pre: seq<Sample>, post: seq<Sample>, source: seq<Sample>, physical: seq<Sample>): (whole: Slices)
    requires Aligned(pre, post, source, physical, RATE) && AllInRange(pre, post, source, physical)
    ensures whole.Valid() && |whole.pre| == |pre|
  {
    Slices(Values(pre), Values(post), Values(source), Values(physical))
  }

  /** Metrics that report the stage as it is, with the verdict they have to carry. */
  ghost predicate Faithful(whole: Slices, root: Root, tolerance: real, m: Metrics)
    requires tolerance > 1.0
  {
    && Tiles(whole, root, tolerance, m.windows, |whole.pre|) && Cut(m.windows, |whole.pre|)
    && Within(whole, m.windows)
    && m.sampleCount == |whole.pre|
    && m.sourceSampleCount == TotalActive(whole, root, m.windows)
    && (m.sourceCoverage.Some? <==> m.sourceSampleCount > 0)
    && (m.sourceCoverage.Some? ==>
          && 0.0 <= m.sourceCoverage.value <= 1.0
          && m.sourceCoverage.value * m.sourceSampleCount as real == TotalRetained(whole, root, tolerance, m.windows))
    && (m.passed <==>
          && AllPassed(m.windows) && CountEcho(m.windows) >= MINIMUM_ECHO_WINDOWS
          && (m.sourceCoverage.None? || m.sourceCoverage.value >= SOURCE_COVERAGE))
    && (m.passed <==> m.violations == [])
  }

  lemma CoverageInUnit(retained: real, count: nat)
    requires count > 0 && 0.0 <= retained <= count as real
    ensures var coverage := retained / count as real;
            0.0 <= coverage <= 1.0 && coverage * count as real == retained
  {
  }

  /** What is reported once the loop is done. */
  method Conclude(whole: Slices, root: Root, tolerance: real, scan: Scan) returns (m: Metrics)
    requires whole.Valid() && tolerance > 1.0
    requires Tiles(whole, root, tolerance, scan.windows, |whole.pre|) && Cut(scan.windows, |whole.pre|)
    requires Tallied(whole, root, tolerance, scan)
    ensures Faithful(whole, root, tolerance, m)
  {
    hide Tiles, Cut, Within, TotalActive, TotalRetained, CountEcho, AllPassed;
    RetainedAtMostActive(whole, root, tolerance, scan.windows);
    var coverage := None;
    if scan.sourceSamples > 0 {
      CoverageInUnit(scan.retained, scan.sourceSamples);
      coverage := Some(scan.retained / scan.sourceSamples as real);
    }
    var violations := scan.violations;
    if scan.echoWindows < MINIMUM_ECHO_WINDOWS {
      violations := violations + [TooFewEchoWindows];
    }
    if coverage.Some? && coverage.value < SOURCE_COVERAGE {
      violations := violations + [LowCoverage];
    }
    m := Metrics(violations == [], violations, |whole.pre|, coverage, scan.sourceSamples, scan.windows);
  }

  method AnalyzeClosedLoop(pre: seq<Sample>, post: seq<Sample>, source: seq<Sample>, physical: seq<Sample>,
                           rate: nat, root: Root, tolerance: real) returns (m: Metrics)
    requires tolerance > 1.0
    ensures !Aligned(pre, post, source, physical, rate) ==> m == Metrics(false, [Unaligned], |pre|, None, 0, [])
    ensures Aligned(pre, post, source, physical, rate) && !AllInRange(pre, post, source, physical)
            ==> m == Metrics(false, [InvalidPcm], |pre|, None, 0, [])
    ensures Aligned(pre, post, source, physical, rate) && AllInRange(pre, post, source, physical)
            ==> Faithful(Stage(pre, post, source, physical), root, tolerance, m)
  {
    m := Metrics(false, [], |pre|, None, 0, []);
    if !Aligned(pre, post, source, physical, rate) {
      m := m.(violations := [Unaligned]);
      return;
    }
    if !AllInRange(pre, post, source, physical) {
      m := m.(violations := [InvalidPcm]);
      return;
    }
    var whole := Slices(Values(pre), Values(post), Values(source), Values(physical));
    var scan := ScanWindows(whole, root, tolerance);
    m := Conclude(whole, root, tolerance, scan);
  }

  /** A stage passes if and only if every window is certified and echo and coverage suffice. */
  lemma StagePassesExactlyWhen(whole: Slices, root: Root, tolerance: real, m: Metrics)
    requires tolerance > 1.0 && Faithful(whole, root, tolerance, m)
    ensures m.passed <==>
              && (forall k :: 0 <= k < |m.windows| ==>
                    Certified(WindowAt(whole, m.windows[k].startSample, m.windows[k].sampleCount), root, tolerance))
              && |EchoWindows(m.windows)| >= MINIMUM_ECHO_WINDOWS
              && (m.sourceCoverage.Some? ==> m.sourceCoverage.value >= SOURCE_COVERAGE)
  {
    hide Analyze, Certified, Cut, TotalActive, TotalRetained, CountEcho;
    CountEchoCounts(m.windows);
    forall k | 0 <= k < |m.windows|
      ensures m.windows[k].passed <==>
                Certified(WindowAt(whole, m.windows[k].startSample, m.windows[k].sampleCount), root, tolerance)
    {
      var r := m.windows[k];
      PassedExactlyWhen(r.startSample, WindowAt(whole, r.startSample, r.sampleCount), root, tolerance);
    }
  }

  /** Certification: a passed stage is sound window by window, and enough of them carry echo. */
  lemma PassedStageIsSound(whole: Slices, root: Root, tolerance: real, m: Metrics)
    requires tolerance > 1.0 && IsRoot(root) && Faithful(whole, root, tolerance, m) && m.passed
    ensures forall k :: 0 <= k < |m.windows| ==>
              Sound(WindowAt(whole, m.windows[k].startSample, m.windows[k].sampleCount), root, tolerance)
    ensures |EchoWindows(m.windows)| >= MINIMUM_ECHO_WINDOWS
    ensures m.sourceCoverage.Some? ==> SOURCE_COVERAGE <= m.sourceCoverage.value <= 1.0
  {
    hide Analyze, Sound, Cut, TotalActive, TotalRetained, CountEcho;
    CountEchoCounts(m.windows);
    forall k | 0 <= k < |m.windows|
      ensures Sound(WindowAt(whole, m.windows[k].startSample, m.windows[k].sampleCount), root, tolerance)
    {
      var r := m.windows[k];
      PassedIsSound(r.startSample, WindowAt(whole, r.startSample, r.sampleCount), root, tolerance);
    }
  }

  /** Which windows are valid and carry echo. */
  ghost function EchoWindows(windows: seq<Report>): set<nat> {
    set k: nat | k < |windows| && windows[k].valid && windows[k].echoActive
  }

  lemma {:induction false} CountEchoCounts(windows: seq<Report>)
    ensures |EchoWindows(windows)| == CountEcho(windows)
  {
    if windows != [] {
      var front, last := windows[..|windows| - 1], windows[|windows| - 1];
      CountEchoCounts(front);
      if last.valid && last.echoActive {
        assert EchoWindows(windows) == EchoWindows(front) + {|windows| - 1};
      } else {
        assert EchoWindows(windows) == EchoWindows(front);
      }
    }
  }

  predicate Holds(r: Report, i: nat) {
    r.startSample <= i < r.startSample + r.sampleCount
  }

  lemma {:induction false} InOrder(windows: seq<Report>, k: nat, j: nat)
    requires EndToEnd(windows) && k < j < |windows|
    ensures windows[k].startSample + windows[k].sampleCount <= windows[j].startSample
  {
    if k + 1 < j {
      InOrder(windows, k, j - 1);
      assert windows[j - 1].startSample + windows[j - 1].sampleCount == windows[j - 1 + 1].startSample;
    }
  }

  lemma {:induction false} SomeWindowHolds(windows: seq<Report>, last: nat, i: nat) returns (k: nat)
    requires EndToEnd(windows) && last < |windows|
    requires i < windows[last].startSample + windows[last].sampleCount
    ensures k <= last && Holds(windows[k], i)
  {
    if windows[last].startSample <= i {
      k := last;
    } else {
      assert windows[last - 1].startSample + windows[last - 1].sampleCount == windows[last - 1 + 1].startSample;
      k := SomeWindowHolds(windows, last - 1, i);
    }
  }

  /** Windows that end at n partition [0, n): every sample lies in exactly one of them. */
  lemma EverySampleIsInOneWindow(windows: seq<Report>, n: nat, i: nat) returns (k: nat)
    requires EndToEnd(windows) && windows != [] && i < n
    requires windows[|windows| - 1].startSample + windows[|windows| - 1].sampleCount == n
    ensures k < |windows| && Holds(windows[k], i)
    ensures forall j :: 0 <= j < |windows| && Holds(windows[j], i) ==> j == k
  {
    k := SomeWindowHolds(windows, |windows| - 1, i);
    forall j | 0 <= j < |windows| && Holds(windows[j], i) ensures j == k {
      if j < k { InOrder(windows, j, k); }
      if k < j { InOrder(windows, k, j); }
    }
  }
}
