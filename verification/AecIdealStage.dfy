/**
 Stages that pass: recordings that are exact mixtures of two references pass exactly by their
 coefficients, and for two square waves such a stage exists at every length that has three windows.
 */
module AecIdealStage {
  import opened LeastSquares
  import opened Correlation
  import opened AecWindow
  import opened AecAnalysis
  import opened AecMixture

  /** Throughout the stage both recordings are mixtures of the references with the same coefficients. */
  ghost predicate IsIdealStage(whole: Slices, a: real, b: real, c: real, d: real, before: real, after: real)
    requires whole.Valid()
  {
    && Mixes(whole.pre, whole.source, whole.physical, a, b, before)
    && Mixes(whole.post, whole.source, whole.physical, c, d, after)
  }

  /** Every window has both references active and tells them apart. */
  ghost predicate AllIdentifiable(whole: Slices, root: Root, windows: seq<Report>)
    requires Within(whole, windows)
  {
    forall k :: 0 <= k < |windows| ==> TellsApart(WindowAt(whole, windows[k].startSample, windows[k].sampleCount), root)
  }

  ghost predicate TellsApart(w: Slices, root: Root)
    requires w.Valid()
  {
    Derive(w, root).identifiable && Derive(w, root).Dual()
  }

  lemma WindowIsIdeal(whole: Slices, root: Root, start: nat, count: nat,
                      a: real, b: real, c: real, d: real, before: real, after: real)
    requires whole.Valid() && count > 0 && start + count <= |whole.pre|
    requires IsIdealStage(whole, a, b, c, d, before, after) && TellsApart(WindowAt(whole, start, count), root)
    ensures IsIdeal(WindowAt(whole, start, count), root, a, b, c, d, before, after)
  {
    hide Derive, Mixed;
  }

  /** A window that meets the thresholds retains every active sample of the source. */
  lemma IdealWindowRetainsAll(w: Slices, root: Root, tolerance: real,
                              a: real, b: real, c: real, d: real, before: real, after: real)
    requires w.Valid() && tolerance > 1.0 && IsRoot(root)
    requires TellsApart(w, root) && IsIdeal(w, root, a, b, c, d, before, after)
    requires MeetThresholds(true, true, a, b, c, d, tolerance)
    ensures RetainedIn(w, root, tolerance) == ActiveIn(w, root) as real
  {
    hide Derive, Solve, Dot, EchoUncertainty, IsIdeal, CountActive, Divides, Coherence, Analyze;
    var t := Derive(w, root);
    IdealGains(w, root, a, b, c, d, before, after);
    IdealWindowPassesExactlyWhen(0, w, root, tolerance, a, b, c, d, before, after);
    PassedMeansSourceOk(0, w, root, tolerance);
    CoverageDivides(w, root, tolerance);
    CoherenceOfAll(c, t.ss, 0.0);
  }

  lemma PassedMeansSourceOk(start: nat, w: Slices, root: Root, tolerance: real)
    requires w.Valid() && tolerance > 1.0 && Analyze(start, w, root, tolerance).passed
    ensures var report := Analyze(start, w, root, tolerance);
            && SourceOk(report, tolerance) && report.valid
            && report.echoActive == Derive(w, root).echoActive && report.sourceActive == Derive(w, root).sourceActive
  {
    hide Derive, Solve, Dot, EchoUncertainty, EchoLower, EchoUpper;
  }

  lemma CoherenceOfAll(gain: real, ss: real, residual: real)
    requires Divides(gain, ss, residual) && residual == 0.0
    ensures Coherence(gain, ss, residual) == 1.0
  {
    RatioOfSame(gain * gain * ss, gain * gain * ss + residual);
  }

  lemma RatioOfSame(x: real, y: real)
    requires x == y > 0.0
    ensures x / y == 1.0
  {
  }

  // ----- all windows -----

  lemma {:induction false} IdealStageRetainsAll(whole: Slices, root: Root, tolerance: real, windows: seq<Report>,
                                                a: real, b: real, c: real, d: real, before: real, after: real)
    requires Within(whole, windows) && tolerance > 1.0 && IsRoot(root)
    requires IsIdealStage(whole, a, b, c, d, before, after) && AllIdentifiable(whole, root, windows)
    requires MeetThresholds(true, true, a, b, c, d, tolerance)
    ensures TotalRetained(whole, root, tolerance, windows) == TotalActive(whole, root, windows) as real
  {
    hide IsIdealStage, RetainedIn, ActiveIn, TellsApart, WindowAt;
    if windows != [] {
      var front, last := windows[..|windows| - 1], windows[|windows| - 1];
      assert forall k :: 0 <= k < |front| ==> front[k] == windows[k];
      IdealStageRetainsAll(whole, root, tolerance, front, a, b, c, d, before, after);
      WindowIsIdeal(whole, root, last.startSample, last.sampleCount, a, b, c, d, before, after);
      IdealWindowRetainsAll(WindowAt(whole, last.startSample, last.sampleCount), root, tolerance,
                            a, b, c, d, before, after);
    }
  }

  lemma {:induction false} AllEcho(windows: seq<Report>)
    requires forall k :: 0 <= k < |windows| ==> windows[k].valid && windows[k].echoActive
    ensures CountEcho(windows) == |windows|
  {
    if windows != [] {
      AllEcho(windows[..|windows| - 1]);
    }
  }

  lemma {:induction false} EchoAtMostAll(windows: seq<Report>)
    ensures CountEcho(windows) <= |windows|
  {
    if windows != [] {
      EchoAtMostAll(windows[..|windows| - 1]);
    }
  }

  /** What each window of an ideal stage reports. */
  lemma IdealReport(whole: Slices, root: Root, tolerance: real, m: Metrics, k: nat,
                    a: real, b: real, c: real, d: real, before: real, after: real)
    requires tolerance > 1.0 && IsRoot(root) && Faithful(whole, root, tolerance, m) && k < |m.windows|
    requires IsIdealStage(whole, a, b, c, d, before, after) && AllIdentifiable(whole, root, m.windows)
    ensures m.windows[k].passed <==> MeetThresholds(true, true, a, b, c, d, tolerance)
    ensures m.windows[k].passed ==> m.windows[k].valid && m.windows[k].echoActive
  {
    hide IsIdealStage, Analyze, IsIdeal, Derive, MeetThresholds, TotalActive, TotalRetained, CountEcho, Cut, WindowAt;
    var r := m.windows[k];
    var w := WindowAt(whole, r.startSample, r.sampleCount);
    assert TellsApart(w, root);
    WindowIsIdeal(whole, root, r.startSample, r.sampleCount, a, b, c, d, before, after);
    IdealWindowPassesExactlyWhen(r.startSample, w, root, tolerance, a, b, c, d, before, after);
    if r.passed { PassedMeansSourceOk(r.startSample, w, root, tolerance); }
  }

  /**
   A stage of exact mixtures in which every window tells the references apart passes if and only if
   the coefficients meet the thresholds and there are three windows; its coverage is then complete.
   */
  lemma IdealStagePassesExactlyWhen(whole: Slices, root: Root, tolerance: real, m: Metrics,
                                    a: real, b: real, c: real, d: real, before: real, after: real)
    requires tolerance > 1.0 && IsRoot(root) && Faithful(whole, root, tolerance, m)
    requires IsIdealStage(whole, a, b, c, d, before, after) && AllIdentifiable(whole, root, m.windows)
    ensures m.passed <==> MeetThresholds(true, true, a, b, c, d, tolerance) && |m.windows| >= MINIMUM_ECHO_WINDOWS
    ensures m.passed && m.sourceCoverage.Some? ==> m.sourceCoverage.value == 1.0
  {
    hide IsIdealStage, AllIdentifiable, MeetThresholds, TotalActive, TotalRetained, CountEcho, Cut, Tiles;
    forall k | 0 <= k < |m.windows|
      ensures m.windows[k].passed <==> MeetThresholds(true, true, a, b, c, d, tolerance)
      ensures m.windows[k].passed ==> m.windows[k].valid && m.windows[k].echoActive
    {
      IdealReport(whole, root, tolerance, m, k, a, b, c, d, before, after);
    }
    EchoAtMostAll(m.windows);
    if m.passed { assert m.windows[0].passed; }
    if MeetThresholds(true, true, a, b, c, d, tolerance) {
      AllEcho(m.windows);
      IdealStageRetainsAll(whole, root, tolerance, m.windows, a, b, c, d, before, after);
      if m.sourceCoverage.Some? {
        FullCoverage(m.sourceCoverage.value, m.sourceSampleCount);
      }
    }
  }

  lemma FullCoverage(coverage: real, count: nat)
    requires count > 0 && coverage * count as real == count as real
    ensures coverage == 1.0
  {
    CancelFactor(coverage, 1.0, count as real);
  }
}
