/**
 The canonical analysis end to end: which inputs it rejects, which make it panic, and what the
 nine candidates it reports mean.
 */
module CanonicalAnalysis {
  import opened Prelude
  import opened Correlation
  import opened BestFirst
  import opened CanonicalPlan
  import opened CanonicalSearch
  import opened CanonicalCandidates

  // ----- what a local search finds -----

  lemma PassKeepsRange(p: Probe, r: Range, from: Scored<Place>, low: int, high: int, step: nat, stride: nat,
      best: Scored<Place>)
    requires step > 0 && stride > 0 && 0 <= r.low <= low && high <= r.high
    requires Best(Some(from), p.Trail(from.item.offset, Steps(low, high, step), stride)) == Some(best)
    ensures best.item.offset == from.item.offset && from.score <= best.score
    ensures best == from || (r.low <= best.item.lag <= r.high && low <= best.item.lag <= high
            && Evaluated(p, best, stride))
    ensures forall lag :: lag in Steps(low, high, step) && p.Fits(from.item.offset, lag) ==>
              p.Evaluate(from.item.offset, lag, stride).score <= best.score
  {
    hide Probe.Evaluate, Probe.Fits, Evaluated;
    CanonicalCandidates.TrailHas(p, from.item.offset, Steps(low, high, step), stride);
    StepsStayWithin(low, high, step);
    BestDominates(Some(from), p.Trail(from.item.offset, Steps(low, high, step), stride));
  }

  lemma GridKeepsRange(p: Probe, r: Range, coarse: Scored<Place>)
    requires r.offsetStep > 0 && Coarse(p, r) == Some(coarse)
    ensures coarse.item.offset <= r.top && r.low <= coarse.item.lag <= r.high && Evaluated(p, coarse, 8)
    ensures BeatsGrid(p, r, coarse.score)
  {
    hide Probe.Evaluate, Probe.Fits, Evaluated;
    GridHas(p, Steps(0, r.top, r.offsetStep), Steps(r.low, r.high, COARSE_STEP), 8);
    StepsStayWithin(0, r.top, r.offsetStep);
    StepsStayWithin(r.low, r.high, COARSE_STEP);
    BestDominates(None, p.Grid(Steps(0, r.top, r.offsetStep), Steps(r.low, r.high, COARSE_STEP), 8));
  }

  /** x was really measured: inside both signals, at an offset and lag of the range. */
  ghost predicate Measured(p: Probe, r: Range, x: Scored<Place>) {
    && x.item.offset <= r.top && r.low <= x.item.lag <= r.high
    && (Evaluated(p, x, 8) || Evaluated(p, x, 4) || Evaluated(p, x, 2))
  }

  /** No place of the coarse grid scores better. */
  ghost predicate BeatsGrid(p: Probe, r: Range, score: real)
    requires r.offsetStep > 0
  {
    forall offset, lag ::
      (offset in Steps(0, r.top, r.offsetStep) && lag in Steps(r.low, r.high, COARSE_STEP) && p.Fits(offset, lag))
      ==> p.Evaluate(offset, lag, 8).score <= score
  }

  /**
   The outcome of the local search was measured, beats every place of the grid, and beats at the
   finest resolution every lag within 4 of the refined one at its offset.
   */
  lemma LocalBestDominates(p: Probe, r: Range, best: Scored<Place>) returns (refinedLag: nat)
    requires IsLocalBest(p, r, best)
    ensures Measured(p, r, best) && BeatsGrid(p, r, best.score)
    ensures r.low <= refinedLag <= r.high && -4 <= best.item.lag - refinedLag <= 4
    ensures forall lag: nat ::
              refinedLag - 4 <= lag <= refinedLag + 4 && r.low <= lag <= r.high && p.Fits(best.item.offset, lag) ==>
                p.Evaluate(best.item.offset, lag, 2).score <= best.score
  {
    hide Probe.Evaluate, Probe.Fits, Probe.Trail, Evaluated, Best, Steps, Coarse;
    var coarse, refined :|
      Coarse(p, r) == Some(coarse) && Refined(p, r, coarse) == Some(refined) && Final(p, r, refined) == Some(best);
    GridKeepsRange(p, r, coarse);
    var lag := coarse.item.lag;
    PassKeepsRange(p, r, coarse, Max(Minus(lag, COARSE_STEP), r.low), Min(r.high, lag + COARSE_STEP), FINE_STEP, 4,
        refined);
    refinedLag := refined.item.lag;
    var low, high := Max(Minus(refinedLag, FINE_STEP), r.low), Min(r.high, refinedLag + FINE_STEP);
    PassKeepsRange(p, r, refined, low, high, 1, 2, best);
    forall lag: nat | low <= lag <= high ensures lag in Steps(low, high, 1) {
      StepsVisit(low, high, 1, lag - low);
    }
  }

  /** Where the first place of the grid fits, the search finds something. */
  lemma SearchFinds(p: Probe, r: Range)
    requires r.offsetStep > 0 && r.low <= r.high && p.Fits(0, r.low)
    ensures Coarse(p, r).Some?
  {
    hide Probe.Evaluate, Probe.Fits, Probe.Grid;
    GridHas(p, Steps(0, r.top, r.offsetStep), Steps(r.low, r.high, COARSE_STEP), 8);
    BestDominates(None, p.Grid(Steps(0, r.top, r.offsetStep), Steps(r.low, r.high, COARSE_STEP), 8));
  }

  // ----- the candidates -----

  datatype Candidate = Candidate(
    index: nat, anchor: nat, offset: nat, referenceStart: nat, recordedStart: nat, samples: nat,
    anchorLag: nat, localLag: nat, localLagDelta: int, waveform: real, derivative: real)

  function ProbeOf(s: Setup, segment: Segment, polarity: int, rate: nat): Probe {
    Probe(s.reference, s.recorded, segment.start, rate / 5, polarity, s.root)
  }

  function RangeOf(s: Setup, segment: Segment, anchorLag: nat, rate: nat): Range
    requires segment.samples >= rate / 5
  {
    var fragment := rate / 5;
    Range(segment.samples - fragment, rate / 20, Minus(anchorLag, fragment),
          Min(anchorLag + fragment, Minus(|s.recorded|, segment.start + fragment)))
  }

  function CandidateOf(segment: Segment, anchorLag: nat, rate: nat, place: Place): Candidate {
    var start := segment.start + place.offset;
    Candidate(segment.index, segment.start, place.offset, start, start + place.lag, rate / 5,
              anchorLag, place.lag, place.lag - anchorLag, place.waveform, place.derivative)
  }

  /** The best local match of a segment. */
  ghost predicate IsCandidate(s: Setup, segment: Segment, anchorLag: nat, polarity: int, rate: nat, c: Candidate) {
    && segment.samples >= rate / 5
    && exists best: Scored<Place> ::
         && IsLocalBest(ProbeOf(s, segment, polarity, rate), RangeOf(s, segment, anchorLag, rate), best)
         && c == CandidateOf(segment, anchorLag, rate, best.item)
  }

  /** Segments, lag and rate as the global search hands them over. */
  ghost predicate Ready(s: Setup, length: nat, rate: nat, anchorLag: nat) {
    && IsPlan(s.segments, length, rate) && 3 * rate <= length <= |s.reference|
    && LastEnd(s.segments) + anchorLag <= |s.recorded|
  }

  lemma FragmentFits(length: nat, rate: nat)
    requires 3 * rate <= length
    ensures rate / 5 <= SamplesPerSegment(length, rate)
  {
  }

  /** The search of every segment has a non-empty range and a first place that fits. */
  lemma SegmentIsSearchable(s: Setup, length: nat, rate: nat, anchorLag: nat, i: nat, polarity: int)
    requires Ready(s, length, rate, anchorLag) && i < |s.segments| && rate >= 20
    ensures s.segments[i].samples >= rate / 5
    ensures var p, r := ProbeOf(s, s.segments[i], polarity, rate), RangeOf(s, s.segments[i], anchorLag, rate);
            r.offsetStep > 0 && r.low <= anchorLag <= r.high && Coarse(p, r).Some?
  {
    hide Coarse;
    FragmentFits(length, rate);
    assert s.segments[i].start + s.segments[i].samples <= LastEnd(s.segments);
    var p, r := ProbeOf(s, s.segments[i], polarity, rate), RangeOf(s, s.segments[i], anchorLag, rate);
    SearchFinds(p, r);
  }

  method Candidates(s: Setup, anchorLag: nat, polarity: int, rate: nat, ghost length: nat)
    returns (r: Outcome<seq<Candidate>>)
    requires Ready(s, length, rate, anchorLag)
    ensures rate < 20 ==> r == Panicked
    ensures rate >= 20 ==>
              && r.Returned? && |r.value| == |s.segments|
              && forall i :: 0 <= i < |s.segments| ==>
                   IsCandidate(s, s.segments[i], anchorLag, polarity, rate, r.value[i])
  {
    hide IsLocalBest, Coarse, Probe.Fits, Probe.Evaluate;
    var found := [];
    FragmentFits(length, rate);
    for i := 0 to |s.segments|
      invariant |found| == i && (i > 0 ==> rate >= 20)
      invariant forall j :: 0 <= j < i ==> IsCandidate(s, s.segments[j], anchorLag, polarity, rate, found[j])
    {
      var segment := s.segments[i];
      var p, range := ProbeOf(s, segment, polarity, rate), RangeOf(s, segment, anchorLag, rate);
      if range.offsetStep == 0 {
        return Panicked;
      }
      SegmentIsSearchable(s, length, rate, anchorLag, i, polarity);
      var best := LocalSearch(p, range);
      if best.None? {
        return Failed(NoCompleteFragment);
      }
      var c := CandidateOf(segment, anchorLag, rate, best.value.item);
      assert IsCandidate(s, segment, anchorLag, polarity, rate, c);
      found := found + [c];
    }
    r := Returned(found);
  }

  /** What a candidate means, whatever the search did. */
  lemma CandidateIsSound(s: Setup, length: nat, rate: nat, anchorLag: nat, polarity: int, i: nat, c: Candidate)
    requires Ready(s, length, rate, anchorLag) && i < |s.segments| && rate >= 20
    requires IsCandidate(s, s.segments[i], anchorLag, polarity, rate, c)
    ensures c.index == i && c.localLagDelta == c.localLag - anchorLag && -(rate / 5) <= c.localLagDelta <= rate / 5
    ensures c.referenceStart + c.samples <= s.segments[i].start + s.segments[i].samples <= |s.reference|
    ensures c.recordedStart == c.referenceStart + c.localLag && c.recordedStart + c.samples <= |s.recorded|
    ensures s.segments[i].start <= c.referenceStart
    ensures c.anchor == s.segments[i].start && c.referenceStart == c.anchor + c.offset
    ensures c.anchorLag == anchorLag && c.samples == rate / 5
  {
    var p, r := ProbeOf(s, s.segments[i], polarity, rate), RangeOf(s, s.segments[i], anchorLag, rate);
    var best: Scored<Place> :| IsLocalBest(p, r, best) && c == CandidateOf(s.segments[i], anchorLag, rate, best.item);
    hide IsLocalBest, Probe.Evaluate;
    var refinedLag := LocalBestDominates(p, r, best);
  }

  /** The figures of a candidate are the correlations of its two stretches, turned by the polarity. */
  ghost predicate Reports(s: Setup, polarity: int, c: Candidate, stride: nat) {
    && stride in {2, 4, 8}
    && c.referenceStart + c.samples <= |s.reference| && c.recordedStart + c.samples <= |s.recorded|
    && var played := s.reference[c.referenceStart..c.referenceStart + c.samples];
       var heard := s.recorded[c.recordedStart..c.recordedStart + c.samples];
       && c.waveform == WindowCorrelation(played, heard, stride, false, s.root) * polarity as real
       && c.derivative == WindowCorrelation(played, heard, stride, true, s.root) * polarity as real
  }

  lemma EvaluatedReports(s: Setup, segment: Segment, anchorLag: nat, rate: nat, polarity: int, best: Scored<Place>,
      stride: nat)
    requires stride in {2, 4, 8} && Evaluated(ProbeOf(s, segment, polarity, rate), best, stride)
    ensures Reports(s, polarity, CandidateOf(segment, anchorLag, rate, best.item), stride)
    ensures best.score == Weighted(best.item.waveform, best.item.derivative)
  {
    hide WindowCorrelation;
    var p, from := ProbeOf(s, segment, polarity, rate), segment.start + best.item.offset;
    assert p.anchor + best.item.offset == from;
  }

  /** What a candidate reports was measured where it says. */
  lemma CandidateReports(s: Setup, segment: Segment, rate: nat, anchorLag: nat, polarity: int, c: Candidate)
    returns (stride: nat)
    requires IsCandidate(s, segment, anchorLag, polarity, rate, c)
    ensures Reports(s, polarity, c, stride)
  {
    hide IsLocalBest, Probe.Evaluate, Reports;
    var p, r := ProbeOf(s, segment, polarity, rate), RangeOf(s, segment, anchorLag, rate);
    var best: Scored<Place> :| IsLocalBest(p, r, best) && c == CandidateOf(segment, anchorLag, rate, best.item);
    var refinedLag := LocalBestDominates(p, r, best);
    stride := if Evaluated(p, best, 8) then 8 else if Evaluated(p, best, 4) then 4 else 2;
    EvaluatedReports(s, segment, anchorLag, rate, polarity, best, stride);
  }

  lemma {:induction false} StepsCut(low: nat, high: int, step: nat, longer: int, x: nat)
    requires step > 0 && x in Steps(low, longer, step) && x <= high
    ensures x in Steps(low, high, step)
    decreases longer + 1 - low
  {
    StepsStayWithin(low, longer, step);
    if x != low { StepsCut(low + step, high, step, longer, x); }
  }

  /**
   No fragment a multiple of a twentieth of a second into its segment, at no lag a fifth of a second around
   the global one in steps of 80, weighs more than the candidate.
   */
  lemma CandidateBeatsGrid(s: Setup, segment: Segment, rate: nat, anchorLag: nat, polarity: int, c: Candidate,
      offset: nat, lag: nat)
    requires IsCandidate(s, segment, anchorLag, polarity, rate, c) && rate >= 20
    requires offset in Steps(0, segment.samples - rate / 5, rate / 20)
    requires lag in Steps(Minus(anchorLag, rate / 5), anchorLag + rate / 5, COARSE_STEP)
    requires ProbeOf(s, segment, polarity, rate).Fits(offset, lag)
    ensures ProbeOf(s, segment, polarity, rate).Evaluate(offset, lag, 8).score <= Weighted(c.waveform, c.derivative)
  {
    hide IsLocalBest, Probe.Evaluate, Steps, Reports, Weighted;
    var p, r := ProbeOf(s, segment, polarity, rate), RangeOf(s, segment, anchorLag, rate);
    var best: Scored<Place> :| IsLocalBest(p, r, best) && c == CandidateOf(segment, anchorLag, rate, best.item);
    var refinedLag := LocalBestDominates(p, r, best);
    StepsStayWithin(Minus(anchorLag, rate / 5), anchorLag + rate / 5, COARSE_STEP);
    StepsCut(r.low, r.high, COARSE_STEP, anchorLag + rate / 5, lag);
    var stride := if Evaluated(p, best, 8) then 8 else if Evaluated(p, best, 4) then 4 else 2;
    EvaluatedReports(s, segment, anchorLag, rate, polarity, best, stride);
  }

  // ----- the whole analysis -----

  datatype Analysis = Analysis(lag: nat, maximumLag: nat, polarity: int, candidates: seq<Candidate>)

  function CommonLength(reference: Pcm, recorded: Pcm, rate: nat): nat {
    Min(|reference|, Minus(|recorded|, rate))
  }

  /** The reported lag is the global one and every candidate the local best of its segment. */
  ghost predicate IsAnalysis(s: Setup, length: nat, rate: nat, a: Analysis) {
    && Ready(s, length, rate, a.lag)
    && IsGlobal(s, a.maximumLag, Global(a.lag, a.maximumLag, a.polarity))
    && a.maximumLag == Min(|s.recorded| - LastEnd(s.segments), rate * 15)
    && |a.candidates| == CANDIDATES
    && forall i :: 0 <= i < CANDIDATES ==> IsCandidate(s, s.segments[i], a.lag, a.polarity, rate, a.candidates[i])
  }

  lemma PlanEnds(s: Setup, length: nat, rate: nat)
    requires IsPlan(s.segments, length, rate)
    ensures |s.segments| == CANDIDATES && LastEnd(s.segments) <= length
  {
  }

  lemma IsReady(s: Setup, length: nat, rate: nat, lag: nat)
    requires IsPlan(s.segments, length, rate) && 3 * rate <= length <= |s.reference|
    requires LastEnd(s.segments) + lag <= |s.recorded|
    ensures Ready(s, length, rate, lag)
  {
  }

  /** Both searches over the segments of a plan that lies in the reference and in the recording. */
  method SearchPlan(s: Setup, length: nat, rate: nat) returns (r: Outcome<Analysis>)
    requires IsPlan(s.segments, length, rate) && 3 * rate <= length <= |s.reference| && length <= |s.recorded|
    ensures rate < 20 ==> r == Panicked
    ensures rate >= 20 ==> r.Returned? && IsAnalysis(s, length, rate, r.value)
  {
    hide IsPlan, IsGlobal, IsCandidate, Ready;
    PlanEnds(s, length, rate);
    var global := GlobalSearch(s, rate, length);
    match global {
      case Panicked => r := Panicked;
      case Failed(failure) => r := Failed(failure);
      case Returned(g) =>
        LagInRange(s, Min(|s.recorded| - LastEnd(s.segments), rate * 15), g);
        IsReady(s, length, rate, g.lag);
        var candidates := Candidates(s, g.lag, g.polarity, rate, length);
        match candidates {
          case Panicked => r := Panicked;
          case Failed(failure) => r := Failed(failure);
          case Returned(found) => r := Returned(Analysis(g.lag, g.maximumLag, g.polarity, found));
        }
    }
  }

  /**
   The analysis is total once the length check passes, exactly for rates of at least 20: below
   that the step of the fragment search is zero, which panics. No other failure is reachable.
   */
  method AnalyzeCanonical(reference: Pcm, recorded: Pcm, rate: nat, root: Root) returns (r: Outcome<Analysis>)
    ensures var length := CommonLength(reference, recorded, rate);
            && (r == Failed(ReferenceTooShort) <==> length < 3 * rate)
            && (r == Failed(ReferenceTooShort) <==> |reference| < 3 * rate || |recorded| < 4 * rate)
            && (r.Failed? ==> length < 3 * rate)
            && (r == Panicked <==> length >= 3 * rate && rate < 20)
            && (r.Returned? ==>
                  && SegmentPlan(length, rate).Returned?
                  && IsAnalysis(Setup(reference, recorded, SegmentPlan(length, rate).value, root), length, rate,
                     r.value))
  {
    hide SegmentPlan, IsPlan, IsAnalysis;
    var length := CommonLength(reference, recorded, rate);
    PlanIsSound(length, rate);
    var plan := SegmentPlan(length, rate);
    if plan.Failed? {
      return Failed(plan.failure);
    }
    r := SearchPlan(Setup(reference, recorded, plan.value, root), length, rate);
  }

  /** Three seconds at a rate of 19, which pass the length check. */
  method LowRatePanics(root: Root) returns (r: Outcome<Analysis>)
    ensures r == Panicked
  {
    r := AnalyzeCanonical(seq(57, i => 0), seq(76, i => 0), 19, root);
  }

  lemma LagInRange(s: Setup, maximum: nat, g: Global)
    requires IsGlobal(s, maximum, g)
    ensures g.lag <= maximum == g.maximumLag
  {
    var best, coarse := GlobalDominates(s, maximum, g);
  }
}
