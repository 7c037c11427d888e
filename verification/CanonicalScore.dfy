/**
 What the scores of the canonical analysis measure: the polarity is the sign of the mean waveform
 correlation, no score exceeds 1, and a recording that holds the reference itself, upright or
 inverted, scores 1 with its true polarity and is recognised.
 */
module CanonicalScore {
  import opened BestFirst
  import opened CanonicalAnalysis
  import opened CanonicalCandidates
  import opened CanonicalPlan
  import opened CanonicalSearch
  import opened Correlation
  import opened ExactCopies
  import opened LeastSquares
  import opened Prelude

  // ----- what a score is -----

  /** The mean over the segments. */
  function MeanOver(s: Setup, lag: nat, stride: nat, derivative: bool): real
    requires s.segments != [] && stride > 0 && s.Fits(lag)
  {
    s.Total(0, lag, stride, derivative) / |s.segments| as real
  }

  lemma {:induction false} TotalInUnits(s: Setup, from: nat, lag: nat, stride: nat, derivative: bool)
    requires from <= |s.segments| && stride > 0 && s.Fits(lag) && IsRoot(s.root)
    ensures var n := (|s.segments| - from) as real; -n <= s.Total(from, lag, stride, derivative) <= n
    decreases |s.segments| - from
  {
    hide WindowCorrelation;
    if from < |s.segments| {
      var g := s.segments[from];
      WindowCorrelationInUnit(s.reference[g.start..g.start + g.samples],
                              s.recorded[g.start + lag..g.start + lag + g.samples], stride, derivative, s.root);
      TotalInUnits(s, from + 1, lag, stride, derivative);
    }
  }

  lemma MeanInUnit(s: Setup, lag: nat, stride: nat, derivative: bool)
    requires s.segments != [] && stride > 0 && s.Fits(lag) && IsRoot(s.root)
    ensures -1.0 <= MeanOver(s, lag, stride, derivative) <= 1.0
  {
    hide Setup.Total;
    TotalInUnits(s, 0, lag, stride, derivative);
    QuotientWithin(s.Total(0, lag, stride, derivative), |s.segments| as real);
  }

  /**
   The polarity is the sign of the mean waveform correlation, and the score is 65 parts of its size
   and 35 of the mean derivative correlation as far as that has the same sign.
   */
  lemma ScoreIs(s: Setup, lag: nat, stride: nat)
    requires s.segments != [] && stride > 0 && s.Fits(lag) && IsRoot(s.root)
    ensures var x := s.LagScore(lag, stride);
            var w, d := MeanOver(s, lag, stride, false), MeanOver(s, lag, stride, true);
            && x.item.lag == lag && (w < 0.0 ==> x.item.polarity == -1) && (w >= 0.0 ==> x.item.polarity == 1)
            && x.score == 0.65 * Abs(w) + 0.35 * Agreeing(d, x.item.polarity)
            && 0.0 <= x.score <= 1.0
            && (x.score == 1.0 <==> w == x.item.polarity as real == d)
  {
    hide Setup.Total;
    MeanInUnit(s, lag, stride, false);
    MeanInUnit(s, lag, stride, true);
  }

  /** The part of x that has this sign. */
  function Agreeing(x: real, polarity: int): real {
    if polarity == 1 && x > 0.0 then x else if polarity == -1 && x < 0.0 then -x else 0.0
  }

  // ----- windows that repeat the reference -----

  /** b is a, upright or inverted. */
  ghost predicate Repeats(a: Pcm, b: Pcm, sign: int) {
    (sign == 1 || sign == -1) && |a| == |b| && forall k :: 0 <= k < |a| ==> b[k] == sign * a[k]
  }

  /** At least 32 of its samples are picked, and they are not all alike; so for the differences. */
  ghost predicate Lively(a: Pcm, stride: nat)
    requires stride > 0
  {
    && |Picks(a, 0, stride, false)| >= MINIMUM_OBSERVED && Varies(Picks(a, 0, stride, false), 1.0)
    && |Picks(a, stride, stride, true)| >= MINIMUM_OBSERVED && Varies(Picks(a, stride, stride, true), 1.0)
  }

  lemma PickOfRepeat(a: Pcm, b: Pcm, sign: int, index: nat, derivative: bool)
    requires Repeats(a, b, sign) && index < |a| && (derivative ==> index > 0)
    ensures (if derivative then b[index] - b[index - 1] else b[index])
            == sign * (if derivative then a[index] - a[index - 1] else a[index])
  {
    if derivative { assert b[index - 1] == sign * a[index - 1]; }
  }

  lemma {:induction false} PicksOfRepeat(a: Pcm, b: Pcm, sign: int, index: nat, stride: nat, derivative: bool)
    requires Repeats(a, b, sign) && stride > 0 && (derivative ==> index > 0)
    ensures |Picks(a, index, stride, derivative)| == |Picks(b, index, stride, derivative)|
    ensures IsCopy(Picks(a, index, stride, derivative), Picks(b, index, stride, derivative), sign as real)
    decreases |a| - index
  {
    if index < |a| {
      PicksOfRepeat(a, b, sign, index + stride, stride, derivative);
      PickOfRepeat(a, b, sign, index, derivative);
      RealProduct(sign, if derivative then a[index] - a[index - 1] else a[index]);
    }
  }

  lemma RealProduct(x: int, y: int)
    ensures (x * y) as real == x as real * y as real
  {
  }

  /** A lively window correlates with its repetition to the sign. */
  lemma RepeatCorrelates(a: Pcm, b: Pcm, sign: int, stride: nat, derivative: bool, root: Root)
    requires Repeats(a, b, sign) && stride > 0 && Lively(a, stride) && IsRoot(root)
    ensures WindowCorrelation(a, b, stride, derivative, root) == sign as real
  {
    hide Picks, IsCopy, Varies, Dot, Centered, Coefficient;
    var begin := if derivative then stride else 0;
    var l, r := Picks(a, begin, stride, derivative), Picks(b, begin, stride, derivative);
    PicksOfRepeat(a, b, sign, begin, stride, derivative);
    VaryingHasEnergy(l, 1.0);
    CopyCorrelates(l, r, sign as real, root);
  }

  // ----- the global search -----

  /** From `lag` on the recording holds every segment of the reference. */
  ghost predicate IsCopyAt(s: Setup, lag: nat, sign: int)
    requires s.Fits(lag)
  {
    (sign == 1 || sign == -1) && forall i :: 0 <= i < |s.segments| ==> SegmentRepeats(s, lag, sign, s.segments[i])
  }

  ghost predicate SegmentRepeats(s: Setup, lag: nat, sign: int, g: Segment) {
    && g.start + g.samples <= |s.reference| && g.start + lag + g.samples <= |s.recorded|
    && Repeats(s.reference[g.start..g.start + g.samples], s.recorded[g.start + lag..g.start + lag + g.samples], sign)
  }

  /** No segment is flat. */
  ghost predicate AllLively(s: Setup, stride: nat)
    requires stride > 0
  {
    forall i :: 0 <= i < |s.segments| ==> SegmentLively(s, stride, s.segments[i])
  }

  ghost predicate SegmentLively(s: Setup, stride: nat, g: Segment)
    requires stride > 0
  {
    g.start + g.samples <= |s.reference| && Lively(s.reference[g.start..g.start + g.samples], stride)
  }

  lemma {:induction false} TotalOfCopy(s: Setup, from: nat, lag: nat, sign: int, stride: nat, derivative: bool)
    requires from <= |s.segments| && stride > 0 && s.Fits(lag) && IsRoot(s.root)
    requires IsCopyAt(s, lag, sign) && AllLively(s, stride)
    ensures s.Total(from, lag, stride, derivative) == sign as real * (|s.segments| - from) as real
    decreases |s.segments| - from
  {
    hide WindowCorrelation, Lively, Repeats;
    if from < |s.segments| {
      var g := s.segments[from];
      assert SegmentRepeats(s, lag, sign, g) && SegmentLively(s, stride, g);
      RepeatCorrelates(s.reference[g.start..g.start + g.samples],
                       s.recorded[g.start + lag..g.start + lag + g.samples], sign, stride, derivative, s.root);
      TotalOfCopy(s, from + 1, lag, sign, stride, derivative);
    }
  }

  /** A copy scores 1, with its own polarity. */
  lemma CopyScoresOne(s: Setup, lag: nat, sign: int, stride: nat)
    requires s.segments != [] && stride > 0 && s.Fits(lag) && IsRoot(s.root)
    requires IsCopyAt(s, lag, sign) && AllLively(s, stride)
    ensures s.LagScore(lag, stride) == Scored(Choice(lag, sign), 1.0)
  {
    hide Setup.Total, Lively, AllLively;
    TotalOfCopy(s, 0, lag, sign, stride, false);
    TotalOfCopy(s, 0, lag, sign, stride, true);
    ScoreIs(s, lag, stride);
    SignedMean(sign, |s.segments| as real);
  }

  lemma SignedMean(sign: int, n: real)
    requires n > 0.0
    ensures sign as real * n / n == sign as real
  {
  }

  /** Nothing replaces a best score that nothing beats. */
  lemma {:induction false} BestStays<T>(best: Scored<T>, trail: seq<Scored<T>>)
    requires forall x :: x in trail ==> x.score <= best.score
    ensures Best(Some(best), trail) == Some(best)
    decreases |trail|
  {
    if trail != [] {
      assert trail[0] in trail && forall x :: x in trail[1..] ==> x in trail;
      BestStays(best, trail[1..]);
    }
  }

  lemma PassAtMostOne(s: Setup, low: nat, high: nat, step: nat, stride: nat)
    requires s.segments != [] && step > 0 && stride > 0 && forall lag :: 0 <= lag <= high ==> s.Fits(lag)
    requires IsRoot(s.root)
    ensures forall x :: x in Pass(s, low, high, step, stride) ==> x.score <= 1.0
  {
    hide Setup.LagScore, Setup.Trail, Setup.Fits;
    StepsStayWithin(low, high, step);
    CanonicalSearch.TrailHas(s, Steps(low, high, step), stride);
    forall x | x in Pass(s, low, high, step, stride) ensures x.score <= 1.0 {
      ScoreIs(s, x.item.lag, stride);
    }
  }

  /** No other lag of the coarse grid scores 1. */
  ghost predicate OnlyMatch(s: Setup, maximum: nat, lag: nat)
    requires s.segments != []
  {
    forall other: nat :: other <= maximum && other % COARSE_STEP == 0 && s.Fits(other) ==>
      (s.LagScore(other, 32).score == 1.0 ==> other == lag)
  }

  /** The reported choice was scored at this resolution. */
  ghost predicate ScoredAt(s: Setup, g: Global, stride: nat)
    requires s.segments != [] && stride > 0 && s.Fits(g.lag)
  {
    s.LagScore(g.lag, stride) == Scored(Choice(g.lag, g.polarity), 1.0)
  }

  /**
   If the recording is the reference, or its inverse, from a lag of the coarse grid on and no segment
   is flat, the global search reports a lag that scores 1, where all segments correlate to the
   reported polarity; and if no other lag of that grid scores 1, it reports this one, with its sign.
   */
  lemma CopyIsHeard(s: Setup, maximum: nat, g: Global, lag: nat, sign: int)
    requires IsGlobal(s, maximum, g) && IsRoot(s.root) && lag <= maximum && lag % COARSE_STEP == 0
    requires IsCopyAt(s, lag, sign) && AllLively(s, 32)
    ensures s.Fits(g.lag) && (ScoredAt(s, g, 32) || ScoredAt(s, g, 8))
    ensures OnlyMatch(s, maximum, lag) ==> g.lag == lag && g.polarity == sign
  {
    hide Best, Pass, Steps, Setup.LagScore, Setup.Fits, IsCopyAt, AllLively;
    var first, fine :|
      && Best(Some(UNHEARD), Pass(s, 0, maximum, COARSE_STEP, 32)) == Some(first)
      && Best(Some(first), Pass(s, Minus(first.item.lag, COARSE_STEP), Min(maximum, first.item.lag + COARSE_STEP), 1,
         8))
         == Some(fine)
      && g == Global(fine.item.lag, maximum, fine.item.polarity);
    CopyScoresOne(s, lag, sign, 32);
    SomethingIsHeard(s, maximum);
    PassDominates(s, 0, maximum, COARSE_STEP, 32, UNHEARD, first);
    StepsVisit(0, maximum, COARSE_STEP, lag / COARSE_STEP);
    assert lag / COARSE_STEP * COARSE_STEP == lag;
    ScoreIs(s, first.item.lag, 32);
    PassAtMostOne(s, Minus(first.item.lag, COARSE_STEP), Min(maximum, first.item.lag + COARSE_STEP), 1, 8);
    BestStays(first, Pass(s, Minus(first.item.lag, COARSE_STEP), Min(maximum, first.item.lag + COARSE_STEP), 1, 8));
    StepsAligned(0, maximum, COARSE_STEP, first.item.lag);
    ScoredItself(s, first.item.lag, first);
  }

  lemma ScoredItself(s: Setup, lag: nat, x: Scored<Choice>)
    requires s.segments != [] && s.Fits(lag) && x == s.LagScore(lag, 32)
    ensures x == Scored(Choice(lag, x.item.polarity), x.score)
  {
  }

  // ----- the candidates -----

  lemma SignedInUnit(p: Probe, offset: nat, lag: nat, stride: nat, derivative: bool)
    requires p.Fits(offset, lag) && stride > 0 && IsRoot(p.root) && (p.polarity == 1 || p.polarity == -1)
    ensures -1.0 <= p.Signed(offset, lag, stride, derivative) <= 1.0
  {
    hide WindowCorrelation;
    var from := p.anchor + offset;
    WindowCorrelationInUnit(p.reference[from..from + p.fragment], p.recorded[from + lag..from + lag + p.fragment],
                            stride, derivative, p.root);
  }

  /** No place scores more than 1, and only one that correlates fully in both ways scores 1. */
  lemma EvaluationInUnit(p: Probe, offset: nat, lag: nat, stride: nat)
    requires p.Fits(offset, lag) && stride > 0 && IsRoot(p.root) && (p.polarity == 1 || p.polarity == -1)
    ensures var x := p.Evaluate(offset, lag, stride);
            && 0.0 <= x.score <= 1.0 && -1.0 <= x.item.waveform <= 1.0 && -1.0 <= x.item.derivative <= 1.0
            && (x.score == 1.0 <==> x.item.waveform == 1.0 == x.item.derivative)
  {
    hide Probe.Signed;
    SignedInUnit(p, offset, lag, stride, false);
    SignedInUnit(p, offset, lag, stride, true);
  }

  /** At this place the fragment is heard as it was played, or inverted as the polarity says. */
  ghost predicate FragmentRepeats(p: Probe, offset: nat, lag: nat, stride: nat)
    requires stride > 0
  {
    && p.Fits(offset, lag)
    && var from := p.anchor + offset;
       && Repeats(p.reference[from..from + p.fragment], p.recorded[from + lag..from + lag + p.fragment], p.polarity)
       && Lively(p.reference[from..from + p.fragment], stride)
  }

  lemma SignSquared(sign: int)
    requires sign == 1 || sign == -1
    ensures sign as real * sign as real == 1.0
  {
  }

  lemma RepeatedFragmentScoresOne(p: Probe, offset: nat, lag: nat, stride: nat)
    requires stride > 0 && FragmentRepeats(p, offset, lag, stride) && IsRoot(p.root)
    ensures p.Evaluate(offset, lag, stride) == Scored(Place(offset, lag, 1.0, 1.0), 1.0)
  {
    hide WindowCorrelation, Lively;
    var from := p.anchor + offset;
    var a, b := p.reference[from..from + p.fragment], p.recorded[from + lag..from + lag + p.fragment];
    RepeatCorrelates(a, b, p.polarity, stride, false, p.root);
    RepeatCorrelates(a, b, p.polarity, stride, true, p.root);
    SignSquared(p.polarity);
  }

  /** If the grid holds such a place, the local best correlates fully in both ways. */
  lemma LocalBestOfCopy(p: Probe, r: Range, best: Scored<Place>, offset: nat, lag: nat)
    requires IsLocalBest(p, r, best) && IsRoot(p.root)
    requires offset in Steps(0, r.top, r.offsetStep) && lag in Steps(r.low, r.high, COARSE_STEP)
    requires FragmentRepeats(p, offset, lag, 8)
    ensures best.score == 1.0 && best.item.waveform == 1.0 == best.item.derivative
  {
    hide Probe.Evaluate, Probe.Fits, IsLocalBest, Steps, Lively, Repeats;
    var _ := LocalBestDominates(p, r, best);
    RepeatedFragmentScoresOne(p, offset, lag, 8);
    PolarityIsSign(p, offset, lag, 8);
    FragmentFitsThere(p, offset, lag, 8);
    var place := best.item;
    var stride := if Evaluated(p, best, 8) then 8 else if Evaluated(p, best, 4) then 4 else 2;
    EvaluatedInUnit(p, best, stride);
  }

  lemma PolarityIsSign(p: Probe, offset: nat, lag: nat, stride: nat)
    requires stride > 0 && FragmentRepeats(p, offset, lag, stride)
    ensures p.polarity == 1 || p.polarity == -1
  {
  }

  lemma FragmentFitsThere(p: Probe, offset: nat, lag: nat, stride: nat)
    requires stride > 0 && FragmentRepeats(p, offset, lag, stride)
    ensures p.Fits(offset, lag)
  {
  }

  lemma EvaluatedInUnit(p: Probe, best: Scored<Place>, stride: nat)
    requires stride > 0 && Evaluated(p, best, stride) && IsRoot(p.root) && (p.polarity == 1 || p.polarity == -1)
    ensures best.score <= 1.0 && (best.score == 1.0 <==> best.item.waveform == 1.0 == best.item.derivative)
  {
    EvaluationInUnit(p, best.item.offset, best.item.lag, stride);
  }

  // ----- the whole analysis -----

  /** A fragment of a repeated segment is repeated. */
  lemma PartRepeats(s: Setup, lag: nat, sign: int, i: nat, p: Probe, offset: nat)
    requires s.Fits(lag) && IsCopyAt(s, lag, sign) && i < |s.segments| && offset + p.fragment <= s.segments[i].samples
    requires p.reference == s.reference && p.recorded == s.recorded && p.anchor == s.segments[i].start
    ensures p.Fits(offset, lag)
    ensures var from := p.anchor + offset;
            Repeats(p.reference[from..from + p.fragment], p.recorded[from + lag..from + lag + p.fragment], sign)
  {
    var g := s.segments[i];
    assert SegmentRepeats(s, lag, sign, g);
    var a, b := s.reference[g.start..g.start + g.samples], s.recorded[g.start + lag..g.start + lag + g.samples];
    var from := p.anchor + offset;
    var c, d := p.reference[from..from + p.fragment], p.recorded[from + lag..from + lag + p.fragment];
    forall k | 0 <= k < |c| ensures d[k] == sign * c[k] {
      assert c[k] == a[offset + k] && d[k] == b[offset + k];
    }
  }

  lemma LagIsVisited(lag: nat, reach: nat, high: nat)
    requires lag % COARSE_STEP == 0 && (reach % COARSE_STEP == 0 || lag < reach) && lag <= high
    ensures lag in Steps(Minus(lag, reach), high, COARSE_STEP)
  {
    var low := Minus(lag, reach);
    var k := (lag - low) / COARSE_STEP;
    assert low + k * COARSE_STEP == lag;
    StepsVisit(low, high, COARSE_STEP, k);
  }

  /** Some fragment of the segment that the grid visits is not flat. */
  ghost predicate HasLivelyFragment(s: Setup, segment: Segment, rate: nat)
    requires rate >= 20 && segment.samples >= rate / 5
  {
    exists offset ::
      offset in Steps(0, segment.samples - rate / 5, rate / 20) && FragmentLively(s, segment, rate, offset)
  }

  ghost predicate FragmentLively(s: Setup, segment: Segment, rate: nat, offset: nat) {
    var from := segment.start + offset;
    from + rate / 5 <= |s.reference| && Lively(s.reference[from..from + rate / 5], 8)
  }

  lemma CandidateOfCopy(s: Setup, length: nat, rate: nat, lag: nat, sign: int, i: nat, c: Candidate)
    requires Ready(s, length, rate, lag) && rate >= 20 && i < |s.segments| && IsRoot(s.root)
    requires s.Fits(lag) && IsCopyAt(s, lag, sign) && lag % COARSE_STEP == 0
    requires (rate / 5) % COARSE_STEP == 0 || lag < rate / 5
    requires IsCandidate(s, s.segments[i], lag, sign, rate, c) && HasLivelyFragment(s, s.segments[i], rate)
    ensures c.waveform == 1.0 == c.derivative
  {
    hide IsLocalBest, Lively, Steps, Repeats, Coarse, IsPlan;
    var segment := s.segments[i];
    var p, r := ProbeOf(s, segment, sign, rate), RangeOf(s, segment, lag, rate);
    var best: Scored<Place> :| IsLocalBest(p, r, best) && c == CandidateOf(segment, lag, rate, best.item);
    var offset: nat :|
      offset in Steps(0, segment.samples - rate / 5, rate / 20) && FragmentLively(s, segment, rate, offset);
    StepsStayWithin(0, segment.samples - rate / 5, rate / 20);
    SegmentIsSearchable(s, length, rate, lag, i, sign);
    PartRepeats(s, lag, sign, i, p, offset);
    LagIsVisited(lag, rate / 5, r.high);
    LocalBestOfCopy(p, r, best, offset, lag);
  }

  /**
   A recording that holds the reference, or its inverse, from a lag of the coarse grid on that no other
   lag of that grid matches: the analysis reports that lag and that polarity, and every candidate whose
   segment has a fragment that is not flat correlates fully, in waveform and in derivative.
   */
  lemma CopyIsRecognised(s: Setup, length: nat, rate: nat, a: Analysis, lag: nat, sign: int)
    requires IsAnalysis(s, length, rate, a) && rate >= 20 && IsRoot(s.root)
    requires lag <= a.maximumLag && lag % COARSE_STEP == 0 && ((rate / 5) % COARSE_STEP == 0 || lag < rate / 5)
    requires s.Fits(lag) && IsCopyAt(s, lag, sign) && AllLively(s, 32)
    requires OnlyMatch(s, a.maximumLag, lag)
    ensures a.lag == lag && a.polarity == sign
    ensures forall i :: 0 <= i < CANDIDATES ==>
              s.segments[i].samples >= rate / 5
              && (HasLivelyFragment(s, s.segments[i], rate) ==>
                    a.candidates[i].waveform == 1.0 == a.candidates[i].derivative)
  {
    hide IsCandidate, IsCopyAt, AllLively, HasLivelyFragment, Setup.LagScore, Setup.Fits;
    CopyIsHeard(s, a.maximumLag, Global(a.lag, a.maximumLag, a.polarity), lag, sign);
    FragmentFits(length, rate);
    forall i | 0 <= i < CANDIDATES
      ensures s.segments[i].samples >= rate / 5
      ensures HasLivelyFragment(s, s.segments[i], rate) ==>
                a.candidates[i].waveform == 1.0 == a.candidates[i].derivative
    {
      if HasLivelyFragment(s, s.segments[i], rate) {
        CandidateOfCopy(s, length, rate, lag, sign, i, a.candidates[i]);
      }
    }
  }
}
