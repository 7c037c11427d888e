/**
 The canonical waveform analysis: one lag for the whole recording, found coarse to fine over
 all segments, then for each segment the fragment and local lag that match best. Once the
 length check has passed nothing fails and nothing panics, provided the rate is at least 20.
 */
module CanonicalSearch {
  import opened Prelude
  import opened LeastSquares
  import opened Correlation
  import opened BestFirst
  import opened CanonicalPlan

  const COARSE_STEP: nat := 80
  const FINE_STEP: nat := 4
  const MINIMUM_OBSERVED: nat := 32

  /** 16-bit samples. */
  type Pcm = seq<int>

  function Minus(a: nat, b: nat): nat {
    if a < b then 0 else a - b
  }

  function Positive(x: real): real {
    if x > 0.0 then x else 0.0
  }

  function Weighted(waveform: real, derivative: real): real {
    Positive(waveform) * 0.65 + Positive(derivative) * 0.35
  }

  // ----- correlation of two windows -----

  /** Every stride-th sample from `index` on, or its difference to the sample before. */
  function Picks(x: Pcm, index: nat, stride: nat, derivative: bool): Signal
    requires stride > 0 && (derivative ==> index > 0)
    decreases |x| - index
  {
    if index >= |x| then []
    else
      [(if derivative then x[index] - x[index - 1] else x[index]) as real] + Picks(x, index + stride, stride,
          derivative)
  }

  lemma {:induction false} PicksAlign(x: Pcm, y: Pcm, index: nat, stride: nat, derivative: bool)
    requires stride > 0 && (derivative ==> index > 0) && |x| == |y|
    ensures |Picks(x, index, stride, derivative)| == |Picks(y, index, stride, derivative)|
    decreases |x| - index
  {
    if index < |x| {
      PicksAlign(x, y, index + stride, stride, derivative);
    }
  }

  function WindowCorrelation(left: Pcm, right: Pcm, stride: nat, derivative: bool, root: Root): real
    requires |left| == |right| && stride > 0
  {
    var begin := if derivative then stride else 0;
    var l, r := Picks(left, begin, stride, derivative), Picks(right, begin, stride, derivative);
    PicksAlign(left, right, begin, stride, derivative);
    if |l| < MINIMUM_OBSERVED then 0.0 else Coefficient(l, r, root)
  }

  lemma WindowCorrelationInUnit(left: Pcm, right: Pcm, stride: nat, derivative: bool, root: Root)
    requires |left| == |right| && stride > 0 && IsRoot(root)
    ensures -1.0 <= WindowCorrelation(left, right, stride, derivative, root) <= 1.0
  {
    hide Coefficient;
    var begin := if derivative then stride else 0;
    var l, r := Picks(left, begin, stride, derivative), Picks(right, begin, stride, derivative);
    PicksAlign(left, right, begin, stride, derivative);
    if |l| >= MINIMUM_OBSERVED {
      CoefficientInUnit(l, r, root);
    }
  }

  // ----- the global lag -----

  datatype Choice = Choice(lag: nat, polarity: int)

  datatype Global = Global(lag: nat, maximumLag: nat, polarity: int)

  /** What the global search listens to. */
  datatype Setup = Setup(reference: Pcm, recorded: Pcm, segments: seq<Segment>, root: Root) {

    /** Shifted by `lag`, every segment lies inside the recording. */
    ghost predicate Fits(lag: nat) {
      forall i :: 0 <= i < |segments| ==>
        var s := segments[i];
        s.start + s.samples <= |reference| && s.start + lag + s.samples <= |recorded|
    }

    function Total(from: nat, lag: nat, stride: nat, derivative: bool): real
      requires from <= |segments| && stride > 0 && Fits(lag)
      decreases |segments| - from
    {
      if from == |segments| then 0.0
      else
        var s := segments[from];
        WindowCorrelation(reference[s.start..s.start + s.samples],
                          recorded[s.start + lag..s.start + lag + s.samples], stride, derivative, root)
        + Total(from + 1, lag, stride, derivative)
    }

    function LagScore(lag: nat, stride: nat): Scored<Choice>
      requires segments != [] && stride > 0 && Fits(lag)
    {
      var count := |segments| as real;
      var waveform, derivative := Total(0, lag, stride, false) / count, Total(0, lag, stride, true) / count;
      var polarity := if waveform < 0.0 then -1 else 1;
      Scored(Choice(lag, polarity), Weighted(waveform * polarity as real, derivative * polarity as real))
    }

    function Trail(lags: seq<nat>, stride: nat): seq<Scored<Choice>>
      requires segments != [] && stride > 0 && forall lag :: lag in lags ==> Fits(lag)
    {
      if lags == [] then [] else [LagScore(lags[0], stride)] + Trail(lags[1..], stride)
    }
  }

  const UNHEARD: Scored<Choice> := Scored(Choice(0, 1), -1.0)

  lemma {:induction false} TrailHas(s: Setup, lags: seq<nat>, stride: nat)
    requires s.segments != [] && stride > 0 && forall lag :: lag in lags ==> s.Fits(lag)
    ensures forall lag :: lag in lags ==> s.LagScore(lag, stride) in s.Trail(lags, stride)
    ensures forall x :: x in s.Trail(lags, stride) ==> x.item.lag in lags && x == s.LagScore(x.item.lag, stride)
  {
    if lags != [] {
      TrailHas(s, lags[1..], stride);
    }
  }

  /** The evaluations of one pass of the global search. */
  function Pass(s: Setup, low: nat, high: nat, step: nat, stride: nat): seq<Scored<Choice>>
    requires s.segments != [] && step > 0 && stride > 0 && forall lag :: 0 <= lag <= high ==> s.Fits(lag)
  {
    StepsStayWithin(low, high, step);
    s.Trail(Steps(low, high, step), stride)
  }

  /** One pass: visit the lags in order, keep the first best. */
  method Listen(s: Setup, low: nat, high: nat, step: nat, stride: nat, start: Scored<Choice>)
    returns (best: Scored<Choice>)
    requires s.segments != [] && step > 0 && stride > 0 && forall lag :: 0 <= lag <= high ==> s.Fits(lag)
    ensures Best(Some(start), Pass(s, low, high, step, stride)) == Some(best)
  {
    best := start;
    var lag := low;
    while lag <= high
      invariant Best(Some(best), Pass(s, lag, high, step, stride))
                == Best(Some(start), Pass(s, low, high, step, stride))
      decreases high + 1 - lag
    {
      var next := s.LagScore(lag, stride);
      if next.score > best.score {
        best := next;
      }
      lag := lag + step;
    }
  }

  function LastEnd(segments: seq<Segment>): nat
    requires segments != []
  {
    segments[|segments| - 1].start + segments[|segments| - 1].samples
  }

  lemma PlanFits(s: Setup, length: nat, rate: nat, maximum: nat)
    requires IsPlan(s.segments, length, rate) && length <= |s.reference|
    requires LastEnd(s.segments) + maximum <= |s.recorded|
    ensures forall lag :: 0 <= lag <= maximum ==> s.Fits(lag)
  {
    forall i | 0 <= i < |s.segments|
      ensures s.segments[i].start + s.segments[i].samples <= LastEnd(s.segments)
    {
    }
  }

  /** The coarse result, and the fine one around it. */
  ghost predicate IsGlobal(s: Setup, maximum: nat, g: Global) {
    && s.segments != [] && (forall lag :: 0 <= lag <= maximum ==> s.Fits(lag))
    && exists coarse: Scored<Choice>, fine: Scored<Choice> ::
         && Best(Some(UNHEARD), Pass(s, 0, maximum, COARSE_STEP, 32)) == Some(coarse)
         && Best(Some(coarse), Pass(s, Minus(coarse.item.lag, COARSE_STEP),
            Min(maximum, coarse.item.lag + COARSE_STEP), 1, 8))
            == Some(fine)
         && g == Global(fine.item.lag, maximum, fine.item.polarity)
  }

  method GlobalSearch(s: Setup, rate: nat, ghost length: nat) returns (r: Outcome<Global>)
    requires IsPlan(s.segments, length, rate) && length <= |s.reference|
    ensures |s.recorded| < LastEnd(s.segments) ==> r == Failed(WindowTooShort)
    ensures |s.recorded| >= LastEnd(s.segments) ==>
              r.Returned? && IsGlobal(s, Min(|s.recorded| - LastEnd(s.segments), rate * 15), r.value)
  {
    if |s.recorded| < LastEnd(s.segments) {
      return Failed(WindowTooShort);
    }
    var maximum := Min(|s.recorded| - LastEnd(s.segments), rate * 15);
    PlanFits(s, length, rate, maximum);
    var coarse := Listen(s, 0, maximum, COARSE_STEP, 32, UNHEARD);
    var fine := Listen(s, Minus(coarse.item.lag, COARSE_STEP), Min(maximum, coarse.item.lag + COARSE_STEP), 1, 8,
        coarse);
    r := Returned(Global(fine.item.lag, maximum, fine.item.polarity));
  }

  /** The sentinel the search starts from never survives the first evaluation. */
  lemma SomethingIsHeard(s: Setup, maximum: nat)
    requires s.segments != [] && forall lag :: 0 <= lag <= maximum ==> s.Fits(lag)
    ensures var trail := Pass(s, 0, maximum, COARSE_STEP, 32);
            Best(Some(UNHEARD), trail).Some? && Best(Some(UNHEARD), trail).value.score >= 0.0
  {
    var trail := Pass(s, 0, maximum, COARSE_STEP, 32);
    StepsStayWithin(0, maximum, COARSE_STEP);
    TrailHas(s, Steps(0, maximum, COARSE_STEP), 32);
    BestDominates(Some(UNHEARD), trail);
    var x := s.LagScore(0, 32);
    assert x in trail && x.score >= 0.0;
  }

  /**
   What the global search guarantees: the chosen lag was really scored, it scores at least as
   well as every lag of the coarse grid, and as every lag within 80 of the coarse winner.
   */
  lemma GlobalDominates(s: Setup, maximum: nat, g: Global) returns (best: Scored<Choice>, coarse: nat)
    requires IsGlobal(s, maximum, g)
    ensures best.item == Choice(g.lag, g.polarity) && g.lag <= maximum && s.Fits(g.lag)
    ensures best == s.LagScore(g.lag, 32) || best == s.LagScore(g.lag, 8)
    ensures coarse <= maximum && coarse % COARSE_STEP == 0 && -80 <= g.lag - coarse <= 80
    ensures forall k: nat :: k * COARSE_STEP <= maximum ==>
              s.Fits(k * COARSE_STEP) && s.LagScore(k * COARSE_STEP, 32).score <= best.score
    ensures forall lag: nat :: coarse - 80 <= lag <= coarse + 80 && lag <= maximum ==>
              s.Fits(lag) && s.LagScore(lag, 8).score <= best.score
  {
    hide Best, Pass, Steps, Setup.LagScore, Setup.Fits;
    var first, fine :|
      && Best(Some(UNHEARD), Pass(s, 0, maximum, COARSE_STEP, 32)) == Some(first)
      && Best(Some(first), Pass(s, Minus(first.item.lag, COARSE_STEP), Min(maximum, first.item.lag + COARSE_STEP), 1,
         8))
         == Some(fine)
      && g == Global(fine.item.lag, maximum, fine.item.polarity);
    SomethingIsHeard(s, maximum);
    PassDominates(s, 0, maximum, COARSE_STEP, 32, UNHEARD, first);
    best, coarse := fine, first.item.lag;
    PassDominates(s, Minus(coarse, COARSE_STEP), Min(maximum, coarse + COARSE_STEP), 1, 8, first, fine);
    StepsAligned(0, maximum, COARSE_STEP, coarse);
    forall k: nat | k * COARSE_STEP <= maximum
      ensures s.Fits(k * COARSE_STEP) && s.LagScore(k * COARSE_STEP, 32).score <= best.score
    {
      StepsVisit(0, maximum, COARSE_STEP, k);
    }
    forall lag: nat | coarse - 80 <= lag <= coarse + 80 && lag <= maximum
      ensures s.Fits(lag) && s.LagScore(lag, 8).score <= best.score
    {
      var low := Minus(coarse, COARSE_STEP);
      StepsVisit(low, Min(maximum, coarse + COARSE_STEP), 1, lag - low);
    }
  }

  /** What one pass over a range guarantees. */
  lemma PassDominates(s: Setup, low: nat, high: nat, step: nat, stride: nat, start: Scored<Choice>,
      best: Scored<Choice>)
    requires s.segments != [] && step > 0 && stride > 0 && forall lag :: 0 <= lag <= high ==> s.Fits(lag)
    requires Best(Some(start), Pass(s, low, high, step, stride)) == Some(best)
    ensures start.score <= best.score
    ensures best == start
            || (best.item.lag in Steps(low, high, step) && low <= best.item.lag <= high
               && best == s.LagScore(best.item.lag, stride))
    ensures forall lag :: lag in Steps(low, high, step) ==>
              lag <= high && s.LagScore(lag, stride).score <= best.score
  {
    StepsStayWithin(low, high, step);
    TrailHas(s, Steps(low, high, step), stride);
    BestDominates(Some(start), Pass(s, low, high, step, stride));
  }
}
