/**
 The local search of the canonical analysis: for one segment, the fragment and lag that match
 best, in three passes of growing resolution.
 */
module CanonicalCandidates {
  import opened Prelude
  import opened Correlation
  import opened BestFirst
  import opened CanonicalSearch

  /** A fragment `offset` samples into its segment, heard `lag` samples later. */
  datatype Place = Place(offset: nat, lag: nat, waveform: real, derivative: real)

  /** What the search for one segment listens to. */
  datatype Probe = Probe(reference: Pcm, recorded: Pcm, anchor: nat, fragment: nat, polarity: int, root: Root) {

    predicate Fits(offset: nat, lag: nat) {
      && anchor + offset + fragment <= |reference|
      && anchor + offset + lag + fragment <= |recorded|
    }

    function Signed(offset: nat, lag: nat, stride: nat, derivative: bool): real
      requires Fits(offset, lag) && stride > 0
    {
      var from := anchor + offset;
      WindowCorrelation(reference[from..from + fragment], recorded[from + lag..from + lag + fragment], stride,
          derivative, root)
      * polarity as real
    }

    function Evaluate(offset: nat, lag: nat, stride: nat): Scored<Place>
      requires Fits(offset, lag) && stride > 0
    {
      var waveform, derivative := Signed(offset, lag, stride, false), Signed(offset, lag, stride, true);
      Scored(Place(offset, lag, waveform, derivative), Weighted(waveform, derivative))
    }

    /** The evaluations at one offset; a place that does not fit is skipped. */
    function Trail(offset: nat, lags: seq<nat>, stride: nat): seq<Scored<Place>>
      requires stride > 0
    {
      if lags == [] then []
      else (if Fits(offset, lags[0]) then [Evaluate(offset, lags[0], stride)] else []) + Trail(offset, lags[1..],
          stride)
    }

    function Grid(offsets: seq<nat>, lags: seq<nat>, stride: nat): seq<Scored<Place>>
      requires stride > 0
    {
      if offsets == [] then [] else Trail(offsets[0], lags, stride) + Grid(offsets[1..], lags, stride)
    }
  }

  /** x records an evaluation of p with this stride. */
  ghost predicate Evaluated(p: Probe, x: Scored<Place>, stride: nat)
    requires stride > 0
  {
    p.Fits(x.item.offset, x.item.lag) && x == p.Evaluate(x.item.offset, x.item.lag, stride)
  }

  lemma {:induction false} TrailHas(p: Probe, offset: nat, lags: seq<nat>, stride: nat)
    requires stride > 0
    ensures forall lag :: lag in lags && p.Fits(offset, lag) ==>
              p.Evaluate(offset, lag, stride) in p.Trail(offset, lags, stride)
    ensures forall x :: x in p.Trail(offset, lags, stride) ==>
              x.item.offset == offset && x.item.lag in lags && Evaluated(p, x, stride)
  {
    hide Probe.Evaluate;
    if lags != [] {
      TrailHas(p, offset, lags[1..], stride);
      if p.Fits(offset, lags[0]) {
        var x := p.Evaluate(offset, lags[0], stride);
        EvaluateIsAt(p, offset, lags[0], stride);
        assert p.Trail(offset, lags, stride) == [x] + p.Trail(offset, lags[1..], stride);
      }
    }
  }

  lemma EvaluateIsAt(p: Probe, offset: nat, lag: nat, stride: nat)
    requires stride > 0 && p.Fits(offset, lag)
    ensures p.Evaluate(offset, lag, stride).item.offset == offset && p.Evaluate(offset, lag, stride).item.lag == lag
  {
  }

  lemma {:induction false} GridHas(p: Probe, offsets: seq<nat>, lags: seq<nat>, stride: nat)
    requires stride > 0
    ensures forall offset, lag :: offset in offsets && lag in lags && p.Fits(offset, lag) ==>
              p.Evaluate(offset, lag, stride) in p.Grid(offsets, lags, stride)
    ensures forall x :: x in p.Grid(offsets, lags, stride) ==>
              x.item.offset in offsets && x.item.lag in lags && Evaluated(p, x, stride)
  {
    hide Probe.Evaluate, Probe.Trail, Evaluated;
    if offsets != [] {
      TrailHas(p, offsets[0], lags, stride);
      GridHas(p, offsets[1..], lags, stride);
    }
  }

  /** Evaluate one place, if it fits, and keep the better. */
  method Consider(p: Probe, offset: nat, lag: nat, stride: nat, best: Option<Scored<Place>>)
    returns (kept: Option<Scored<Place>>)
    requires stride > 0
    ensures kept == Best(best, p.Trail(offset, [lag], stride))
  {
    kept := best;
    assert [lag][1..] == [];
    if p.Fits(offset, lag) {
      var next := p.Evaluate(offset, lag, stride);
      assert p.Trail(offset, [lag], stride) == [next];
      assert [next][1..] == [];
      if best.None? || next.score > best.value.score {
        kept := Some(next);
      }
    }
  }

  lemma TrailAppend(p: Probe, offset: nat, lag: nat, rest: seq<nat>, stride: nat, best: Option<Scored<Place>>)
    requires stride > 0
    ensures Best(best, p.Trail(offset, [lag] + rest, stride))
            == Best(Best(best, p.Trail(offset, [lag], stride)), p.Trail(offset, rest, stride))
  {
    hide Probe.Evaluate, Probe.Fits, Best;
    assert [lag][1..] == [] && ([lag] + rest)[1..] == rest;
    assert p.Trail(offset, [lag] + rest, stride) == p.Trail(offset, [lag], stride) + p.Trail(offset, rest, stride);
    BestAppend(best, p.Trail(offset, [lag], stride), p.Trail(offset, rest, stride));
  }

  /** The loop over lags at one offset. */
  method Sweep(p: Probe, offset: nat, low: nat, high: int, step: nat, stride: nat, start: Option<Scored<Place>>)
    returns (best: Option<Scored<Place>>)
    requires step > 0 && stride > 0
    ensures best == Best(start, p.Trail(offset, Steps(low, high, step), stride))
  {
    hide Best, Probe.Fits, Probe.Evaluate;
    best := start;
    var lag := low;
    while lag <= high
      invariant Best(best, p.Trail(offset, Steps(lag, high, step), stride))
             == Best(start, p.Trail(offset, Steps(low, high, step), stride))
      decreases high + 1 - lag
    {
      TrailAppend(p, offset, lag, Steps(lag + step, high, step), stride, best);
      best := Consider(p, offset, lag, stride, best);
      lag := lag + step;
    }
    EmptyTrail(p, offset, lag, high, step, stride, best);
  }

  lemma EmptyTrail(p: Probe, offset: nat, low: nat, high: int, step: nat, stride: nat, best: Option<Scored<Place>>)
    requires step > 0 && stride > 0 && low > high
    ensures Best(best, p.Trail(offset, Steps(low, high, step), stride)) == best
  {
  }

  /** The loops over offsets and lags. */
  method SweepGrid(p: Probe, top: nat, offsetStep: nat, low: nat, high: int, step: nat, stride: nat)
    returns (best: Option<Scored<Place>>)
    requires offsetStep > 0 && step > 0 && stride > 0
    ensures best == Best(None, p.Grid(Steps(0, top, offsetStep), Steps(low, high, step), stride))
  {
    best := None;
    var offset := 0;
    while offset <= top
      invariant Best(best, p.Grid(Steps(offset, top, offsetStep), Steps(low, high, step), stride))
             == Best(None, p.Grid(Steps(0, top, offsetStep), Steps(low, high, step), stride))
      decreases top + 1 - offset
    {
      GridStep(p, offset, top, offsetStep, Steps(low, high, step), stride, best);
      best := Sweep(p, offset, low, high, step, stride, best);
      offset := offset + offsetStep;
    }
  }

  lemma GridStep(p: Probe, offset: nat, top: nat, offsetStep: nat, lags: seq<nat>, stride: nat,
      best: Option<Scored<Place>>)
    requires offset <= top && offsetStep > 0 && stride > 0
    ensures Best(best, p.Grid(Steps(offset, top, offsetStep), lags, stride))
            == Best(Best(best, p.Trail(offset, lags, stride)),
                p.Grid(Steps(offset + offsetStep, top, offsetStep), lags, stride))
  {
    hide Best, Probe.Trail;
    var rest := Steps(offset + offsetStep, top, offsetStep);
    assert Steps(offset, top, offsetStep) == [offset] + rest;
    assert ([offset] + rest)[1..] == rest;
    BestAppend(best, p.Trail(offset, lags, stride), p.Grid(rest, lags, stride));
  }

  // ----- the three passes -----

  /** The range and steps of a local search. */
  datatype Range = Range(top: nat, offsetStep: nat, low: nat, high: nat)

  function Coarse(p: Probe, r: Range): Option<Scored<Place>>
    requires r.offsetStep > 0
  {
    Best(None, p.Grid(Steps(0, r.top, r.offsetStep), Steps(r.low, r.high, COARSE_STEP), 8))
  }

  function Refined(p: Probe, r: Range, coarse: Scored<Place>): Option<Scored<Place>> {
    var lag := coarse.item.lag;
    Best(Some(coarse), p.Trail(coarse.item.offset,
                               Steps(Max(Minus(lag, COARSE_STEP), r.low), Min(r.high, lag + COARSE_STEP), FINE_STEP),
                               4))
  }

  function Final(p: Probe, r: Range, refined: Scored<Place>): Option<Scored<Place>> {
    var lag := refined.item.lag;
    Best(Some(refined), p.Trail(refined.item.offset,
                                Steps(Max(Minus(lag, FINE_STEP), r.low), Min(r.high, lag + FINE_STEP), 1), 2))
  }

  /** `best` is what the three passes end with. */
  ghost predicate IsLocalBest(p: Probe, r: Range, best: Scored<Place>) {
    && r.offsetStep > 0
    && exists coarse, refined ::
         Coarse(p, r) == Some(coarse) && Refined(p, r, coarse) == Some(refined) && Final(p, r, refined) == Some(best)
  }

  method LocalSearch(p: Probe, r: Range) returns (best: Option<Scored<Place>>)
    requires r.offsetStep > 0
    ensures best.None? <==> Coarse(p, r).None?
    ensures best.Some? ==> IsLocalBest(p, r, best.value)
  {
    hide Best, Probe.Trail, Probe.Grid, Steps;
    var coarse := SweepGrid(p, r.top, r.offsetStep, r.low, r.high, COARSE_STEP, 8);
    best := coarse;
    if coarse.Some? {
      var place := coarse.value.item;
      var low, high := Max(Minus(place.lag, COARSE_STEP), r.low), Min(r.high, place.lag + COARSE_STEP);
      best := Sweep(p, place.offset, low, high, FINE_STEP, 4, coarse);
      StillSome(coarse, p.Trail(place.offset, Steps(low, high, FINE_STEP), 4));
      var refined := best.value;
      place := refined.item;
      low, high := Max(Minus(place.lag, FINE_STEP), r.low), Min(r.high, place.lag + FINE_STEP);
      best := Sweep(p, place.offset, low, high, 1, 2, best);
      StillSome(Some(refined), p.Trail(place.offset, Steps(low, high, 1), 2));
      assert Final(p, r, refined) == best;
    }
  }

  lemma StillSome(best: Option<Scored<Place>>, trail: seq<Scored<Place>>)
    requires best.Some?
    ensures Best(best, trail).Some?
  {
    BestDominates(best, trail);
  }
}
