/**
 A reference with one loud sample and a recording with one short burst, and what the prefilter
 makes of them: silence up to the burst scores nothing, and the first twelve lags that reach
 into it score something.
 */
module CueBurst {
  import opened LeastSquares
  import opened Correlation
  import opened CueCorrelation
  import opened LagSearch
  import opened PcmCodec
  import opened Resampling

  const LOUD: int16 := 32767
  const LEVEL: real := 32767.0 / 32768.0
  const BURST: nat := 12
  const LAST_VISITED: nat := 3192

  /** Silence but for one sample. */
  function Click(n: nat, at: int): (x: seq<int16>)
    ensures |x| == n && forall i :: 0 <= i < n ==> x[i] == if i == at then LOUD else 0
  {
    seq(n, i => if i == at then LOUD else 0)
  }

  /** Silence but for twelve samples after `before`. */
  function Burst(n: nat, before: int): (x: seq<int16>)
    ensures |x| == n && forall i :: 0 <= i < n ==> x[i] == if before < i <= before + BURST then LOUD else 0
  {
    seq(n, i => if before < i <= before + BURST then LOUD else 0)
  }

  // ----- rendering a mono track of 16 kHz -----

  lemma SumOfOne(sample: int16)
    ensures Resampling.Sum([sample]) == sample as int as real / 32768.0
  {
    assert [sample][..0] == [];
  }

  lemma {:induction false} MonoOfOneChannel(x: seq<int16>, i: nat)
    requires i < |x|
    ensures |Mono(x, 1)| == |x| && Mono(x, 1)[i] == x[i] as int as real / 32768.0
  {
    SumOfOne(x[0]);
    assert x[..1] == [x[0]];
    if i > 0 {
      MonoOfOneChannel(x[1..], i - 1);
    }
  }

  /** It is rendered sample by sample. */
  lemma RenderedAsIs(x: seq<int16>)
    requires x != []
    ensures var r := RenderBridgeReferenceToLoopback(x, 1, LOOPBACK_RATE);
            && r.Waveform? && |r.samples| == |x|
            && forall i :: 0 <= i < |x| ==> r.samples[i] == x[i] as int as real / 32768.0
  {
    RenderingIsDirect(x, 1, LOOPBACK_RATE);
    var r := RenderBridgeReferenceToLoopback(x, 1, LOOPBACK_RATE);
    MonoOfOneChannel(x, 0);
    forall i | 0 <= i < |x| ensures r.samples[i] == x[i] as int as real / 32768.0 {
      MonoOfOneChannel(x, i);
      assert i * LOOPBACK_RATE / LOOPBACK_RATE == i;
    }
  }

  // ----- silence -----

  ghost predicate Zeros(x: Signal) {
    forall i :: 0 <= i < |x| ==> x[i] == 0.0
  }

  /** Up to the last sample the prefilter visits, the recording is silent. */
  ghost predicate SilentWindow(w: Stretch) {
    && w.length == PREFILTER_SAMPLES
    && forall k :: 0 <= k < |w.recording| && k <= w.heard + LAST_VISITED ==> w.recording[k] == 0
  }

  lemma {:induction false} SilenceIsVisited(w: Stretch, eighth: nat, derivative: bool)
    requires SilentWindow(w) && (derivative ==> eighth > 0)
    ensures Zeros(w.Visited(8 * eighth, 8, derivative).1)
    decreases 400 - eighth
  {
    if !w.Ends(8 * eighth) {
      SilenceIsVisited(w, eighth + 1, derivative);
      assert 8 * eighth + 8 == 8 * (eighth + 1);
    }
  }

  lemma {:induction false} ZerosAddNothing(x: Signal)
    requires Zeros(x)
    ensures Correlation.Sum(x) == 0.0 && Dot(x, x) == 0.0
  {
    if x != [] {
      ZerosAddNothing(x[1..]);
    }
  }

  lemma SilenceScoresNothing(w: Stretch, derivative: bool, root: Root)
    requires SilentWindow(w) && IsRoot(root)
    ensures w.Correlated(PREFILTER_STRIDE, derivative, root) == 0.0
  {
    hide Dot, Correlation.Sum, Freed, Stretch.Visited, OverRoot, Energies;
    SilenceIsVisited(w, if derivative then 1 else 0, derivative);
    var pair := w.Visited(if derivative then 8 else 0, 8, derivative);
    ZerosAddNothing(pair.1);
    if |pair.0| >= OBSERVED {
      NoEnergy(Freed(Dot(pair.0, pair.1), Correlation.Sum(pair.0), 0.0, |pair.0|),
               Dot(pair.0, pair.0), Correlation.Sum(pair.0), |pair.0|, root);
    }
  }

  lemma NoEnergy(product: real, ll: real, sl: real, count: nat, root: Root)
    requires count > 0 && IsRoot(root)
    ensures OverRoot(product, Energies(ll, 0.0, sl, 0.0, count), root) == 0.0
  {
    var left := Freed(ll, sl, sl, count);
    assert Freed(0.0, 0.0, 0.0, count) == 0.0;
    assert Energies(ll, 0.0, sl, 0.0, count) == left * 0.0 == 0.0;
    var d := root(0.0);
    assert d >= 0.0 && d * d == 0.0;
  }

  // ----- the burst -----

  /**
   A window whose reference clicks at the last sample the prefilter visits, and whose recording
   bursts so that this sample is the `reach`-th of the burst.
   */
  ghost predicate BurstWindow(w: Stretch, reach: nat) {
    && 1 <= reach <= BURST
    && w.length == PREFILTER_SAMPLES && w.from + w.length <= |w.reference| && w.heard + w.length <= |w.recording|
    && (forall i :: 0 <= i < |w.reference| ==> w.reference[i] == if i == w.from + LAST_VISITED then LEVEL else 0.0)
    && (forall i :: 0 <= i < |w.recording| ==>
          w.recording[i] == if 0 < i - (w.heard + LAST_VISITED) + reach <= BURST then LOUD else 0)
  }

  /** The level of a sample visited at this offset. */
  function ClickAt(offset: nat): real {
    if offset == LAST_VISITED then LEVEL else 0.0
  }

  function BurstAt(offset: nat, reach: nat): real {
    if offset == LAST_VISITED || (offset + 8 == LAST_VISITED && reach > 8) then LEVEL else 0.0
  }

  lemma BurstVisit(w: Stretch, reach: nat, eighth: nat)
    requires BurstWindow(w, reach) && eighth < 400
    ensures var next, here := w.Visited(8 * (eighth + 1), 8, false), w.Visited(8 * eighth, 8, false);
            && w.length == PREFILTER_SAMPLES
            && here.0 == [ClickAt(8 * eighth)] + next.0 && here.1 == [BurstAt(8 * eighth, reach)] + next.1
  {
    var offset := 8 * eighth;
    assert !w.Ends(offset) && offset + 8 == 8 * (eighth + 1);
    assert LeftAt(w.reference, w.from + offset, false) == ClickAt(offset);
    assert RightAt(w.recording, w.heard + offset, false) == BurstAt(offset, reach);
  }

  /** The five sums from an offset on: one click, and one or two samples of the burst. */
  ghost predicate BurstSums(l: Signal, r: Signal, visits: nat, heard: real) {
    && |l| == |r| == visits
    && Correlation.Sum(l) == LEVEL && Dot(l, l) == LEVEL * LEVEL && Dot(l, r) == LEVEL * LEVEL
    && Correlation.Sum(r) == LEVEL * heard && Dot(r, r) == LEVEL * LEVEL * heard
  }

  lemma {:induction false} BurstSumsFrom(w: Stretch, reach: nat, eighth: nat)
    requires BurstWindow(w, reach) && eighth < 400
    ensures var pair := w.Visited(8 * eighth, 8, false);
            BurstSums(pair.0, pair.1, 400 - eighth, if reach > 8 && eighth < 399 then 2.0 else 1.0)
    decreases 400 - eighth
  {
    hide Dot, Correlation.Sum, Stretch.Visited, BurstWindow;
    var next := w.Visited(8 * (eighth + 1), 8, false);
    BurstVisit(w, reach, eighth);
    var x, y := ClickAt(8 * eighth), BurstAt(8 * eighth, reach);
    SumCons(x, next.0);
    SumCons(y, next.1);
    DotCons(x, x, next.0, next.0);
    DotCons(x, y, next.0, next.1);
    DotCons(y, y, next.1, next.1);
    if eighth == 399 {
      NothingLeft(w);
    } else {
      BurstSumsFrom(w, reach, eighth + 1);
    }
  }

  lemma NothingLeft(w: Stretch)
    requires w.length == PREFILTER_SAMPLES
    ensures w.Visited(3200, 8, false) == ([], []) && Correlation.Sum([]) == 0.0 == Dot([], [])
  {
  }

  lemma BurstScoresSomething(w: Stretch, reach: nat, root: Root)
    requires BurstWindow(w, reach) && IsRoot(root)
    ensures w.Correlated(PREFILTER_STRIDE, false, root) > 0.0
  {
    hide Dot, Correlation.Sum, Stretch.Visited, BurstWindow, OverRoot, Freed, Energies;
    BurstSumsFrom(w, reach, 0);
    var pair := w.Visited(0, 8, false);
    BurstRatio(if reach > 8 then 2.0 else 1.0, root);
  }

  lemma BurstRatio(heard: real, root: Root)
    requires (heard == 1.0 || heard == 2.0) && IsRoot(root)
    ensures OverRoot(Freed(LEVEL * LEVEL, LEVEL, LEVEL * heard, 400),
                     Energies(LEVEL * LEVEL, LEVEL * LEVEL * heard, LEVEL, LEVEL * heard, 400), root) > 0.0
  {
    var product := Freed(LEVEL * LEVEL, LEVEL, LEVEL * heard, 400);
    var energy := Energies(LEVEL * LEVEL, LEVEL * LEVEL * heard, LEVEL, LEVEL * heard, 400);
    assert product > 0.0 && energy > 0.5;
    RatioPositive(product, energy, root);
  }

  lemma RatioPositive(product: real, energy: real, root: Root)
    requires product > 0.0 && energy > 0.5 && IsRoot(root)
    ensures OverRoot(product, energy, root) > 0.0
  {
    var d := root(energy);
    if d <= FLAT {
      SmallSquare(d);
      assert false;
    }
    assert product / d > 0.0;
  }

  lemma SmallSquare(d: real)
    requires 0.0 <= d <= 1.0
    ensures d * d <= d
  {
    ProductNonNegative(d, 1.0 - d);
    assert d * (1.0 - d) == d - d * d;
  }
}
