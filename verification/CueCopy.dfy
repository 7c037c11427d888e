/**
 The cue search on a recording that holds the cue itself, upright or inverted: its lag scores 1, which
 no lag exceeds, and unless too many other lags are perfect by the prefilter the search ends with
 score 1.
 */
module CueCopy {
  import opened Arithmetic
  import opened Prelude
  import opened BestFirst
  import opened Correlation
  import opened CueCorrelation
  import opened CueScore
  import opened ExactCopies
  import opened LagSearch
  import opened LagSearchCoverage
  import opened LeastSquares
  import opened TopList

  /** The least difference of two recorded values. */
  const QUANTUM: real := 1.0 / 32768.0

  // ----- one stretch -----

  /** Over the stretch the recording is the reference, or its inverse. */
  ghost predicate Repeats(w: Stretch, sign: real) {
    && IsSign(sign)
    && w.from + w.length <= |w.reference| && w.heard + w.length <= |w.recording|
    && forall o :: 0 <= o < w.length ==> RepeatsAt(w, o, sign)
  }

  ghost predicate RepeatsAt(w: Stretch, o: nat, sign: real) {
    && w.from + o < |w.reference| && w.heard + o < |w.recording|
    && w.recording[w.heard + o] as int as real / 32768.0 == sign * w.reference[w.from + o]
  }

  lemma RightIsCopy(w: Stretch, offset: nat, derivative: bool, sign: real)
    requires Repeats(w, sign) && offset < w.length && (derivative ==> offset > 0)
    ensures RightAt(w.recording, w.heard + offset, derivative)
            == sign * LeftAt(w.reference, w.from + offset, derivative)
  {
    assert RepeatsAt(w, offset, sign);
    assert derivative ==> RepeatsAt(w, offset - 1, sign);
  }

  lemma {:induction false} VisitedIsCopy(w: Stretch, offset: nat, stride: nat, derivative: bool, sign: real)
    requires Repeats(w, sign) && stride > 0 && (derivative ==> offset > 0)
    ensures var pair := w.Visited(offset, stride, derivative); IsCopy(pair.0, pair.1, sign)
    decreases w.length - offset
  {
    hide LeftAt, RightAt, RepeatsAt;
    if !w.Ends(offset) {
      VisitedIsCopy(w, offset + stride, stride, derivative, sign);
      RightIsCopy(w, offset, derivative, sign);
    }
  }

  lemma OneMore(count: nat, stride: nat)
    ensures (count + 1) * stride == count * stride + stride
  {
  }

  lemma {:induction false} VisitedCount(w: Stretch, offset: nat, stride: nat, derivative: bool, sign: real)
    requires Repeats(w, sign) && stride > 0 && (derivative ==> offset > 0)
    ensures |w.Visited(offset, stride, derivative).0| * stride >= w.length - offset
    decreases w.length - offset
  {
    hide LeftAt, RightAt, RepeatsAt;
    if !w.Ends(offset) {
      VisitedCount(w, offset + stride, stride, derivative, sign);
      OneMore(|w.Visited(offset + stride, stride, derivative).0|, stride);
    }
  }

  /** What is visited of the reference is not flat. */
  ghost predicate Lively(w: Stretch, stride: nat, derivative: bool)
    requires stride > 0
  {
    Varies(w.Visited(if derivative then stride else 0, stride, derivative).0, QUANTUM)
  }

  lemma EnoughVisited(count: nat, stride: nat, length: nat)
    requires stride > 0 && count * stride >= length - stride && length >= 81 * stride
    ensures count >= OBSERVED
  {
    MulCancel(79, count, stride);
  }

  /** A lively stretch that repeats the reference correlates to its sign. */
  lemma RepeatCorrelates(w: Stretch, stride: nat, derivative: bool, sign: real, root: Root)
    requires Repeats(w, sign) && stride > 0 && w.length >= 81 * stride && Lively(w, stride, derivative) && IsRoot(root)
    ensures w.Correlated(stride, derivative, root) == sign
  {
    hide Stretch.Visited, Dot, Centered, Varies, Energy, OnePass, Coefficient, IsCopy;
    var begin := if derivative then stride else 0;
    var pair := w.Visited(begin, stride, derivative);
    VisitedIsCopy(w, begin, stride, derivative, sign);
    VisitedCount(w, begin, stride, derivative, sign);
    EnoughVisited(|pair.0|, stride, w.length);
    VaryingHasEnergy(pair.0, QUANTUM);
    CopyCorrelates(pair.0, pair.1, sign, root);
    OnePassIsCoefficient(pair.0, pair.1, root);
  }

  // ----- one lag -----

  /** At this lag every window repeats its part of the reference, none of them flat. */
  ghost predicate IsCopyAt(s: Search, lag: int, sign: real)
    requires s.layout.starts != [] && s.layout.Complete(lag)
  {
    && IsRoot(s.root)
    && forall i :: 0 <= i < |s.layout.starts| ==> WindowRepeats(s, lag, i, sign)
  }

  ghost predicate WindowRepeats(s: Search, lag: int, i: nat, sign: real)
    requires i < |s.layout.starts| && s.layout.Complete(lag)
  {
    var w := s.Window(s.layout.starts[i], lag, s.layout.length);
    Repeats(w, sign) && Lively(w, s.FullStride(), false) && Lively(w, s.FullStride(), true)
  }

  lemma StrideIsSmall(s: Search)
    requires s.layout.Valid()
    ensures s.layout.length >= 81 * s.FullStride()
  {
    var stride := s.layout.length / SAMPLES_PER_STRIDE;
    DivBounds(s.layout.length, SAMPLES_PER_STRIDE);
  }

  lemma {:induction false} CopyCorrelations(s: Search, lag: int, count: nat, derivative: bool, sign: real)
    requires s.layout.Valid() && s.layout.Complete(lag) && IsCopyAt(s, lag, sign) && count <= |s.layout.starts|
    ensures forall i :: 0 <= i < count ==> s.Correlations(lag, count, derivative)[i] == sign
  {
    hide Stretch.Correlated, Repeats, Lively;
    if count > 0 {
      CopyCorrelations(s, lag, count - 1, derivative, sign);
      assert WindowRepeats(s, lag, count - 1, sign);
      StrideIsSmall(s);
      RepeatCorrelates(s.Window(s.layout.starts[count - 1], lag, s.layout.length), s.FullStride(), derivative, sign,
                       s.root);
    }
  }

  lemma MedianOfSame(x: Signal, v: real)
    requires x != [] && forall i :: 0 <= i < |x| ==> x[i] == v
    ensures Median(x) == v
  {
    hide Median, Count;
    var low, high := MedianIsMiddle(x);
  }

  /** A copy scores 1. */
  lemma CopyScoresOne(s: Search, lag: int, sign: real)
    requires s.layout.Valid() && s.layout.Complete(lag) && IsCopyAt(s, lag, sign)
    ensures s.Similarity(lag) == 1.0
  {
    hide Median, Agreement, Search.Correlations, WindowRepeats;
    var n := |s.layout.starts|;
    CopyCorrelations(s, lag, n, false, sign);
    CopyCorrelations(s, lag, n, true, sign);
    RepeatSign(s, lag, sign);
    MedianOfSame(s.Correlations(lag, n, false), sign);
    MedianOfSame(s.Correlations(lag, n, true), sign);
    AgreementIs(s.Correlations(lag, n, false), s.Correlations(lag, n, true));
  }

  lemma RepeatSign(s: Search, lag: int, sign: real)
    requires s.layout.starts != [] && s.layout.Complete(lag) && IsCopyAt(s, lag, sign)
    ensures IsSign(sign)
  {
    assert WindowRepeats(s, lag, 0, sign);
  }

  // ----- the whole search -----

  lemma ShorterRepeats(w: Stretch, length: nat, sign: real)
    requires Repeats(w, sign) && length <= w.length
    ensures Repeats(w.(length := length), sign)
  {
    hide RepeatsAt;
    forall o: nat | o < length ensures RepeatsAt(w.(length := length), o, sign) {
      assert RepeatsAt(w, o, sign);
      SamePlace(w, length, o, sign);
    }
  }

  lemma SamePlace(w: Stretch, length: nat, o: nat, sign: real)
    ensures RepeatsAt(w.(length := length), o, sign) <==> RepeatsAt(w, o, sign)
  {
  }

  /** The stretch the prefilter hears at a lag. */
  function Heard(s: Search, lag: int): Stretch
    requires s.layout.starts != [] && s.layout.Prefiltered(lag)
  {
    s.Window(s.layout.starts[0], lag, Min(s.layout.length, PREFILTER_SAMPLES))
  }

  lemma CompleteIsPrefiltered(l: Layout, lag: int)
    requires l.starts != [] && l.Complete(lag)
    ensures l.Prefiltered(lag)
  {
    assert l.WindowFits(l.starts[0], lag, l.length);
  }

  /** A copy that the prefilter hears as lively gets its full two points. */
  lemma CopyPrefiltersTwo(s: Search, lag: int, sign: real)
    requires s.Valid() && s.layout.Complete(lag) && IsCopyAt(s, lag, sign)
    requires s.layout.Prefiltered(lag)
    requires Lively(Heard(s, lag), PREFILTER_STRIDE, false) && Lively(Heard(s, lag), PREFILTER_STRIDE, true)
    ensures s.PrefilterScore(lag) == 2.0
  {
    hide Stretch.Correlated, Repeats, Lively;
    assert WindowRepeats(s, lag, 0, sign);
    RepeatSign(s, lag, sign);
    ShorterRepeats(s.Window(s.layout.starts[0], lag, s.layout.length), PREFILTER_SAMPLES, sign);
    RepeatCorrelates(Heard(s, lag), PREFILTER_STRIDE, false, sign, s.root);
    RepeatCorrelates(Heard(s, lag), PREFILTER_STRIDE, true, sign, s.root);
  }

  lemma PrefilterAtMostTwo(s: Search, lag: int)
    requires s.layout.starts != [] && s.layout.Prefiltered(lag) && IsRoot(s.root)
    ensures s.PrefilterScore(lag) <= 2.0
  {
    hide Stretch.Correlated;
    CorrelatedInUnit(Heard(s, lag), PREFILTER_STRIDE, false, s.root);
    CorrelatedInUnit(Heard(s, lag), PREFILTER_STRIDE, true, s.root);
  }

  /** Two points are for full correlation in waveform and in derivative, whatever the signs. */
  lemma TwoPointsExactlyWhen(s: Search, lag: int)
    requires s.layout.starts != [] && s.layout.Prefiltered(lag) && IsRoot(s.root)
    ensures 0.0 <= s.PrefilterScore(lag)
    ensures s.PrefilterScore(lag) == 2.0
            <==> && IsSign(Heard(s, lag).Correlated(PREFILTER_STRIDE, false, s.root))
                 && IsSign(Heard(s, lag).Correlated(PREFILTER_STRIDE, true, s.root))
  {
    hide Stretch.Correlated;
    CorrelatedInUnit(Heard(s, lag), PREFILTER_STRIDE, false, s.root);
    CorrelatedInUnit(Heard(s, lag), PREFILTER_STRIDE, true, s.root);
  }

  /** Lags other than `lag` that the prefilter cannot tell from a copy. */
  ghost predicate PerfectOthers(s: Search, lag: int, others: set<int>)
    requires s.layout.starts != []
  {
    forall x :: x in others ==>
      x != lag && s.layout.InRadius(x) && s.layout.Prefiltered(x) && s.PrefilterScore(x) == 2.0
  }

  /** With fewer than twelve such others, a lag of two points is shortlisted. */
  lemma PerfectIsShortlisted(s: Search, lag: int)
    requires s.Valid() && IsRoot(s.root) && s.layout.InRadius(lag) && s.layout.Prefiltered(lag)
    requires s.PrefilterScore(lag) == 2.0
    requires forall others :: PerfectOthers(s, lag, others) ==> |others| < CAPACITY
    ensures Scored(lag, 2.0) in s.Shortlist()
  {
    hide IsTop, Layout.Prefiltered, DistinctLags, Search.PrefilterScore, Search.Scan, Search.Shortlist;
    var kept, mine := s.Shortlist(), Scored(lag, 2.0);
    ShortlistIsTop(s);
    ShortlistInRadius(s);
    ShortlistIsDistinct(s);
    ScanIs(s, -s.layout.radius);
    FullOrEverything(kept, s.Scan(-s.layout.radius));
    if mine !in kept {
      forall x | x in Lags(kept)
        ensures x != lag && s.layout.InRadius(x) && s.layout.Prefiltered(x) && s.PrefilterScore(x) == 2.0
      {
        var k :| k in kept && k.item == x;
        LeftOutScoresNoMore(kept, s.Scan(-s.layout.radius), mine, k);
        PrefilterAtMostTwo(s, x);
      }
      assert false;
    }
  }

  /**
   If at a complete lag of the radius the recording holds the cue itself, upright or inverted and
   nowhere flat, and the prefilter cannot tell fewer than twelve other lags from it, the search ends
   with score 1; and if no other complete lag scores 1, it ends at that lag.
   */
  lemma CopyIsFound(s: Search, lag: int, sign: real)
    requires s.Valid() && s.layout.InRadius(lag) && s.layout.Complete(lag) && IsCopyAt(s, lag, sign)
    requires s.layout.Prefiltered(lag)
    requires Lively(Heard(s, lag), PREFILTER_STRIDE, false) && Lively(Heard(s, lag), PREFILTER_STRIDE, true)
    requires forall others :: PerfectOthers(s, lag, others) ==> |others| < CAPACITY
    ensures Ending(s).Found? && Ending(s).best.score == 1.0
    ensures (forall x :: s.layout.InRadius(x) && s.layout.Complete(x) && s.Similarity(x) == 1.0 ==> x == lag) ==>
              Ending(s).best.item == lag
  {
    hide Search.Similarity, Search.PrefilterScore, Search.Scan, Search.Shortlist, Layout.Complete, Layout.Prefiltered,
         IsTop, Ending, Lively, PerfectOthers, WindowRepeats;
    CopyPrefiltersTwo(s, lag, sign);
    CopyScoresOne(s, lag, sign);
    PerfectIsShortlisted(s, lag);
    assert HasComplete(s, s.Shortlist()) by {
      assert Scored(lag, 2.0) in s.Shortlist() && s.layout.Complete(Scored(lag, 2.0).item);
    }
    FailsWithoutComplete(s);
    var centre := EndingSettles(s);
    SimilarityInUnit(s, Ending(s).best.item);
  }
}
