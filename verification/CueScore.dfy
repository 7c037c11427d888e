/**
 What the score of the cue search measures: it reaches a level exactly if, after one sign common to
 both, the medians of the waveform and of the derivative correlations reach that level.
 */
module CueScore {
  import opened BestFirst
  import opened Correlation
  import opened CueCorrelation
  import opened ExactCopies
  import opened LagSearch
  import opened LeastSquares
  import opened TopList

  // ----- the median, by counting -----

  /** How many values are at least `bound`, or at most `bound`. */
  function Count(x: Signal, bound: real, above: bool): nat {
    if x == [] then 0
    else
      var last := x[|x| - 1];
      Count(x[..|x| - 1], bound, above) + if (if above then last >= bound else last <= bound) then 1 else 0
  }

  /**
   `low` and `high` are the two middle values, one and the same when their number is odd: half of the
   values lie at or below each and half at or above, and more than half on the far side.
   */
  ghost predicate AreMiddle(x: Signal, low: real, high: real) {
    && low in x && high in x && low <= high
    && 2 * Count(x, low, false) >= |x| && 2 * Count(x, low, true) > |x|
    && 2 * Count(x, high, false) > |x| && 2 * Count(x, high, true) >= |x|
  }

  /** The mean of the middle values is at least t. */
  ghost predicate MedianReaches(x: Signal, t: real) {
    exists low, high :: AreMiddle(x, low, high) && low + high >= 2.0 * t
  }

  lemma {:induction false} CountsCover(x: Signal, a: real, b: real)
    requires a < b
    ensures Count(x, a, false) + Count(x, b, true) <= |x|
  {
    if x != [] { CountsCover(x[..|x| - 1], a, b); }
  }

  /** There is only one pair of middle values. */
  lemma MiddleIsUnique(x: Signal, low: real, high: real, low': real, high': real)
    requires AreMiddle(x, low, high) && AreMiddle(x, low', high')
    ensures low == low' && high == high'
  {
    if low < low' { CountsCover(x, low, low'); }
    if low' < low { CountsCover(x, low', low); }
    if high < high' { CountsCover(x, high, high'); }
    if high' < high { CountsCover(x, high', high); }
  }

  // ----- sorting keeps the counts -----

  function Scores(list: seq<Entry>): (x: Signal)
    ensures |x| == |list| && forall i :: 0 <= i < |list| ==> x[i] == list[i].score
  {
    seq(|list|, i requires 0 <= i < |list| => list[i].score)
  }

  function One(score: real, bound: real, above: bool): nat {
    if (if above then score >= bound else score <= bound) then 1 else 0
  }

  lemma CountSnoc(list: seq<Entry>, x: Entry, bound: real, above: bool)
    ensures Count(Scores(list + [x]), bound, above) == Count(Scores(list), bound, above) + One(x.score, bound, above)
  {
    assert Scores(list + [x])[..|list|] == Scores(list);
  }

  lemma {:induction false} InsertCounts(list: seq<Entry>, x: Entry, bound: real, above: bool)
    ensures Count(Scores(Insert(list, x)), bound, above)
            == Count(Scores(list), bound, above) + One(x.score, bound, above)
  {
    hide Count, Scores, One;
    if list == [] || list[|list| - 1].score <= x.score {
      CountSnoc(list, x, bound, above);
    } else {
      var front, last := list[..|list| - 1], list[|list| - 1];
      InsertCounts(front, x, bound, above);
      CountSnoc(Insert(front, x), last, bound, above);
      CountSnoc(front, last, bound, above);
      assert front + [last] == list;
    }
  }

  lemma {:induction false} SortCounts(list: seq<Entry>, bound: real, above: bool)
    ensures Count(Scores(StableSort(list)), bound, above) == Count(Scores(list), bound, above)
  {
    hide Count, Scores, One, Insert;
    if list != [] {
      var front, last := list[..|list| - 1], list[|list| - 1];
      SortCounts(front, bound, above);
      InsertCounts(StableSort(front), last, bound, above);
      CountSnoc(front, last, bound, above);
      assert front + [last] == list;
    }
  }

  lemma {:induction false} CountPrefix(x: Signal, bound: real, k: nat)
    requires k <= |x| && forall i :: 0 <= i < k ==> x[i] <= bound
    ensures Count(x, bound, false) >= k
  {
    if x != [] { CountPrefix(x[..|x| - 1], bound, if k == |x| then k - 1 else k); }
  }

  lemma {:induction false} CountSuffix(x: Signal, bound: real, k: nat)
    requires k <= |x| && forall i :: k <= i < |x| ==> x[i] >= bound
    ensures Count(x, bound, true) >= |x| - k
  {
    if |x| > k { CountSuffix(x[..|x| - 1], bound, k); }
  }

  /** The values with their places. */
  function Entries(values: Signal): (list: seq<Entry>)
    ensures |list| == |values| && forall i :: 0 <= i < |values| ==> list[i] == Scored(i, values[i])
  {
    seq(|values|, i requires 0 <= i < |values| => Scored(i, values[i]))
  }

  lemma SortedIsOfValues(values: Signal, k: nat)
    requires k < |values|
    ensures StableSort(Entries(values))[k].score in values
  {
    hide StableSort;
    var list := Entries(values);
    var sorted := StableSort(list);
    StableSortSorts(list);
    assert sorted[k] in multiset(sorted);
    assert sorted[k] in list;
  }

  /** Place k of the sorted values: k + 1 of them are at most that, the rest at least that. */
  lemma SortedCounts(values: Signal, k: nat)
    requires k < |values|
    ensures var v := StableSort(Entries(values))[k].score;
            Count(values, v, false) >= k + 1 && Count(values, v, true) >= |values| - k
  {
    hide StableSort, Count;
    var list := Entries(values);
    var sorted := StableSort(list);
    var v := sorted[k].score;
    StableSortSorts(list);
    CountPrefix(Scores(sorted), v, k + 1);
    CountSuffix(Scores(sorted), v, k);
    SortCounts(list, v, false);
    SortCounts(list, v, true);
    assert Scores(list) == values;
  }

  /** The median is the mean of the middle values. */
  lemma MedianIsMiddle(values: Signal) returns (low: real, high: real)
    requires values != []
    ensures AreMiddle(values, low, high) && Median(values) == (low + high) / 2.0
  {
    hide StableSort, Count;
    var n := |values|;
    var sorted := StableSort(Entries(values));
    var k, j := n / 2, if n % 2 == 1 then n / 2 else n / 2 - 1;
    low, high := sorted[j].score, sorted[k].score;
    SortedIsOfValues(values, j);
    SortedIsOfValues(values, k);
    SortedCounts(values, j);
    SortedCounts(values, k);
    StableSortSorts(Entries(values));
  }

  lemma MedianReachesExactlyWhen(values: Signal, t: real)
    requires values != []
    ensures MedianReaches(values, t) <==> Median(values) >= t
  {
    hide Median, AreMiddle;
    var low, high := MedianIsMiddle(values);
    if MedianReaches(values, t) {
      var low', high' :| AreMiddle(values, low', high') && low' + high' >= 2.0 * t;
      MiddleIsUnique(values, low, high, low', high');
    }
  }

  // ----- one sign for both -----

  function Signed(x: Signal, sign: real): (y: Signal)
    ensures |y| == |x| && forall i :: 0 <= i < |x| ==> y[i] == x[i] * sign
  {
    seq(|x|, i requires 0 <= i < |x| => x[i] * sign)
  }

  lemma {:induction false} NegatedCounts(x: Signal, bound: real, above: bool)
    ensures Count(Signed(x, -1.0), -bound, above) == Count(x, bound, !above)
  {
    if x != [] {
      NegatedCounts(x[..|x| - 1], bound, above);
      assert Signed(x, -1.0)[..|x| - 1] == Signed(x[..|x| - 1], -1.0);
    }
  }

  /** Turning all values over turns the middle over. */
  lemma NegatedMiddle(x: Signal, low: real, high: real)
    requires AreMiddle(x, low, high)
    ensures AreMiddle(Signed(x, -1.0), -high, -low)
  {
    hide Count;
    var i :| 0 <= i < |x| && x[i] == low;
    var j :| 0 <= j < |x| && x[j] == high;
    assert Signed(x, -1.0)[i] == -low && Signed(x, -1.0)[j] == -high;
    NegatedCounts(x, low, false);
    NegatedCounts(x, low, true);
    NegatedCounts(x, high, false);
    NegatedCounts(x, high, true);
  }

  lemma SignedMedian(x: Signal, sign: real)
    requires x != [] && IsSign(sign)
    ensures Median(Signed(x, sign)) == Median(x) * sign
  {
    hide Median, AreMiddle;
    if sign == 1.0 {
      assert Signed(x, sign) == x;
    } else {
      var low, high := MedianIsMiddle(x);
      NegatedMiddle(x, low, high);
      var low', high' := MedianIsMiddle(Signed(x, -1.0));
      MiddleIsUnique(Signed(x, -1.0), low', high', -high, -low);
    }
  }

  lemma PolarisedIsSigned(x: Signal, polarity: int)
    ensures Polarised(x, polarity) == Signed(x, polarity as real)
  {
  }

  /** The better of the two signs, for the worse of the two medians under it. */
  lemma AgreementIs(waveforms: Signal, derivatives: Signal)
    requires waveforms != [] && derivatives != []
    ensures var w, d := Median(waveforms), Median(derivatives);
            && Agreement(waveforms, derivatives) == (if w + d < 0.0 then Lesser(-w, -d) else Lesser(w, d))
            && forall sign :: IsSign(sign) ==> Lesser(w * sign, d * sign) <= Agreement(waveforms, derivatives)
  {
    hide Median, Polarised;
    var w, d := Median(waveforms), Median(derivatives);
    var polarity := if w + d < 0.0 then -1 else 1;
    PolarisedIsSigned(waveforms, polarity);
    PolarisedIsSigned(derivatives, polarity);
    SignedMedian(waveforms, polarity as real);
    SignedMedian(derivatives, polarity as real);
  }

  function Lesser(x: real, y: real): real {
    if y < x then y else x
  }

  /** Both medians reach t once the sign has been applied. */
  ghost predicate Agree(waveforms: Signal, derivatives: Signal, sign: real, t: real) {
    MedianReaches(Signed(waveforms, sign), t) && MedianReaches(Signed(derivatives, sign), t)
  }

  lemma AgreeExactlyWhen(waveforms: Signal, derivatives: Signal, sign: real, t: real)
    requires waveforms != [] && derivatives != [] && IsSign(sign)
    ensures Agree(waveforms, derivatives, sign, t)
            <==> Lesser(Median(waveforms) * sign, Median(derivatives) * sign) >= t
  {
    hide Median, MedianReaches;
    SignedMedian(waveforms, sign);
    SignedMedian(derivatives, sign);
    MedianReachesExactlyWhen(Signed(waveforms, sign), t);
    MedianReachesExactlyWhen(Signed(derivatives, sign), t);
  }

  /**
   The score of a lag reaches t if and only if for one sign, the same for both, the median of the
   waveform correlations and that of the derivative correlations reach t.
   */
  lemma SimilarityReachesExactlyWhen(s: Search, lag: int, t: real)
    requires s.layout.starts != [] && s.layout.Complete(lag)
    ensures var n := |s.layout.starts|;
            s.Similarity(lag) >= t
            <==> exists sign :: IsSign(sign)
                                && Agree(s.Correlations(lag, n, false), s.Correlations(lag, n, true), sign, t)
  {
    hide Median, Agreement, Agree, Search.Correlations;
    var n := |s.layout.starts|;
    var waveforms, derivatives := s.Correlations(lag, n, false), s.Correlations(lag, n, true);
    AgreementIs(waveforms, derivatives);
    AgreeExactlyWhen(waveforms, derivatives, 1.0, t);
    AgreeExactlyWhen(waveforms, derivatives, -1.0, t);
    if s.Similarity(lag) >= t {
      var sign := if Median(waveforms) + Median(derivatives) < 0.0 then -1.0 else 1.0;
      assert IsSign(sign) && Agree(waveforms, derivatives, sign, t);
    }
  }

  // ----- bounds -----

  ghost predicate InUnit(x: Signal) {
    forall i :: 0 <= i < |x| ==> -1.0 <= x[i] <= 1.0
  }

  lemma MedianInUnit(x: Signal)
    requires x != [] && InUnit(x)
    ensures -1.0 <= Median(x) <= 1.0
  {
    hide Median, Count;
    var low, high := MedianIsMiddle(x);
  }

  lemma {:induction false} CorrelationsInUnit(s: Search, lag: int, count: nat, derivative: bool)
    requires count <= |s.layout.starts| && IsRoot(s.root)
    requires forall i :: 0 <= i < count ==> s.layout.WindowFits(s.layout.starts[i], lag, s.layout.length)
    ensures InUnit(s.Correlations(lag, count, derivative))
  {
    hide OnePass, Stretch.Visited;
    if count > 0 {
      CorrelationsInUnit(s, lag, count - 1, derivative);
      CorrelatedInUnit(s.Window(s.layout.starts[count - 1], lag, s.layout.length), s.FullStride(), derivative, s.root);
    }
  }

  lemma CorrelatedInUnit(w: Stretch, stride: nat, derivative: bool, root: Root)
    requires stride > 0 && IsRoot(root)
    ensures -1.0 <= w.Correlated(stride, derivative, root) <= 1.0
  {
    hide OnePass, Stretch.Visited;
    var pair := w.Visited(if derivative then stride else 0, stride, derivative);
    OnePassInUnit(pair.0, pair.1, root);
  }

  /** No lag scores more than 1. */
  lemma SimilarityInUnit(s: Search, lag: int)
    requires s.layout.starts != [] && s.layout.Complete(lag) && IsRoot(s.root)
    ensures -1.0 <= s.Similarity(lag) <= 1.0
  {
    hide Median, Agreement, Search.Correlations;
    var n := |s.layout.starts|;
    CorrelationsInUnit(s, lag, n, false);
    CorrelationsInUnit(s, lag, n, true);
    AgreementIs(s.Correlations(lag, n, false), s.Correlations(lag, n, true));
    MedianInUnit(s.Correlations(lag, n, false));
    MedianInUnit(s.Correlations(lag, n, true));
  }
}
