/**
 Where a translated cue is heard: a cheap score of every lag keeps the twelve most promising,
 those are evaluated in full, and the winner is refined by two samples either way. All scores
 are computed from the reference and the recording.
 */
module LagSearch {
  import opened Arithmetic
  import opened Prelude
  import opened BestFirst
  import opened Correlation
  import opened CueCorrelation
  import opened LeastSquares
  import opened PcmCodec
  import opened Resampling
  import opened TopList

  const SEGMENT_SAMPLES: nat := 11_200
  const MINIMUM_SAMPLES: nat := 6_400
  const PREFILTER_SAMPLES: nat := 3_200
  const PREFILTER_STRIDE: nat := 8
  const SAMPLES_PER_STRIDE: nat := 12_000
  const REFINEMENT: int := 2

  // ----- where windows lie -----

  /** 8, 50 and 90 percent of the room there is, rounded, without repeats. */
  function Rounded(x: real): int {
    (x + 0.5).Floor
  }

  function Starts(room: nat): (starts: seq<nat>)
    ensures 1 <= |starts| <= 3
    ensures forall i :: 0 <= i < |starts| ==> starts[i] <= room
    ensures forall i, j :: 0 <= i < j < |starts| ==> starts[i] < starts[j]
  {
    var a, b, c := Rounded(room as real * 0.08), Rounded(room as real * 0.5), Rounded(room as real * 0.9);
    if a == b == c then [a] else if a == b then [a, c] else if b == c then [a, b] else [a, b, c]
  }

  lemma RoundedIs(n: int, d: int)
    requires d > 0
    ensures Rounded(n as real / d as real) == (2 * n + d) / (2 * d)
  {
    var q := (2 * n + d) / (2 * d);
    DivBounds(2 * n + d, 2 * d);
    var x := n as real / d as real;
    assert x * d as real == n as real;
    FloorOf(x + 0.5, d, 2 * n + d, q);
  }

  lemma FloorOf(x: real, d: int, m: int, q: int)
    requires d > 0 && x * (2 * d) as real == m as real && q * (2 * d) <= m < (q + 1) * (2 * d)
    ensures x.Floor == q
  {
    var f := x.Floor;
    assert f as real <= x < (f + 1) as real;
    ScaledFloor(x, f, 2 * d);
    assert f * (2 * d) <= m < (f + 1) * (2 * d);
    MulCancel(f, q + 1, 2 * d);
    MulCancel(q, f + 1, 2 * d);
  }

  lemma ScaledFloor(x: real, f: int, d: int)
    requires d > 0 && f as real <= x < (f + 1) as real
    ensures (f * d) as real <= x * d as real < ((f + 1) * d) as real
  {
    assert (f * d) as real == f as real * d as real;
    assert ((f + 1) * d) as real == (f + 1) as real * d as real;
  }

  /** In integers: 2, 12.5 and 22.5 twenty-fifths of the room, rounded to the nearest, halves up. */
  lemma StartsAre(room: nat)
    ensures var a, b, c := (4 * room + 25) / 50, (room + 1) / 2, (18 * room + 10) / 20;
            && forall x :: x in Starts(room) <==> x == a || x == b || x == c
  {
    RoundedIs(2 * room, 25);
    RoundedIs(room, 2);
    RoundedIs(9 * room, 10);
    assert room as real * 0.08 == (2 * room) as real / 25.0;
    assert room as real * 0.5 == room as real / 2.0;
    assert room as real * 0.9 == (9 * room) as real / 10.0;
  }

  /** Windows of `length` samples at `starts` of the reference, heard around `expectedStart` plus a lag. */
  datatype Layout = Layout(recordingLength: nat, expectedStart: int, starts: seq<nat>, length: nat, radius: int) {

    ghost predicate Valid() {
      && starts != [] && length >= MINIMUM_SAMPLES
      && forall i, j :: 0 <= i < j < |starts| ==> starts[i] < starts[j]
    }

    predicate WindowFits(start: nat, lag: int, samples: nat) {
      0 <= expectedStart + lag + start && expectedStart + lag + start + samples <= recordingLength
    }

    predicate Prefiltered(lag: int)
      requires starts != []
    {
      WindowFits(starts[0], lag, Min(length, PREFILTER_SAMPLES))
    }

    predicate Complete(lag: int) {
      forall i :: 0 <= i < |starts| ==> WindowFits(starts[i], lag, length)
    }

    predicate InRadius(lag: int) {
      -radius <= lag <= radius
    }
  }

  function LayoutOf(referenceLength: nat, recordingLength: nat, expectedStart: int, radius: nat): (l: Layout)
    requires referenceLength >= MINIMUM_SAMPLES
    ensures l.Valid() && l.recordingLength == recordingLength && l.radius == radius && l.expectedStart == expectedStart
    ensures forall i :: 0 <= i < |l.starts| ==> l.starts[i] + l.length <= referenceLength
  {
    var length := Min(referenceLength, SEGMENT_SAMPLES);
    Layout(recordingLength, expectedStart, Starts(referenceLength - length), length, radius)
  }

  /** Windows of 11200 samples, or of the whole cue if it is shorter, and then there is but one. */
  lemma LayoutIs(referenceLength: nat, recordingLength: nat, expectedStart: int, radius: nat)
    requires referenceLength >= MINIMUM_SAMPLES
    ensures var l, room := LayoutOf(referenceLength, recordingLength, expectedStart, radius),
                  Max(referenceLength - SEGMENT_SAMPLES, 0);
            && l.length == referenceLength - room && (room == 0 || l.length == 11_200)
            && (forall x :: x in l.starts <==> x in {(4 * room + 25) / 50, (room + 1) / 2, (18 * room + 10) / 20})
            && (referenceLength <= 11_200 ==> l.starts == [0])
  {
    var room := Max(referenceLength - SEGMENT_SAMPLES, 0);
    StartsAre(room);
    assert Starts(0) == [0];
  }

  // ----- scores -----

  /** The middle value, or the mean of the two middle values. */
  function Median(values: Signal): real
    requires values != []
  {
    var sorted := StableSort(seq(|values|, i requires 0 <= i < |values| => Scored(i, values[i])));
    var middle := |sorted| / 2;
    if |sorted| % 2 == 1 then sorted[middle].score else (sorted[middle - 1].score + sorted[middle].score) / 2.0
  }

  function Polarised(values: Signal, polarity: int): (s: Signal)
    ensures |s| == |values|
  {
    seq(|values|, i requires 0 <= i < |values| => values[i] * polarity as real)
  }

  /** The smaller of the two medians once the polarity they suggest has been applied. */
  function Agreement(waveforms: Signal, derivatives: Signal): real
    requires waveforms != [] && derivatives != []
  {
    var polarity := if Median(waveforms) + Median(derivatives) < 0.0 then -1 else 1;
    var waveform, derivative := Median(Polarised(waveforms, polarity)), Median(Polarised(derivatives, polarity));
    if derivative < waveform then derivative else waveform
  }

  datatype Search = Search(layout: Layout, reference: Signal, recording: Recording, root: Root) {

    ghost predicate Valid() {
      layout.Valid() && |recording| == layout.recordingLength
    }

    /** The stretch of a window at this lag. */
    function Window(start: nat, lag: int, samples: nat): Stretch
      requires layout.WindowFits(start, lag, samples)
    {
      Stretch(reference, recording, start, layout.expectedStart + lag + start, samples)
    }

    function PrefilterScore(lag: int): real
      requires layout.starts != [] && layout.Prefiltered(lag)
    {
      var window := Window(layout.starts[0], lag, Min(layout.length, PREFILTER_SAMPLES));
      Abs(window.Correlated(PREFILTER_STRIDE, false, root)) + Abs(window.Correlated(PREFILTER_STRIDE, true, root))
    }

    function FullStride(): (stride: nat)
      ensures stride > 0
    {
      Max(layout.length / SAMPLES_PER_STRIDE, 1)
    }

    /** The correlations of the first `count` windows in full. */
    function Correlations(lag: int, count: nat, derivative: bool): (values: Signal)
      requires count <= |layout.starts|
      requires forall i :: 0 <= i < count ==> layout.WindowFits(layout.starts[i], lag, layout.length)
      ensures |values| == count
    {
      if count == 0 then []
      else
        var window := Window(layout.starts[count - 1], lag, layout.length);
        Correlations(lag, count - 1, derivative) + [window.Correlated(FullStride(), derivative, root)]
    }

    function Similarity(lag: int): real
      requires layout.starts != [] && layout.Complete(lag)
    {
      Agreement(Correlations(lag, |layout.starts|, false), Correlations(lag, |layout.starts|, true))
    }

    /** The full evaluation; nothing when a window leaves the recording. */
    function Evaluate(lag: int): Option<Entry>
      requires layout.starts != []
    {
      if layout.Complete(lag) then Some(Scored(lag, Similarity(lag))) else None
    }

    /** The entries the prefilter computes from `low` on. */
    function Scan(low: int): seq<Entry>
      requires layout.starts != []
      decreases layout.radius - low + 1
    {
      if low > layout.radius then []
      else (if layout.Prefiltered(low) then [Scored(low, PrefilterScore(low))] else []) + Scan(low + 1)
    }

    function Shortlist(): seq<Entry>
      requires layout.starts != []
    {
      Kept(Scan(-layout.radius))
    }

    /** The complete evaluations from `low` to `high`, in order. */
    function Trail(low: int, high: int): seq<Entry>
      requires layout.starts != []
      decreases high - low + 1
    {
      if low > high then []
      else (if layout.Complete(low) then [Scored(low, Similarity(low))] else []) + Trail(low + 1, high)
    }

    /** The evaluations around a centre, both ends clipped to the radius. */
    function Around(centre: int): seq<Entry>
      requires layout.starts != []
    {
      Trail(Max(centre - REFINEMENT, -layout.radius), Min(centre + REFINEMENT, layout.radius))
    }
  }

  // ----- the three stages -----

  /** One more entry offered, and one lag less to scan. */
  lemma ScanNext(s: Search, lag: int, scanned: seq<Entry>)
    requires s.layout.starts != [] && lag <= s.layout.radius
    ensures s.layout.Prefiltered(lag) ==>
              var x := Scored(lag, s.PrefilterScore(lag));
              scanned + s.Scan(lag) == (scanned + [x]) + s.Scan(lag + 1)
                  && Kept(scanned + [x]) == Admit(Kept(scanned), x)
    ensures !s.layout.Prefiltered(lag) ==> s.Scan(lag) == s.Scan(lag + 1)
  {
    hide Admit, Search.PrefilterScore, Layout.Prefiltered;
    if s.layout.Prefiltered(lag) {
      var x := Scored(lag, s.PrefilterScore(lag));
      assert s.Scan(lag) == [x] + s.Scan(lag + 1);
      assert (scanned + [x])[..|scanned|] == scanned;
    }
  }

  /** Prefilter every lag of the radius. */
  method Prefilter(s: Search) returns (kept: seq<Entry>)
    requires s.Valid()
    ensures kept == s.Shortlist()
  {
    hide Admit, Kept, Search.PrefilterScore, Layout.Prefiltered, Search.Scan;
    kept := [];
    ghost var scanned := [];
    var lag := -s.layout.radius;
    NothingKept();
    while lag <= s.layout.radius
      invariant scanned + s.Scan(lag) == s.Scan(-s.layout.radius)
      invariant kept == Kept(scanned)
      decreases s.layout.radius + 1 - lag
    {
      ScanNext(s, lag, scanned);
      if s.layout.Prefiltered(lag) {
        var score := PrefilterAt(s, lag);
        kept := Offer(kept, Scored(lag, score));
        scanned := scanned + [Scored(lag, score)];
      }
      lag := lag + 1;
    }
    ScanEnds(s, lag);
    assert scanned + [] == scanned;
  }

  lemma NothingKept()
    ensures Kept([]) == []
  {
  }

  lemma ScanEnds(s: Search, lag: int)
    requires s.layout.starts != [] && lag > s.layout.radius
    ensures s.Scan(lag) == []
  {
  }

  method PrefilterAt(s: Search, lag: int) returns (score: real)
    requires s.Valid() && s.layout.Prefiltered(lag)
    ensures score == s.PrefilterScore(lag)
  {
    var window := s.Window(s.layout.starts[0], lag, Min(s.layout.length, PREFILTER_SAMPLES));
    var waveform := TranslatedPearson(window, PREFILTER_STRIDE, false, s.root);
    var derivative := TranslatedPearson(window, PREFILTER_STRIDE, true, s.root);
    score := Abs(waveform) + Abs(derivative);
  }

  /** The full evaluation, window by window, given up at the first that does not fit. */
  method EvaluateAt(s: Search, lag: int) returns (r: Option<Entry>)
    requires s.Valid()
    ensures r == s.Evaluate(lag)
  {
    hide Agreement, Stretch.Correlated;
    var waveforms, derivatives := [], [];
    for i := 0 to |s.layout.starts|
      invariant forall j :: 0 <= j < i ==> s.layout.WindowFits(s.layout.starts[j], lag, s.layout.length)
      invariant waveforms == s.Correlations(lag, i, false) && derivatives == s.Correlations(lag, i, true)
    {
      var start := s.layout.starts[i];
      if !s.layout.WindowFits(start, lag, s.layout.length) {
        return None;
      }
      var window := s.Window(start, lag, s.layout.length);
      var waveform := TranslatedPearson(window, s.FullStride(), false, s.root);
      var derivative := TranslatedPearson(window, s.FullStride(), true, s.root);
      waveforms, derivatives := waveforms + [waveform], derivatives + [derivative];
    }
    r := Some(Scored(lag, Agreement(waveforms, derivatives)));
  }

  /** `k` is the last index of the largest complete evaluation among `kept`. */
  ghost predicate IsLastMaximum(s: Search, kept: seq<Entry>, k: int)
    requires s.layout.starts != []
  {
    && 0 <= k < |kept| && s.layout.Complete(kept[k].item)
    && (forall j :: 0 <= j < |kept| && s.layout.Complete(kept[j].item) ==>
          s.Similarity(kept[j].item) <= s.Similarity(kept[k].item))
    && (forall j :: k < j < |kept| && s.layout.Complete(kept[j].item) ==>
          s.Similarity(kept[j].item) < s.Similarity(kept[k].item))
  }

  /** `filter_map` and `max_by`: the last of the best evaluations, or nothing when none is complete. */
  function LastBest(s: Search, kept: seq<Entry>): (best: Option<Entry>)
    requires s.layout.starts != []
  {
    if kept == [] then None
    else
      var front, last := LastBest(s, kept[..|kept| - 1]), s.Evaluate(kept[|kept| - 1].item);
      if last.None? then front
      else if front.Some? && front.value.score > last.value.score then front
      else last
  }

  lemma {:induction false} LastBestIsLastMaximum(s: Search, kept: seq<Entry>) returns (k: int)
    requires s.layout.starts != []
    ensures LastBest(s, kept).None? <==> forall j :: 0 <= j < |kept| ==> !s.layout.Complete(kept[j].item)
    ensures LastBest(s, kept).Some? ==> IsLastMaximum(s, kept, k) && LastBest(s, kept) == s.Evaluate(kept[k].item)
  {
    hide Layout.Complete, Search.Similarity;
    k := 0;
    if kept != [] {
      var front, last := kept[..|kept| - 1], kept[|kept| - 1];
      var j := LastBestIsLastMaximum(s, front);
      assert forall i :: 0 <= i < |front| ==> front[i] == kept[i];
      var before := LastBest(s, front);
      if !s.layout.Complete(last.item) {
        k := j;
      } else if before.Some? && before.value.score > s.Similarity(last.item) {
        k := j;
      } else {
        k := |kept| - 1;
        assert before.Some? ==> s.Similarity(front[j].item) <= s.Similarity(last.item);
      }
    }
  }

  /** Two samples either way; only a strictly better evaluation takes over. */
  method Refine(s: Search, found: Entry) returns (best: Entry)
    requires s.Valid()
    ensures Best(Some(found), s.Around(found.item)) == Some(best)
  {
    hide Search.Similarity, Layout.Complete;
    best := found;
    var low, high := Max(found.item - REFINEMENT, -s.layout.radius), Min(found.item + REFINEMENT, s.layout.radius);
    var lag := low;
    while lag <= high
      invariant Best(Some(best), s.Trail(lag, high)) == Best(Some(found), s.Trail(low, high))
      decreases high + 1 - lag
    {
      var candidate := EvaluateAt(s, lag);
      ghost var before := best;
      if candidate.Some? && candidate.value.score > best.score {
        best := candidate.value;
      }
      if candidate.Some? {
        assert s.Trail(lag, high) == [candidate.value] + s.Trail(lag + 1, high);
        assert s.Trail(lag, high)[1..] == s.Trail(lag + 1, high);
        assert Better(Some(before), candidate.value) == Some(best);
      } else {
        assert s.Trail(lag, high) == s.Trail(lag + 1, high);
      }
      lag := lag + 1;
    }
  }

  lemma {:induction false} TrailHas(s: Search, low: int, high: int)
    requires s.layout.starts != []
    ensures forall lag :: low <= lag <= high && s.layout.Complete(lag) ==>
              Scored(lag, s.Similarity(lag)) in s.Trail(low, high)
    ensures forall x :: x in s.Trail(low, high) ==> low <= x.item <= high && s.Evaluate(x.item) == Some(x)
    decreases high - low + 1
  {
    hide Search.Similarity, Layout.Complete;
    if low <= high {
      TrailHas(s, low + 1, high);
    }
  }

  /** What refining guarantees. */
  ghost predicate Refines(s: Search, centre: Entry, best: Entry)
    requires s.layout.starts != []
  {
    && s.Evaluate(best.item) == Some(best) && s.layout.InRadius(best.item)
    && -REFINEMENT <= best.item - centre.item <= REFINEMENT && centre.score <= best.score
    && forall lag :: (s.layout.InRadius(lag) && -REFINEMENT <= lag - centre.item <= REFINEMENT
       && s.layout.Complete(lag))
         ==> s.Similarity(lag) <= best.score
  }

  lemma RefineDominates(s: Search, found: Entry, best: Entry)
    requires s.layout.starts != [] && s.Evaluate(found.item) == Some(found) && s.layout.InRadius(found.item)
    requires Best(Some(found), s.Around(found.item)) == Some(best)
    ensures Refines(s, found, best)
  {
    hide Search.Similarity, Layout.Complete, Best;
    TrailHas(s, Max(found.item - REFINEMENT, -s.layout.radius), Min(found.item + REFINEMENT, s.layout.radius));
    BestDominates(Some(found), s.Around(found.item));
  }

  // ----- the whole search -----

  datatype Failure = NegativeRadius | InvalidFormat | NoFrames | CueTooShort | NoCompleteWindow

  datatype Outcome = Found(best: Entry) | Failed(failure: Failure)

  /** Where the search ends: the refinement of the last best of the shortlist. */
  function Ending(s: Search): Outcome
    requires s.layout.starts != []
  {
    match LastBest(s, s.Shortlist())
    case None => Failed(NoCompleteWindow)
    case Some(found) =>
      match Best(Some(found), s.Around(found.item))
      case Some(best) => Found(best)
      case None => Failed(NoCompleteWindow)
  }

  function SearchOf(reference: Signal, recording: Recording, expectedStart: int, radius: nat, root: Root): (s: Search)
    requires |reference| >= MINIMUM_SAMPLES
    ensures s.Valid()
  {
    Search(LayoutOf(|reference|, |recording|, expectedStart, radius), reference, recording, root)
  }

  /** The outcome for interleaved PCM of any channel count and rate, and a recording at 16 kHz. */
  function CueOutcome(interleaved: seq<int16>, channels: nat, rate: nat, recording: Recording,
                      expectedStart: int, radius: int, root: Root): Outcome
  {
    if radius < 0 then Failed(NegativeRadius)
    else
      match RenderBridgeReferenceToLoopback(interleaved, channels, rate)
      case InvalidFormat => Failed(Failure.InvalidFormat)
      case NoFrames => Failed(Failure.NoFrames)
      case Waveform(reference) =>
        if |reference| < MINIMUM_SAMPLES then Failed(CueTooShort)
        else Ending(SearchOf(reference, recording, expectedStart, radius, root))
  }

  /**
   What a search ends with: it fails exactly when no lag of the shortlist is complete; otherwise
   the result was evaluated in full, stays in the radius and within two samples of the centre,
   and scores no less than every complete lag of the shortlist and every complete lag refined.
   */
  ghost predicate Settles(s: Search, r: Outcome, centre: Entry)
    requires s.layout.starts != []
  {
    && IsTop(s.Shortlist(), s.Scan(-s.layout.radius))
    && (r.Failed? ==> r == Failed(NoCompleteWindow) && forall x :: x in s.Shortlist() ==> !s.layout.Complete(x.item))
    && (r.Found? ==>
          && Refines(s, centre, r.best)
          && (exists k :: IsLastMaximum(s, s.Shortlist(), k) && s.Evaluate(s.Shortlist()[k].item) == Some(centre))
          && forall x :: x in s.Shortlist() && s.layout.Complete(x.item) ==> s.Similarity(x.item) <= r.best.score)
  }

  lemma EndingSettles(s: Search) returns (centre: Entry)
    requires s.Valid()
    ensures Settles(s, Ending(s), centre)
  {
    hide LastBest, Search.Shortlist, Search.Similarity, Layout.Complete, Best, IsTop, Search.Scan, Refines;
    ShortlistIsTop(s);
    var shortlist := s.Shortlist();
    var k := LastBestIsLastMaximum(s, shortlist);
    centre := Scored(0, 0.0);
    if LastBest(s, shortlist).Some? {
      centre := LastBest(s, shortlist).value;
      ShortlistInRadius(s);
      assert shortlist[k] in shortlist;
      BestDominates(Some(centre), s.Around(centre.item));
      RefineDominates(s, centre, Best(Some(centre), s.Around(centre.item)).value);
      forall x | x in shortlist && s.layout.Complete(x.item) ensures s.Similarity(x.item) <= Ending(s).best.score {
        var j :| 0 <= j < |shortlist| && shortlist[j] == x;
      }
    }
  }

  method FindCue(interleaved: seq<int16>, channels: nat, rate: nat, recording: Recording,
                 expectedStart: int, radius: int, root: Root) returns (r: Outcome, ghost centre: Entry)
    ensures r == CueOutcome(interleaved, channels, rate, recording, expectedStart, radius, root)
    ensures radius < 0 <==> r == Failed(NegativeRadius)
    ensures var rendered := RenderBridgeReferenceToLoopback(interleaved, channels, rate);
            && (radius >= 0 && rendered.Waveform? && |rendered.samples| < MINIMUM_SAMPLES ==> r == Failed(CueTooShort))
            && (radius >= 0 && rendered.Waveform? && |rendered.samples| >= MINIMUM_SAMPLES ==>
                  Settles(SearchOf(rendered.samples, recording, expectedStart, radius, root), r, centre))
  {
    hide LastBest, Search.Shortlist, Best, RenderBridgeReferenceToLoopback, Settles;
    centre := Scored(0, 0.0);
    if radius < 0 {
      r := Failed(NegativeRadius);
      return;
    }
    var rendered := RenderBridgeReferenceToLoopback(interleaved, channels, rate);
    match rendered {
      case InvalidFormat => r := Failed(Failure.InvalidFormat);
      case NoFrames => r := Failed(Failure.NoFrames);
      case Waveform(reference) =>
        if |reference| < MINIMUM_SAMPLES {
          r := Failed(CueTooShort);
          return;
        }
        var s := SearchOf(reference, recording, expectedStart, radius, root);
        centre := EndingSettles(s);
        var shortlist := Prefilter(s);
        var found := LastBest(s, shortlist);
        if found.None? {
          r := Failed(NoCompleteWindow);
          return;
        }
        var best := Refine(s, found.value);
        r := Found(best);
    }
  }

  lemma ShortlistIsTop(s: Search)
    requires s.layout.starts != []
    ensures IsTop(s.Shortlist(), s.Scan(-s.layout.radius))
  {
    KeptIsTop(s.Scan(-s.layout.radius));
  }

  /** What is scanned: every lag of the radius that passes the prefilter, with its score. */
  lemma {:induction false} ScanIs(s: Search, low: int)
    requires s.layout.starts != []
    ensures forall lag :: low <= lag <= s.layout.radius && s.layout.Prefiltered(lag) ==>
              Scored(lag, s.PrefilterScore(lag)) in s.Scan(low)
    ensures forall x :: x in s.Scan(low) ==>
              low <= x.item <= s.layout.radius && s.layout.Prefiltered(x.item) && x.score == s.PrefilterScore(x.item)
    decreases s.layout.radius - low + 1
  {
    hide Search.PrefilterScore, Layout.Prefiltered;
    if low <= s.layout.radius {
      ScanIs(s, low + 1);
    }
  }

  lemma ShortlistInRadius(s: Search)
    requires s.layout.starts != []
    ensures forall x :: x in s.Shortlist() ==> s.layout.InRadius(x.item) && x in s.Scan(-s.layout.radius)
  {
    hide Search.PrefilterScore, Layout.Prefiltered, Search.Shortlist, Search.Scan;
    ScanIs(s, -s.layout.radius);
    ShortlistIsTop(s);
    forall x | x in s.Shortlist() ensures x in s.Scan(-s.layout.radius) {
      assert x in multiset(s.Shortlist());
    }
  }
}
