/**
 When the cue search reports that there is no complete window. The prefilter listens to a
 shorter window than the full evaluation needs, so its shortlist can fill up with lags that
 cannot be evaluated and crowd out one that can. For given lengths and places it cannot, for
 any PCM, exactly when fewer such lags exist than the shortlist holds.
 */
module LagSearchCoverage {
  import opened BestFirst
  import opened Correlation
  import opened CueBurst
  import opened CueCorrelation
  import opened LagSearch
  import opened PcmCodec
  import opened Prelude
  import opened Resampling
  import opened TopList

  // ----- which lags fit -----

  function FirstLag(l: Layout): int
    requires l.starts != []
  {
    Max(-l.radius, -l.expectedStart - l.starts[0])
  }

  function LastComplete(l: Layout): int
    requires l.starts != []
  {
    Min(l.radius, l.recordingLength - l.expectedStart - l.starts[|l.starts| - 1] - l.length)
  }

  function LastPrefiltered(l: Layout): int
    requires l.starts != []
  {
    Min(l.radius, l.recordingLength - l.expectedStart - l.starts[0] - PREFILTER_SAMPLES)
  }

  /** Complete lags come first, then those that only the prefilter can hear. */
  lemma LagsAre(l: Layout, lag: int)
    requires l.Valid() && l.InRadius(lag)
    ensures l.Complete(lag) <==> FirstLag(l) <= lag <= LastComplete(l)
    ensures l.Prefiltered(lag) <==> FirstLag(l) <= lag <= LastPrefiltered(l)
    ensures LastComplete(l) <= LastPrefiltered(l)
  {
    var last := |l.starts| - 1;
    if l.WindowFits(l.starts[0], lag, l.length) && l.WindowFits(l.starts[last], lag, l.length) {
      forall i | 0 <= i < |l.starts| ensures l.WindowFits(l.starts[i], lag, l.length) {
        assert l.starts[0] <= l.starts[i] <= l.starts[last];
      }
    }
  }

  /** Some window can be evaluated in full. */
  predicate SomeComplete(l: Layout)
    requires l.starts != []
  {
    FirstLag(l) <= LastComplete(l)
  }

  /** How many lags pass the prefilter without being complete. */
  function TrapCount(l: Layout): int
    requires l.starts != []
  {
    LastPrefiltered(l) - LastComplete(l)
  }

  /** The lags after `low`, up to `high`. */
  ghost function Between(low: int, high: int): (lags: set<int>)
    ensures forall lag :: lag in lags <==> low < lag <= high
    ensures low <= high ==> |lags| == high - low
    decreases high - low
  {
    if low >= high then {} else Between(low, high - 1) + {high}
  }

  // ----- counting lags -----

  ghost predicate HasComplete(s: Search, kept: seq<Entry>) {
    exists x :: x in kept && s.layout.Complete(x.item)
  }

  ghost function Lags(list: seq<Entry>): set<int> {
    set x | x in list :: x.item
  }

  /** No lag occurs twice. */
  ghost predicate DistinctLags(list: seq<Entry>) {
    forall i, j :: 0 <= i < j < |list| ==> list[i].item != list[j].item
  }

  lemma {:induction false} CountLags(list: seq<Entry>)
    requires DistinctLags(list)
    ensures |Lags(list)| == |list|
  {
    if list != [] {
      var front, last := list[..|list| - 1], list[|list| - 1];
      CountLags(front);
      assert Lags(list) == Lags(front) + {last.item} by {
        assert forall x :: x in list <==> x in front || x == last;
        assert last in list;
      }
      assert last.item !in Lags(front);
    }
  }

  lemma {:induction false} ScanIsDistinct(s: Search, low: int)
    requires s.layout.starts != []
    ensures DistinctLags(s.Scan(low))
    decreases s.layout.radius - low + 1
  {
    hide Search.PrefilterScore, Layout.Prefiltered;
    if low <= s.layout.radius {
      ScanIsDistinct(s, low + 1);
      ScanIs(s, low + 1);
    }
  }

  lemma {:induction false} DistinctIsOnce(list: seq<Entry>, x: Entry)
    requires DistinctLags(list)
    ensures multiset(list)[x] <= 1
  {
    if list != [] {
      var front, last := list[..|list| - 1], list[|list| - 1];
      DistinctIsOnce(front, x);
      assert list == front + [last];
      assert forall i :: 0 <= i < |front| ==> front[i] == list[i];
    }
  }

  lemma OccursTwice(list: seq<Entry>, i: nat, j: nat)
    requires i < j < |list| && list[i] == list[j]
    ensures multiset(list)[list[i]] >= 2
  {
    assert list == list[..j] + list[j..];
    assert list[i] in list[..j] && list[j] in list[j..];
  }

  lemma ShortlistIsDistinct(s: Search)
    requires s.layout.starts != []
    ensures DistinctLags(s.Shortlist()) && |s.Shortlist()| <= CAPACITY && |Lags(s.Shortlist())| == |s.Shortlist()|
  {
    hide Search.PrefilterScore, Layout.Prefiltered, Search.Shortlist, Search.Scan;
    var kept, scanned := s.Shortlist(), s.Scan(-s.layout.radius);
    ShortlistIsTop(s);
    ShortlistInRadius(s);
    ScanIsDistinct(s, -s.layout.radius);
    ScanIs(s, -s.layout.radius);
    forall i, j | 0 <= i < j < |kept| ensures kept[i].item != kept[j].item {
      if kept[i].item == kept[j].item {
        assert kept[i] in kept && kept[j] in kept;
        OccursTwice(kept, i, j);
        DistinctIsOnce(scanned, kept[i]);
      }
    }
    CountLags(kept);
  }

  lemma SubsetIsNoLarger(a: set<int>, b: set<int>)
    requires a <= b
    ensures |a| <= |b|
  {
    assert b == a + (b - a);
  }

  lemma LargerHasMore(a: set<int>, b: set<int>) returns (y: int)
    requires |a| > |b|
    ensures y in a && y !in b
  {
    if forall x :: x in a ==> x in b {
      SubsetIsNoLarger(a, b);
      assert false;
    }
    y :| y in a && y !in b;
  }

  /** A shortlist is full, or holds everything scanned. */
  lemma FullOrEverything(kept: seq<Entry>, scanned: seq<Entry>)
    requires IsTop(kept, scanned)
    ensures |kept| == CAPACITY || forall x :: x in scanned ==> x in kept
  {
    if |kept| == |scanned| {
      SameSize(multiset(kept), multiset(scanned));
      forall x | x in scanned ensures x in kept {
        assert x in multiset(scanned);
      }
    }
  }

  lemma LeftOutScoresNoMore(kept: seq<Entry>, scanned: seq<Entry>, y: Entry, k: Entry)
    requires IsTop(kept, scanned) && y in scanned && y !in kept && k in kept
    ensures y.score <= k.score
  {
    assert y in multiset(scanned) - multiset(kept) && k in multiset(kept);
  }

  // ----- few traps -----

  /** With fewer traps than the shortlist has places, a complete lag is never missed. */
  lemma CompleteWindowIsFound(s: Search)
    requires s.Valid() && SomeComplete(s.layout) && TrapCount(s.layout) < CAPACITY
    ensures HasComplete(s, s.Shortlist())
  {
    hide IsTop, Layout.Complete, Layout.Prefiltered, DistinctLags, Search.PrefilterScore, Search.Scan, Search.Shortlist;
    var l, kept, lag := s.layout, s.Shortlist(), FirstLag(s.layout);
    ShortlistIsTop(s);
    ShortlistInRadius(s);
    ShortlistIsDistinct(s);
    ScanIs(s, -l.radius);
    LagsAre(l, lag);
    FullOrEverything(kept, s.Scan(-l.radius));
    if |kept| == CAPACITY {
      var traps := Between(LastComplete(l), LastPrefiltered(l));
      var found := LargerHasMore(Lags(kept), traps);
      var x :| x in kept && x.item == found;
      LagsAre(l, found);
      assert l.Complete(x.item);
    } else {
      var x := Scored(lag, s.PrefilterScore(lag));
      assert x in kept && l.Complete(x.item);
    }
  }

  // ----- many traps -----

  /** With twelve lags that score higher shortlisted or left out, a lag that is none of them is left out. */
  lemma LowerIsLeftOut(s: Search, k: Entry, higher: set<int>)
    requires s.layout.starts != [] && |higher| >= CAPACITY && k.item !in higher
    requires forall lag :: lag in higher ==>
               s.layout.InRadius(lag) && s.layout.Prefiltered(lag) && s.PrefilterScore(lag) > k.score
    ensures k !in s.Shortlist()
  {
    hide IsTop, Layout.Prefiltered, DistinctLags, Search.PrefilterScore, Search.Scan, Search.Shortlist;
    var kept := s.Shortlist();
    if k in kept {
      ShortlistIsTop(s);
      ShortlistIsDistinct(s);
      ScanIs(s, -s.layout.radius);
      var others := Lags(kept) - {k.item};
      assert k.item in Lags(kept);
      var lag := LargerHasMore(higher, others);
      var y := Scored(lag, s.PrefilterScore(lag));
      LeftOutScoresNoMore(kept, s.Scan(-s.layout.radius), y, k);
      assert false;
    }
  }

  /** The end of the stretch that the last complete lag makes the prefilter visit. */
  function LastHeard(l: Layout): int
    requires l.starts != []
  {
    l.expectedStart + l.starts[0] + LastComplete(l) + LAST_VISITED
  }

  /** A click where the prefilter looks last, and a burst just after what complete lags can hear. */
  ghost predicate ClicksAndBursts(s: Search) {
    && s.Valid() && SomeComplete(s.layout) && TrapCount(s.layout) >= CAPACITY
    && s.layout.starts[0] + s.layout.length <= |s.reference|
    && (forall i :: 0 <= i < |s.reference| ==>
          s.reference[i] == if i == s.layout.starts[0] + LAST_VISITED then LEVEL else 0.0)
    && s.recording == Burst(s.layout.recordingLength, LastHeard(s.layout))
  }

  lemma CompleteScoresNothing(s: Search, lag: int)
    requires ClicksAndBursts(s) && s.layout.InRadius(lag) && s.layout.Complete(lag) && IsRoot(s.root)
    ensures s.layout.Prefiltered(lag) && s.PrefilterScore(lag) == 0.0
  {
    hide Stretch.Correlated;
    LagsAre(s.layout, lag);
    var w := s.Window(s.layout.starts[0], lag, PREFILTER_SAMPLES);
    assert SilentWindow(w);
    SilenceScoresNothing(w, false, s.root);
    SilenceScoresNothing(w, true, s.root);
  }

  lemma TrapScoresSomething(s: Search, lag: int)
    requires ClicksAndBursts(s) && LastComplete(s.layout) < lag <= LastComplete(s.layout) + CAPACITY && IsRoot(s.root)
    ensures s.layout.InRadius(lag) && s.layout.Prefiltered(lag) && !s.layout.Complete(lag)
            && s.PrefilterScore(lag) > 0.0
  {
    hide Stretch.Correlated;
    LagsAre(s.layout, lag);
    var w := s.Window(s.layout.starts[0], lag, PREFILTER_SAMPLES);
    var reach := lag - LastComplete(s.layout);
    assert BurstWindow(w, reach);
    BurstScoresSomething(w, reach, s.root);
  }

  /** The twelve lags after the last complete one fill the shortlist. */
  lemma CompleteWindowIsMissed(s: Search)
    requires s.Valid() && ClicksAndBursts(s) && IsRoot(s.root)
    ensures !HasComplete(s, s.Shortlist())
  {
    hide Search.PrefilterScore, Search.Shortlist, Search.Scan, Layout.Complete, Layout.Prefiltered, ClicksAndBursts;
    var last := LastComplete(s.layout);
    var traps := Between(last, last + CAPACITY);
    ShortlistInRadius(s);
    ScanIs(s, -s.layout.radius);
    forall lag | lag in traps
      ensures s.layout.InRadius(lag) && s.layout.Prefiltered(lag) && !s.layout.Complete(lag)
              && s.PrefilterScore(lag) > 0.0
    {
      TrapScoresSomething(s, lag);
    }
    forall k | k in s.Shortlist() ensures !s.layout.Complete(k.item) {
      if s.layout.Complete(k.item) {
        CompleteScoresNothing(s, k.item);
        LowerIsLeftOut(s, k, traps);
        assert false;
      }
    }
  }

  // ----- over all PCM -----

  /** PCM of any channel count and rate that renders to this length, and a recording of that one. */
  ghost predicate OfLengths(interleaved: seq<int16>, channels: nat, rate: nat, recording: Recording,
                            referenceLength: nat, recordingLength: nat)
  {
    var rendered := RenderBridgeReferenceToLoopback(interleaved, channels, rate);
    rendered.Waveform? && |rendered.samples| == referenceLength && |recording| == recordingLength
  }

  /** Whatever is played and recorded, the search finds something. */
  ghost predicate AlwaysFinds(referenceLength: nat, recordingLength: nat, expectedStart: int, radius: nat, root: Root) {
    forall interleaved, channels, rate, recording ::
      OfLengths(interleaved, channels, rate, recording, referenceLength, recordingLength)
      ==> CueOutcome(interleaved, channels, rate, recording, expectedStart, radius, root).Found?
  }

  /** The search fails exactly when its shortlist holds no complete lag. */
  lemma FailsWithoutComplete(s: Search)
    requires s.Valid()
    ensures Ending(s) == Failed(NoCompleteWindow) <==> !HasComplete(s, s.Shortlist())
    ensures Ending(s).Found? <==> HasComplete(s, s.Shortlist())
  {
    hide IsTop, Search.Shortlist, Search.Similarity, Layout.Complete, Search.Scan, Refines, Ending;
    var centre := EndingSettles(s);
  }

  lemma FewTrapsFind(interleaved: seq<int16>, channels: nat, rate: nat, recording: Recording,
                     referenceLength: nat, recordingLength: nat, expectedStart: int, radius: nat, root: Root)
    requires referenceLength >= MINIMUM_SAMPLES
    requires OfLengths(interleaved, channels, rate, recording, referenceLength, recordingLength)
    requires var l := LayoutOf(referenceLength, recordingLength, expectedStart, radius);
             SomeComplete(l) && TrapCount(l) < CAPACITY
    ensures CueOutcome(interleaved, channels, rate, recording, expectedStart, radius, root).Found?
  {
    hide RenderBridgeReferenceToLoopback, Ending, LayoutOf, SomeComplete, TrapCount, HasComplete;
    var reference := RenderBridgeReferenceToLoopback(interleaved, channels, rate).samples;
    var s := SearchOf(reference, recording, expectedStart, radius, root);
    CompleteWindowIsFound(s);
    FailsWithoutComplete(s);
  }

  /** The PCM that makes the search miss: a click, and a burst after what complete lags hear. */
  function MissedTrack(referenceLength: nat, l: Layout): seq<int16>
    requires l.starts != []
  {
    Click(referenceLength, l.starts[0] + LAST_VISITED)
  }

  lemma ManyTrapsMiss(referenceLength: nat, recordingLength: nat, expectedStart: int, radius: nat, root: Root)
    requires referenceLength >= MINIMUM_SAMPLES && IsRoot(root)
    requires var l := LayoutOf(referenceLength, recordingLength, expectedStart, radius);
             SomeComplete(l) && TrapCount(l) >= CAPACITY
    ensures var l := LayoutOf(referenceLength, recordingLength, expectedStart, radius);
            var track, recording := MissedTrack(referenceLength, l), Burst(recordingLength, LastHeard(l));
            && OfLengths(track, 1, LOOPBACK_RATE, recording, referenceLength, recordingLength)
            && CueOutcome(track, 1, LOOPBACK_RATE, recording, expectedStart, radius, root) == Failed(NoCompleteWindow)
  {
    hide RenderBridgeReferenceToLoopback, Ending, SomeComplete, TrapCount, HasComplete, LastHeard, Burst;
    var l := LayoutOf(referenceLength, recordingLength, expectedStart, radius);
    var track, recording := MissedTrack(referenceLength, l), Burst(recordingLength, LastHeard(l));
    RenderedAsIs(track);
    var reference := RenderBridgeReferenceToLoopback(track, 1, LOOPBACK_RATE).samples;
    var s := SearchOf(reference, recording, expectedStart, radius, root);
    assert ClicksAndBursts(s);
    CompleteWindowIsMissed(s);
    FailsWithoutComplete(s);
  }

  /** With no complete lag in the radius there is nothing to find. */
  lemma NothingCompleteFails(s: Search)
    requires s.Valid() && !SomeComplete(s.layout)
    ensures Ending(s) == Failed(NoCompleteWindow)
  {
    hide Search.Shortlist, Ending, Layout.Complete, Layout.Prefiltered;
    ShortlistInRadius(s);
    forall k | k in s.Shortlist() ensures !s.layout.Complete(k.item) {
      LagsAre(s.layout, k.item);
    }
    FailsWithoutComplete(s);
  }

  lemma NothingCompleteMisses(referenceLength: nat, recordingLength: nat, expectedStart: int, radius: nat, root: Root)
    requires referenceLength >= MINIMUM_SAMPLES
    requires !SomeComplete(LayoutOf(referenceLength, recordingLength, expectedStart, radius))
    ensures var l := LayoutOf(referenceLength, recordingLength, expectedStart, radius);
            var track, recording := MissedTrack(referenceLength, l), Burst(recordingLength, LastHeard(l));
            && OfLengths(track, 1, LOOPBACK_RATE, recording, referenceLength, recordingLength)
            && CueOutcome(track, 1, LOOPBACK_RATE, recording, expectedStart, radius, root) == Failed(NoCompleteWindow)
  {
    hide RenderBridgeReferenceToLoopback, Ending, SomeComplete, LastHeard, Burst;
    var l := LayoutOf(referenceLength, recordingLength, expectedStart, radius);
    var track, recording := MissedTrack(referenceLength, l), Burst(recordingLength, LastHeard(l));
    RenderedAsIs(track);
    var reference := RenderBridgeReferenceToLoopback(track, 1, LOOPBACK_RATE).samples;
    NothingCompleteFails(SearchOf(reference, recording, expectedStart, radius, root));
  }

  /**
   For a reference and a recording of given lengths, an expected start and a radius: the search
   finds something whatever the PCM if and only if some lag is complete and fewer than twelve
   lags of the radius pass the prefilter without being complete.
   */
  lemma AlwaysFindsExactlyWhen(referenceLength: nat, recordingLength: nat, expectedStart: int, radius: nat, root: Root)
    requires referenceLength >= MINIMUM_SAMPLES && IsRoot(root)
    ensures var l := LayoutOf(referenceLength, recordingLength, expectedStart, radius);
            AlwaysFinds(referenceLength, recordingLength, expectedStart, radius, root)
            <==> SomeComplete(l) && TrapCount(l) < CAPACITY
  {
    hide OfLengths, CueOutcome, SomeComplete, TrapCount, LayoutOf, LastHeard, Burst, MissedTrack;
    var l := LayoutOf(referenceLength, recordingLength, expectedStart, radius);
    if SomeComplete(l) && TrapCount(l) < CAPACITY {
      forall interleaved, channels, rate, recording
        | OfLengths(interleaved, channels, rate, recording, referenceLength, recordingLength)
        ensures CueOutcome(interleaved, channels, rate, recording, expectedStart, radius, root).Found?
      {
        FewTrapsFind(interleaved, channels, rate, recording, referenceLength, recordingLength, expectedStart, radius,
            root);
      }
    } else if SomeComplete(l) {
      ManyTrapsMiss(referenceLength, recordingLength, expectedStart, radius, root);
    } else {
      NothingCompleteMisses(referenceLength, recordingLength, expectedStart, radius, root);
    }
  }

  lemma ShortLayout()
    ensures LayoutOf(6400, 6400, 0, 12) == Layout(6400, 0, [0], 6400, 12)
  {
    assert Starts(0) == [0];
  }

  lemma ShortLags()
    ensures var l := Layout(6400, 0, [0], 6400, 12);
            l.Complete(0) && SomeComplete(l) && TrapCount(l) == CAPACITY && LastHeard(l) == 3192
  {
  }

  /**
   A case where it does miss: a cue of 400 ms, silent but for sample 3192, and a recording as
   long, silent but for samples 3193 to 3204, expected at its start and searched 12 samples
   around. Lag 0 is complete, yet the search reports that no window is.
   */
  lemma ShortRecordingIsMissed(root: Root)
    requires IsRoot(root)
    ensures LayoutOf(6400, 6400, 0, 12).Complete(0)
    ensures CueOutcome(Click(6400, 3192), 1, 16_000, Burst(6400, 3192), 0, 12, root) == Failed(NoCompleteWindow)
  {
    hide CueOutcome, Click, Burst, LayoutOf, OfLengths, SomeComplete, TrapCount, LastHeard, Layout.Complete;
    ShortLayout();
    ShortLags();
    ManyTrapsMiss(6400, 6400, 0, 12, root);
  }
}
