/**
 Whole runs of the pacer: every pushed frame has exactly one fate, frames leave in push
 order, and the release clock never drifts from its anchor.
 */
module FramePacingRuns {
  import opened Prelude
  import opened FramePacing
  import opened Arithmetic

  datatype Event<T> = Push(frame: T, now: nat) | Poll(now: nat) | Clear

  datatype Fate = Released | Dropped | Cleared

  datatype Release<T> = Release(frame: T, at: nat)

  /**
   A pacer with its past: what was pushed, what became of the frames no longer queued (oldest
   first), the releases, and the anchor with the number of releases made before it. The anchor is
   kept from the events, not from the pacer's clock: it is the time of the first push after the
   start, after the last clear or after the last underrun, and `idle` says that there has been no
   push since. `cleared` is how many had been pushed at the last clear.
   */
  datatype History<T> = History(
    pacer: Pacer<T>, pushed: seq<T>, gone: seq<Fate>, releases: seq<Release<T>>, idle: bool, anchor: nat, before: nat,
    cleared: nat)

  function Start<T>(capacity: nat, interval: nat): History<T> {
    History(Pacer(Queue([], capacity, 0, 0), interval, None), [], [], [], true, 0, 0, 0)
  }

  function Step<T>(h: History<T>, event: Event<T>): History<T> {
    match event
    case Push(frame, now) =>
      var pacer := h.pacer.Push(frame, now);
      var lost := if pacer.queue.dropped > h.pacer.queue.dropped then [Dropped] else [];
      var pushed := h.(pacer := pacer, pushed := h.pushed + [frame], gone := h.gone + lost);
      if h.idle then pushed.(idle := false, anchor := now, before := |h.releases|) else pushed
    case Poll(now) =>
      var (pacer, frame) := h.pacer.Poll(now);
      if frame.None? then h.(pacer := pacer, idle := h.idle || pacer.queue.underruns > h.pacer.queue.underruns)
      else h.(pacer := pacer, gone := h.gone + [Released], releases := h.releases + [Release(frame.value, now)])
    case Clear =>
      h.(pacer := h.pacer.Clear(), gone := h.gone + seq(|h.pacer.queue.frames|, _ => Cleared),
         idle := true, cleared := |h.pushed|)
  }

  function Replay<T>(capacity: nat, interval: nat, events: seq<Event<T>>): History<T> {
    if events == [] then Start(capacity, interval)
    else Step(Replay(capacity, interval, events[..|events| - 1]), events[|events| - 1])
  }

  function Count(gone: seq<Fate>, fate: Fate): nat {
    if gone == [] then 0
    else Count(gone[..|gone| - 1], fate) + if gone[|gone| - 1] == fate then 1 else 0
  }

  /** The frames among `pushed` whose fate was to be released, in push order. */
  function ReleasedOf<T>(pushed: seq<T>, gone: seq<Fate>): seq<T>
    requires |gone| <= |pushed|
  {
    if gone == [] then []
    else
      var rest := ReleasedOf(pushed, gone[..|gone| - 1]);
      if gone[|gone| - 1] == Released then rest + [pushed[|gone| - 1]] else rest
  }

  function FramesOf<T>(releases: seq<Release<T>>): seq<T> {
    if releases == [] then []
    else FramesOf(releases[..|releases| - 1]) + [releases[|releases| - 1].frame]
  }

  lemma CountSnoc(gone: seq<Fate>, last: Fate, fate: Fate)
    ensures Count(gone + [last], fate) == Count(gone, fate) + if last == fate then 1 else 0
  {
    assert (gone + [last])[..|gone|] == gone;
  }

  lemma {:induction false} CountCleared(gone: seq<Fate>, n: nat, fate: Fate)
    ensures Count(gone + seq(n, _ => Cleared), fate) == Count(gone, fate) + if fate == Cleared then n else 0
  {
    if n == 0 {
      assert gone + seq(0, _ => Cleared) == gone;
    } else {
      CountCleared(gone, n - 1, fate);
      CountSnoc(gone + seq(n - 1, _ => Cleared), Cleared, fate);
      assert gone + seq(n, _ => Cleared) == (gone + seq(n - 1, _ => Cleared)) + [Cleared];
    }
  }

  lemma {:induction false} CountTotal(gone: seq<Fate>)
    ensures Count(gone, Released) + Count(gone, Dropped) + Count(gone, Cleared) == |gone|
  {
    if gone != [] {
      CountTotal(gone[..|gone| - 1]);
    }
  }

  lemma {:induction false} ReleasedOfMore<T>(pushed: seq<T>, gone: seq<Fate>, frame: T)
    requires |gone| <= |pushed|
    ensures ReleasedOf(pushed + [frame], gone) == ReleasedOf(pushed, gone)
  {
    if gone != [] {
      ReleasedOfMore(pushed, gone[..|gone| - 1], frame);
    }
  }

  lemma ReleasedOfSnoc<T>(pushed: seq<T>, gone: seq<Fate>, fate: Fate)
    requires |gone| < |pushed|
    ensures ReleasedOf(pushed, gone + [fate])
            == ReleasedOf(pushed, gone) + if fate == Released then [pushed[|gone|]] else []
  {
    assert (gone + [fate])[..|gone|] == gone;
  }

  lemma {:induction false} ReleasedOfCleared<T>(pushed: seq<T>, gone: seq<Fate>, n: nat)
    requires |gone| + n <= |pushed|
    ensures ReleasedOf(pushed, gone + seq(n, _ => Cleared)) == ReleasedOf(pushed, gone)
  {
    if n == 0 {
      assert gone + seq(0, _ => Cleared) == gone;
    } else {
      ReleasedOfCleared(pushed, gone, n - 1);
      ReleasedOfSnoc(pushed, gone + seq(n - 1, _ => Cleared), Cleared);
      assert gone + seq(n, _ => Cleared) == (gone + seq(n - 1, _ => Cleared)) + [Cleared];
    }
  }

  // ----- conservation -----

  ghost predicate Conserved<T>(h: History<T>) {
    var queue := h.pacer.queue;
    && |queue.frames| <= queue.capacity
    && h.cleared <= |h.gone| <= |h.pushed| && h.pushed[|h.gone|..] == queue.frames
    && Count(h.gone, Dropped) == queue.dropped
    && Count(h.gone, Released) == |h.releases|
    && ReleasedOf(h.pushed, h.gone) == FramesOf(h.releases)
  }

  lemma ConservedPush<T>(h: History<T>, frame: T, now: nat)
    requires Conserved(h)
    ensures Conserved(Step(h, Push(frame, now)))
  {
    hide Count, ReleasedOf, FramesOf;
    ReleasedOfMore(h.pushed, h.gone, frame);
    ReleasedOfSnoc(h.pushed + [frame], h.gone, Dropped);
    CountSnoc(h.gone, Dropped, Dropped);
    CountSnoc(h.gone, Dropped, Released);
    assert h.gone + [] == h.gone;
  }

  lemma ConservedPoll<T>(h: History<T>, now: nat)
    requires Conserved(h)
    ensures Conserved(Step(h, Poll(now)))
  {
    hide Count, ReleasedOf;
    var (pacer, frame) := h.pacer.Poll(now);
    if frame.Some? {
      ReleasedOfSnoc(h.pushed, h.gone, Released);
      CountSnoc(h.gone, Released, Released);
      CountSnoc(h.gone, Released, Dropped);
      assert (h.releases + [Release(frame.value, now)])[..|h.releases|] == h.releases;
    }
  }

  lemma ConservedClear<T>(h: History<T>)
    requires Conserved(h)
    ensures Conserved(Step(h, Clear))
  {
    var n := |h.pacer.queue.frames|;
    ReleasedOfCleared(h.pushed, h.gone, n);
    CountCleared(h.gone, n, Released);
    CountCleared(h.gone, n, Dropped);
  }

  /**
   After any events, pushes = released + dropped + queued + cleared; the queue is the newest
   frames pushed since the last clear; and the released frames are exactly those with that fate, in push order.
   */
  lemma {:induction false} FramesAreConserved<T>(capacity: nat, interval: nat, events: seq<Event<T>>)
    ensures var h := Replay(capacity, interval, events);
            && Conserved(h)
            && |h.pushed| == |h.releases| + h.pacer.queue.dropped + |h.pacer.queue.frames| + Count(h.gone, Cleared)
            && h.cleared <= |h.pushed| && IsSuffix(h.pacer.queue.frames, h.pushed[h.cleared..])
  {
    hide Conserved, Step, Count, ReleasedOf, FramesOf;
    if events == [] {
      NothingConserved<T>(capacity, interval);
    } else {
      FramesAreConserved(capacity, interval, events[..|events| - 1]);
      ConservedStep(Replay(capacity, interval, events[..|events| - 1]), events[|events| - 1]);
    }
    ConservedMeans(Replay(capacity, interval, events));
  }

  lemma NothingConserved<T>(capacity: nat, interval: nat)
    ensures Conserved(Start<T>(capacity, interval))
  {
  }

  lemma ConservedStep<T>(h: History<T>, event: Event<T>)
    requires Conserved(h)
    ensures Conserved(Step(h, event))
  {
    hide Conserved, Step;
    match event
    case Push(frame, now) => ConservedPush(h, frame, now);
    case Poll(now) => ConservedPoll(h, now);
    case Clear => ConservedClear(h);
  }

  lemma ConservedMeans<T>(h: History<T>)
    requires Conserved(h)
    ensures |h.pushed| == |h.releases| + h.pacer.queue.dropped + |h.pacer.queue.frames| + Count(h.gone, Cleared)
    ensures h.cleared <= |h.pushed| && IsSuffix(h.pacer.queue.frames, h.pushed[h.cleared..])
  {
    hide ReleasedOf, FramesOf, Count;
    CountTotal(h.gone);
    assert h.pushed[h.cleared..][|h.gone| - h.cleared..] == h.pushed[|h.gone|..];
  }

  // ----- the clock -----

  ghost predicate OnClock<T>(h: History<T>) {
    && h.before <= |h.releases|
    && (h.pacer.deadline.None? <==> h.idle)
    && (h.pacer.deadline.Some? ==>
          h.pacer.deadline.value == h.anchor + (|h.releases| - h.before) * h.pacer.interval)
    && (forall k :: h.before <= k < |h.releases| ==>
          h.releases[k].at >= h.anchor + (k - h.before) * h.pacer.interval)
    && (h.pacer.queue.frames != [] ==> h.pacer.deadline.Some?)
    && h.pacer.queue.underruns + (if h.pacer.deadline.Some? then 1 else 0) <= |h.pushed|
  }

  lemma OnClockPoll<T>(h: History<T>, now: nat)
    requires OnClock(h)
    ensures OnClock(Step(h, Poll(now)))
  {
    var (pacer, frame) := h.pacer.Poll(now);
    if frame.Some? {
      var next, j := Step(h, Poll(now)), |h.releases| - h.before;
      assert (j + 1) * h.pacer.interval == j * h.pacer.interval + h.pacer.interval;
      forall k | next.before <= k < |next.releases|
        ensures next.releases[k].at >= next.anchor + (k - next.before) * next.pacer.interval
      {
        if k < |h.releases| { assert next.releases[k] == h.releases[k]; }
      }
    }
  }

  lemma OnClockStep<T>(h: History<T>, event: Event<T>)
    requires OnClock(h)
    ensures OnClock(Step(h, event))
  {
    match event
    case Push(_, _) =>
    case Poll(now) => OnClockPoll(h, now);
    case Clear =>
  }

  /**
   After any events at any times: there is a deadline exactly if something was pushed since the
   start, the last clear and the last underrun; with A the time of the first such push and j releases
   since, the deadline is A + j * interval, and the j-th of them left no earlier than its own slot.
   A non-empty queue always has a deadline; underruns never exceed pushes.
   */
  lemma {:induction false} ClockNeverDrifts<T>(capacity: nat, interval: nat, events: seq<Event<T>>)
    ensures OnClock(Replay(capacity, interval, events))
    ensures Replay(capacity, interval, events).pacer.interval == interval
  {
    if events != [] {
      ClockNeverDrifts(capacity, interval, events[..|events| - 1]);
      OnClockStep(Replay(capacity, interval, events[..|events| - 1]), events[|events| - 1]);
    }
  }

  /** How many of the releases from index `from` up to index `until` left by time t. */
  function LeftBy<T>(releases: seq<Release<T>>, from: nat, until: nat, t: nat): nat
    requires from <= until <= |releases|
    decreases until - from
  {
    if from == until then 0
    else LeftBy(releases, from, until - 1, t) + if releases[until - 1].at <= t then 1 else 0
  }

  lemma {:induction false} LeftByBound<T>(h: History<T>, until: nat, t: nat)
    requires OnClock(h) && h.pacer.interval > 0 && h.before <= until <= |h.releases| && t >= h.anchor
    ensures LeftBy(h.releases, h.before, until, t) <= until - h.before
    ensures LeftBy(h.releases, h.before, until, t) <= (t - h.anchor) / h.pacer.interval + 1
    decreases until
  {
    if until > h.before {
      LeftByBound(h, until - 1, t);
      if h.releases[until - 1].at <= t {
        DivAtLeast(t - h.anchor, h.pacer.interval, until - 1 - h.before);
      }
    }
  }

  /** At most (t - A) / interval + 1 frames leave between the anchor A and time t. */
  lemma RateIsBounded<T>(capacity: nat, interval: nat, events: seq<Event<T>>, t: nat)
    requires interval > 0
    ensures var h := Replay(capacity, interval, events);
            h.before <= |h.releases| &&
            (t >= h.anchor ==> LeftBy(h.releases, h.before, |h.releases|, t) <= (t - h.anchor) / interval + 1)
  {
    ClockNeverDrifts(capacity, interval, events);
    var h := Replay(capacity, interval, events);
    if t >= h.anchor {
      LeftByBound(h, |h.releases|, t);
    }
  }

  // ----- starting anew -----

  function ReplayFrom<T>(h: History<T>, events: seq<Event<T>>): History<T> {
    if events == [] then h
    else Step(ReplayFrom(h, events[..|events| - 1]), events[|events| - 1])
  }

  lemma {:induction false} ReplayInTwo<T>(capacity: nat, interval: nat, before: seq<Event<T>>, after: seq<Event<T>>)
    ensures Replay(capacity, interval, before + after) == ReplayFrom(Replay(capacity, interval, before), after)
  {
    hide Step;
    if after == [] {
      assert before + after == before;
    } else {
      var init := after[..|after| - 1];
      ReplayInTwo(capacity, interval, before, init);
      assert (before + after)[..|before + after| - 1] == before + init;
    }
  }

  /** The time of the first push. */
  function FirstPush<T>(events: seq<Event<T>>): Option<nat> {
    if events == [] then None
    else
      var earlier, last := FirstPush(events[..|events| - 1]), events[|events| - 1];
      if earlier.Some? then earlier else if last.Push? then Some(last.now) else None
  }

  /** No clears, and times that do not run backwards. */
  ghost predicate InOrder<T>(events: seq<Event<T>>) {
    && (forall i :: 0 <= i < |events| ==> !events[i].Clear?)
    && (forall i, j :: 0 <= i <= j < |events| ==> TimeOf(events[i]) <= TimeOf(events[j]))
  }

  function TimeOf<T>(event: Event<T>): nat {
    if event.Clear? then 0 else event.now
  }

  /**
   Since a moment without a clock, after which `events` came: before the first push nothing has
   left; since its time A the m-th frame left no earlier than A + m * interval, and neither will the
   next one, whatever underruns lay between.
   */
  ghost predicate Paced<T>(h: History<T>, now: History<T>, events: seq<Event<T>>) {
    var sent := |now.releases| - |h.releases|;
    && h.releases <= now.releases && now.pacer.interval == h.pacer.interval
    && (FirstPush(events).None? ==> sent == 0 && now.pacer.deadline.None?)
    && (FirstPush(events).Some? ==>
          var first := FirstPush(events).value;
          && (forall m :: 0 <= m < sent ==> now.releases[|h.releases| + m].at >= Slot(first, m, h.pacer.interval))
          && (now.pacer.deadline.Some? ==> now.pacer.deadline.value >= Slot(first, sent, h.pacer.interval))
          && (now.pacer.deadline.None? ==>
                events != [] && TimeOf(events[|events| - 1]) >= Slot(first, sent, h.pacer.interval)))
  }

  function Slot(first: nat, m: int, interval: nat): int {
    first + m * interval
  }

  lemma NextSlot(first: nat, m: int, interval: nat)
    ensures Slot(first, m + 1, interval) == Slot(first, m, interval) + interval && Slot(first, 0, interval) == first
  {
    assert (m + 1) * interval == m * interval + interval;
  }

  lemma PacedStep<T>(h: History<T>, now: History<T>, events: seq<Event<T>>, event: Event<T>)
    requires Paced(h, now, events) && InOrder(events + [event])
    ensures Paced(h, Step(now, event), events + [event])
  {
    hide Slot;
    var more := events + [event];
    assert more[..|more| - 1] == events && more[|events|] == event;
    assert events != [] ==> more[|events| - 1] == events[|events| - 1];
    NextSlot(if FirstPush(more).Some? then FirstPush(more).value else 0, |now.releases| - |h.releases|,
             h.pacer.interval);
  }

  lemma {:induction false} PacedAlways<T>(h: History<T>, events: seq<Event<T>>)
    requires h.pacer.deadline.None? && InOrder(events)
    ensures Paced(h, ReplayFrom(h, events), events)
  {
    hide Step;
    if events != [] {
      var init, last := events[..|events| - 1], events[|events| - 1];
      PacedAlways(h, init);
      assert init + [last] == events;
      PacedStep(h, ReplayFrom(h, init), init, last);
    }
  }

  lemma {:induction false} LeftSince<T>(h: History<T>, now: History<T>, events: seq<Event<T>>, until: nat, t: nat)
    requires Paced(h, now, events) && FirstPush(events).Some? && h.pacer.interval > 0
    requires |h.releases| <= until <= |now.releases|
    ensures var first := FirstPush(events).value;
            LeftBy(now.releases, |h.releases|, until, t)
            <= if t < first then 0 else Min(until - |h.releases|, (t - first) / h.pacer.interval + 1)
    decreases until
  {
    var first, interval := FirstPush(events).value, h.pacer.interval;
    if t >= first { DivAtLeast(t - first, interval, 0); }
    if until > |h.releases| {
      LeftSince(h, now, events, until - 1, t);
      var m := until - 1 - |h.releases|;
      assert now.releases[|h.releases| + m].at >= Slot(first, m, interval);
      MulMonotone(0, m, interval);
      if now.releases[until - 1].at <= t {
        DivAtLeast(t - first, interval, m);
      }
    }
  }

  /** What is queued or has left since `h` was pushed since `h`. */
  ghost predicate OnlyNew<T>(h: History<T>, now: History<T>) {
    && h.pushed <= now.pushed && h.releases <= now.releases
    && (forall frame :: frame in now.pacer.queue.frames ==> frame in now.pushed[|h.pushed|..])
    && (forall m :: |h.releases| <= m < |now.releases| ==> now.releases[m].frame in now.pushed[|h.pushed|..])
  }

  lemma OnlyNewStep<T>(h: History<T>, now: History<T>, event: Event<T>)
    requires OnlyNew(h, now)
    ensures OnlyNew(h, Step(now, event))
  {
    if event.Push? {
      assert (now.pushed + [event.frame])[|h.pushed|..] == now.pushed[|h.pushed|..] + [event.frame];
    }
  }

  lemma {:induction false} OnlyNewAlways<T>(h: History<T>, events: seq<Event<T>>)
    requires h.pacer.queue.frames == []
    ensures OnlyNew(h, ReplayFrom(h, events))
  {
    hide Step, OnlyNew;
    if events == [] {
      NothingNew(h);
    } else {
      OnlyNewAlways(h, events[..|events| - 1]);
      OnlyNewStep(h, ReplayFrom(h, events[..|events| - 1]), events[|events| - 1]);
    }
  }

  lemma NothingNew<T>(h: History<T>)
    requires h.pacer.queue.frames == []
    ensures OnlyNew(h, h)
  {
  }

  /**
   After a clear nothing is queued and no clock runs. Of the frames pushed since, the first of them
   at time A, at most (t - A) / interval + 1 leave by time t, none of them before A, and no
   frame of before the clear leaves at all.
   */
  lemma ClearStartsAnew<T>(capacity: nat, interval: nat, before: seq<Event<T>>, after: seq<Event<T>>, t: nat)
    requires interval > 0 && InOrder(after)
    ensures var h, now := Replay(capacity, interval, before + [Clear]), Replay(capacity, interval,
                before + [Clear] + after);
            && h.pacer.deadline.None? && h.pacer.queue.frames == [] && OnlyNew(h, now)
            && (FirstPush(after).None? ==> now.releases == h.releases && now.pacer.deadline.None?)
            && (FirstPush(after).Some? ==>
                  var first := FirstPush(after).value;
                  LeftBy(now.releases, |h.releases|, |now.releases|, t)
                  <= if t < first then 0 else (t - first) / interval + 1)
  {
    hide Step, OnlyNew;
    var h := Replay(capacity, interval, before + [Clear]);
    AfterClear(capacity, interval, before);
    ReplayInTwo(capacity, interval, before + [Clear], after);
    ClockNeverDrifts(capacity, interval, before + [Clear]);
    PacedAlways(h, after);
    OnlyNewAlways(h, after);
    if FirstPush(after).Some? {
      var now := ReplayFrom(h, after);
      LeftSince(h, now, after, |now.releases|, t);
    }
  }

  lemma AfterClear<T>(capacity: nat, interval: nat, before: seq<Event<T>>)
    ensures var h := Replay(capacity, interval, before + [Clear]);
            h.pacer.deadline.None? && h.pacer.queue.frames == []
  {
    assert (before + [Clear])[..|before|] == before;
  }

  // ----- catching up -----

  /** The frames that polling again and again at time t releases, until a poll gives none. */
  function Drain<T>(p: Pacer<T>, t: nat): seq<T>
    decreases |p.queue.frames|
  {
    var (next, frame) := p.Poll(t);
    if frame.None? then [] else [frame.value] + Drain(next, t)
  }

  /** A late poller catches up by exactly the slots that have come due, and no more. */
  lemma {:induction false} DrainReleasesDueFrames<T>(p: Pacer<T>, t: nat)
    requires p.interval > 0 && p.deadline.Some? && t >= p.deadline.value
    ensures (t - p.deadline.value) / p.interval >= 0
    ensures Drain(p, t) == p.queue.frames[..Min(|p.queue.frames|, (t - p.deadline.value) / p.interval + 1)]
    decreases |p.queue.frames|
  {
    var elapsed, frames := t - p.deadline.value, p.queue.frames;
    var due := elapsed / p.interval;
    DivAtLeast(elapsed, p.interval, 0);
    if frames != [] {
      var next := p.Poll(t).0;
      assert next.queue.frames == frames[1..] && Drain(p, t) == [frames[0]] + Drain(next, t);
      if elapsed >= p.interval {
        DrainReleasesDueFrames(next, t);
        DivAddOne(elapsed, p.interval);
        assert frames[1..][..Min(|frames| - 1, due)] == frames[1..Min(|frames|, due + 1)];
      } else {
        DivBelow(elapsed, p.interval, 1);
        assert Drain(next, t) == [];
      }
    }
  }

  /** Before the deadline, or with no clock, polling releases nothing and changes nothing. */
  lemma EarlyPollIsNoOp<T>(p: Pacer<T>, t: nat)
    ensures p.deadline.None? || t < p.deadline.value <==> p.Poll(t) == (p, None)
  {
    if p.deadline.Some? && t >= p.deadline.value {
      var (next, frame) := p.Poll(t);
      assert frame.None? ==> next.deadline.None?;
    }
  }

  // ----- the object -----

  /** One event at the object, with what it releases. */
  method Perform<T>(pacer: AudioFramePacer<T>, event: Event<T>, ghost h: History<T>) returns (released: seq<Release<T>>)
    requires pacer.Valid() && pacer.State() == h.pacer
    modifies pacer, pacer.queue
    ensures pacer.Valid() && pacer.State() == Step(h, event).pacer
    ensures h.releases + released == Step(h, event).releases
  {
    released := [];
    match event {
      case Push(frame, now) => pacer.Push(frame, now);
      case Poll(now) =>
        var frame := pacer.Poll(now);
        if frame.Some? {
          released := [Release(frame.value, now)];
        }
      case Clear => pacer.Clear();
    }
  }

  /** A new pacer object, driven through any events, does what the replay predicts and releases what it releases. */
  method Drive<T>(capacity: nat, interval: nat, events: seq<Event<T>>) returns (pacer: AudioFramePacer<T>,
      released: seq<Release<T>>)
    ensures pacer.Valid() && pacer.State() == Replay(capacity, interval, events).pacer
    ensures released == Replay(capacity, interval, events).releases
  {
    hide Step;
    pacer := new AudioFramePacer<T>(capacity, interval);
    released := [];
    for k := 0 to |events|
      invariant pacer.Valid() && fresh(pacer) && fresh(pacer.queue)
      invariant pacer.State() == Replay(capacity, interval, events[..k]).pacer
      invariant released == Replay(capacity, interval, events[..k]).releases
    {
      assert events[..k + 1][..k] == events[..k];
      var more := Perform(pacer, events[k], Replay(capacity, interval, events[..k]));
      released := released + more;
    }
    assert events[..|events|] == events;
  }
}
