/**
 The bounded drop-oldest frame queue and the pacer that releases its frames on a media
 clock, as objects, with the value-level specification their methods are proved against.
 Times are natural numbers of one unit, as durations are.
 */
module FramePacing {
  import opened Prelude

  datatype Queue<T> = Queue(frames: seq<T>, capacity: nat, dropped: nat, underruns: nat) {
    function Push(frame: T): Queue<T> {
      if capacity == 0 then this.(dropped := dropped + 1)
      else if |frames| == capacity then this.(frames := frames[1..] + [frame], dropped := dropped + 1)
      else this.(frames := frames + [frame])
    }

    function Pop(): (Queue<T>, Option<T>) {
      if frames == [] then (this.(underruns := underruns + 1), None)
      else (this.(frames := frames[1..]), Some(frames[0]))
    }

    function Clear(): Queue<T> {
      this.(frames := [])
    }
  }

  datatype Pacer<T> = Pacer(queue: Queue<T>, interval: nat, deadline: Option<nat>) {
    function Push(frame: T, now: nat): Pacer<T> {
      this.(queue := queue.Push(frame), deadline := if deadline.None? then Some(now) else deadline)
    }

    function Poll(now: nat): (Pacer<T>, Option<T>) {
      if deadline.None? || now < deadline.value then (this, None)
      else
        var (rest, frame) := queue.Pop();
        (this.(queue := rest, deadline := if frame.Some? then Some(deadline.value + interval) else None), frame)
    }

    function Clear(): Pacer<T> {
      this.(queue := queue.Clear(), deadline := None)
    }
  }

  class AudioFrameQueue<T> {
    var frames: seq<T>
    const capacity: nat
    var droppedFrameCount: nat
    var underrunCount: nat

    ghost predicate Valid()
      reads this
    {
      |frames| <= capacity
    }

    ghost function State(): Queue<T>
      reads this
    {
      Queue(frames, capacity, droppedFrameCount, underrunCount)
    }

    constructor (capacity: nat)
      ensures Valid() && State() == Queue([], capacity, 0, 0)
    {
      this.capacity := capacity;
      frames := [];
      droppedFrameCount, underrunCount := 0, 0;
    }

    method Push(frame: T)
      requires Valid()
      modifies this
      ensures Valid() && State() == old(State()).Push(frame)
    {
      if capacity == 0 {
        droppedFrameCount := droppedFrameCount + 1;
        return;
      }
      if |frames| == capacity {
        frames := frames[1..];
        droppedFrameCount := droppedFrameCount + 1;
      }
      frames := frames + [frame];
    }

    method Pop() returns (frame: Option<T>)
      requires Valid()
      modifies this
      ensures Valid() && (State(), frame) == old(State()).Pop()
    {
      if frames == [] {
        underrunCount := underrunCount + 1;
        return None;
      }
      frame := Some(frames[0]);
      frames := frames[1..];
    }

    method Clear()
      requires Valid()
      modifies this
      ensures Valid() && State() == old(State()).Clear()
    {
      frames := [];
    }
  }

  class AudioFramePacer<T> {
    const queue: AudioFrameQueue<T>
    const frameInterval: nat
    var nextDeadline: Option<nat>

    ghost predicate Valid()
      reads this, queue
    {
      queue.Valid()
    }

    ghost function State(): Pacer<T>
      reads this, queue
    {
      Pacer(queue.State(), frameInterval, nextDeadline)
    }

    constructor (capacity: nat, frameInterval: nat)
      ensures Valid() && fresh(queue) && State() == Pacer(Queue([], capacity, 0, 0), frameInterval, None)
    {
      queue := new AudioFrameQueue(capacity);
      this.frameInterval := frameInterval;
      nextDeadline := None;
    }

    method Push(frame: T, now: nat)
      requires Valid()
      modifies this, queue
      ensures Valid() && State() == old(State()).Push(frame, now)
    {
      queue.Push(frame);
      if nextDeadline.None? {
        nextDeadline := Some(now);
      }
    }

    method Poll(now: nat) returns (frame: Option<T>)
      requires Valid()
      modifies this, queue
      ensures Valid() && (State(), frame) == old(State()).Poll(now)
    {
      if nextDeadline.None? || now < nextDeadline.value {
        return None;
      }
      var deadline := nextDeadline.value;
      frame := queue.Pop();
      nextDeadline := if frame.Some? then Some(deadline + frameInterval) else None;
    }

    method Clear()
      requires Valid()
      modifies this, queue
      ensures Valid() && State() == old(State()).Clear()
    {
      queue.Clear();
      nextDeadline := None;
    }
  }
}
