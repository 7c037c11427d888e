/**
 Searching by strict improvement: a running best is replaced only by a strictly larger score,
 so it ends as the first maximum of everything it was shown.
 */
module BestFirst {
  import opened Prelude
  import opened Arithmetic

  datatype Scored<T> = Scored(item: T, score: real)

  function Better<T>(best: Option<Scored<T>>, next: Scored<T>): Option<Scored<T>> {
    if best.None? || next.score > best.value.score then Some(next) else best
  }

  /** The running best after a trail of evaluations. */
  function Best<T>(best: Option<Scored<T>>, trail: seq<Scored<T>>): Option<Scored<T>>
    decreases |trail|
  {
    if trail == [] then best else Best(Better(best, trail[0]), trail[1..])
  }

  lemma {:induction false} BestAppend<T>(best: Option<Scored<T>>, xs: seq<Scored<T>>, ys: seq<Scored<T>>)
    ensures Best(best, xs + ys) == Best(Best(best, xs), ys)
    decreases |xs|
  {
    if xs == [] {
      assert xs + ys == ys;
    } else {
      assert (xs + ys)[1..] == xs[1..] + ys;
      BestAppend(Better(best, xs[0]), xs[1..], ys);
    }
  }

  /** `k` is the first index of the largest score. */
  ghost predicate IsFirstMaximum<T>(trail: seq<Scored<T>>, k: int) {
    && 0 <= k < |trail|
    && (forall j :: 0 <= j < |trail| ==> trail[j].score <= trail[k].score)
    && (forall j :: 0 <= j < k ==> trail[j].score < trail[k].score)
  }

  /** What the search returns is the first maximum of the trail. */
  lemma {:induction false} BestIsFirstMaximum<T>(trail: seq<Scored<T>>) returns (k: int)
    ensures Best(None, trail).None? <==> trail == []
    ensures trail != [] ==> IsFirstMaximum(trail, k) && Best(None, trail) == Some(trail[k])
    decreases |trail|
  {
    k := 0;
    if trail != [] {
      var front, last := trail[..|trail| - 1], trail[|trail| - 1];
      var j := BestIsFirstMaximum(front);
      BestAppend(None, front, [last]);
      assert front + [last] == trail;
      assert Best(Best(None, front), [last]) == Better(Best(None, front), last) by {
        assert [last][1..] == [];
      }
      k := if front == [] || last.score > front[j].score then |trail| - 1 else j;
      assert forall i :: 0 <= i < |front| ==> front[i] == trail[i];
    }
  }

  /** A search never ends below where it started, nor below anything it was shown. */
  lemma {:induction false} BestDominates<T>(best: Option<Scored<T>>, trail: seq<Scored<T>>)
    ensures best.Some? ==> Best(best, trail).Some? && best.value.score <= Best(best, trail).value.score
    ensures trail != [] ==> Best(best, trail).Some?
    ensures forall x :: x in trail ==> x.score <= Best(best, trail).value.score
    ensures Best(best, trail) == best || (Best(best, trail).Some? && Best(best, trail).value in trail)
    decreases |trail|
  {
    if trail != [] {
      BestDominates(Better(best, trail[0]), trail[1..]);
      forall x | x in trail ensures x.score <= Best(best, trail).value.score {
        if x != trail[0] {
          assert x in trail[1..];
        }
      }
    }
  }

  // ----- stepped ranges -----

  /** The values of an inclusive range visited with a step. */
  function Steps(low: nat, high: int, step: nat): seq<nat>
    requires step > 0
    decreases high + 1 - low
  {
    if low > high then [] else [low] + Steps(low + step, high, step)
  }

  /** Every multiple of the step that stays in the range is visited. */
  lemma {:induction false} StepsVisit(low: nat, high: int, step: nat, k: nat)
    requires step > 0 && low + k * step <= high
    ensures low + k * step in Steps(low, high, step)
    decreases k
  {
    MulMonotone(0, k, step);
    if k > 0 {
      assert low + step + (k - 1) * step == low + k * step;
      StepsVisit(low + step, high, step, k - 1);
    }
  }

  /** Nothing outside the range is visited. */
  lemma {:induction false} StepsStayWithin(low: nat, high: int, step: nat)
    requires step > 0
    ensures forall x :: x in Steps(low, high, step) ==> low <= x <= high
    decreases high + 1 - low
  {
    if low <= high {
      StepsStayWithin(low + step, high, step);
    }
  }

  /** A visited value lies a whole number of steps above the low end. */
  lemma {:induction false} StepsAligned(low: nat, high: int, step: nat, x: nat)
    requires step > 0 && low % step == 0 && x in Steps(low, high, step)
    ensures x % step == 0
    decreases high + 1 - low
  {
    if x != low {
      ModuloStep(low, step);
      StepsAligned(low + step, high, step, x);
    }
  }

  lemma ModuloStep(x: nat, step: nat)
    requires step > 0 && x % step == 0
    ensures (x + step) % step == 0
  {
    var q := x / step;
    assert x == q * step;
    assert x + step == (q + 1) * step;
    DivIs(x + step, step, q + 1);
  }
}
