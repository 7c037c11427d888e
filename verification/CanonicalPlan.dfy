/**
 Where the canonical analysis listens: nine segments spread over the reference. Fractions are
 exact.
 */
module CanonicalPlan {
  import opened Prelude

  const CANDIDATES: nat := 9

  datatype Segment = Segment(index: nat, start: nat, samples: nat)

  datatype Failure = ReferenceTooShort | PlanOverlaps | WindowTooShort | NoCompleteFragment

  /** A computation returns, reports a failure, or panics. */
  datatype Outcome<T> = Returned(value: T) | Failed(failure: Failure) | Panicked

  function Fraction(index: nat): (f: real)
    ensures f >= 0.0
  {
    0.04 + 0.92 * index as real / (CANDIDATES - 1) as real
  }

  function ScaleDown(available: nat, fraction: real): nat
    requires fraction >= 0.0
  {
    assert available as real * fraction >= 0.0;
    (available as real * fraction).Floor
  }

  function SamplesPerSegment(length: nat, rate: nat): nat {
    Min(rate, length / (CANDIDATES + 2))
  }

  function Starts(length: nat, rate: nat): (starts: seq<nat>)
    ensures |starts| == CANDIDATES
    ensures forall i :: 0 <= i < CANDIDATES ==>
              starts[i] == ScaleDown(length - SamplesPerSegment(length, rate), Fraction(i))
  {
    seq(CANDIDATES, i requires 0 <= i < CANDIDATES => ScaleDown(length - SamplesPerSegment(length, rate), Fraction(i)))
  }

  function SegmentPlan(length: nat, rate: nat): (plan: Outcome<seq<Segment>>)
  {
    if length < rate * 3 then Failed(ReferenceTooShort)
    else
      var samples := SamplesPerSegment(length, rate);
      var starts := Starts(length, rate);
      if exists i :: 0 <= i < |starts| - 1 && starts[i + 1] < starts[i] + samples then Failed(PlanOverlaps)
      else
        Returned(seq(|starts|, i requires 0 <= i < |starts| => Segment(i, starts[i], samples)))
  }

  /** Nine disjoint segments of the same size, in order and inside a reference of this length. */
  ghost predicate IsPlan(segments: seq<Segment>, length: nat, rate: nat) {
    && |segments| == CANDIDATES
    && (forall i :: 0 <= i < CANDIDATES ==>
          && segments[i].index == i && segments[i].samples == SamplesPerSegment(length, rate)
          && segments[i].start + segments[i].samples <= length)
    && (forall i, j :: 0 <= i < j < CANDIDATES ==> segments[i].start + segments[i].samples <= segments[j].start)
  }

  lemma FloorOfThousandths(k: nat)
    ensures (k as real / 1000.0).Floor == k / 1000
  {
    var q, r := k / 1000, k % 1000;
    assert k as real / 1000.0 == q as real + r as real / 1000.0;
  }

  /** In integers: the start is 40 + 115 i thousandths of the room there is. */
  lemma StartIs(available: nat, i: nat)
    requires i < CANDIDATES
    ensures ScaleDown(available, Fraction(i)) == available * (40 + 115 * i) / 1000
  {
    FloorOfThousandths(available * (40 + 115 * i));
    if
    case i == 0 =>
    case i == 1 =>
    case i == 2 =>
    case i == 3 =>
    case i == 4 =>
    case i == 5 =>
    case i == 6 =>
    case i == 7 =>
    case i == 8 =>
  }

  /** A second, or an eleventh of the reference if that is shorter. */
  lemma SegmentLengthIs(length: nat, rate: nat)
    ensures var samples := SamplesPerSegment(length, rate);
            samples <= rate && 11 * samples <= length && (samples == rate || length < 11 * (samples + 1))
  {
  }

  lemma SegmentFits(length: nat, rate: nat)
    ensures var samples := SamplesPerSegment(length, rate); 10 * samples <= length - samples
  {
  }

  /** Consecutive starts leave room for a segment, since 115 thousandths of ten segments exceed one. */
  lemma StartsAreSpaced(available: nat, samples: nat, i: nat)
    requires 10 * samples <= available && i + 1 < CANDIDATES
    ensures ScaleDown(available, Fraction(i)) + samples <= ScaleDown(available, Fraction(i + 1))
  {
    StartIs(available, i);
    StartIs(available, i + 1);
    var k := available * (40 + 115 * i);
    assert available * (40 + 115 * (i + 1)) == k + 115 * available;
  }

  lemma {:induction false} StartsInOrder(length: nat, rate: nat, i: nat, j: nat)
    requires i < j < CANDIDATES
    ensures Starts(length, rate)[i] + SamplesPerSegment(length, rate) <= Starts(length, rate)[j]
  {
    var samples := SamplesPerSegment(length, rate);
    SegmentFits(length, rate);
    StartsAreSpaced(length - samples, samples, j - 1);
    if i + 1 < j {
      StartsInOrder(length, rate, i, j - 1);
    }
  }

  lemma LastSegmentFits(available: nat)
    ensures ScaleDown(available, Fraction(CANDIDATES - 1)) <= available
  {
    StartIs(available, CANDIDATES - 1);
  }

  /** The plan fails only for a short reference; the overlap error is unreachable, for every rate. */
  lemma PlanIsSound(length: nat, rate: nat)
    ensures SegmentPlan(length, rate) == Failed(ReferenceTooShort) <==> length < 3 * rate
    ensures length >= 3 * rate ==>
              SegmentPlan(length, rate).Returned? && IsPlan(SegmentPlan(length, rate).value, length, rate)
  {
    var samples, starts := SamplesPerSegment(length, rate), Starts(length, rate);
    forall i, j | 0 <= i < j < CANDIDATES ensures starts[i] + samples <= starts[j] {
      StartsInOrder(length, rate, i, j);
    }
    LastSegmentFits(length - samples);
    assert forall i :: 0 <= i < CANDIDATES ==> starts[i] <= starts[CANDIDATES - 1];
  }
}
