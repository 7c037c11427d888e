/**
 The correlation of the cue search: one pass over strided samples, or their differences, that
 adds up five sums. Over exact reals it is the correlation coefficient of what it visited.
 */
module CueCorrelation {
  import opened LeastSquares
  import opened Correlation
  import opened PcmCodec

  const OBSERVED: nat := 80
  const FLAT: real := 0.0000000001

  type Recording = seq<int16>

  // ----- what is visited -----

  function LeftAt(reference: Signal, i: nat, derivative: bool): real
    requires i < |reference| && (derivative ==> i > 0)
  {
    if derivative then reference[i] - reference[i - 1] else reference[i]
  }

  function RightAt(recording: Recording, i: nat, derivative: bool): real
    requires i < |recording| && (derivative ==> i > 0)
  {
    if derivative then (recording[i] as int as real - recording[i - 1] as int as real) / 32768.0
    else recording[i] as int as real / 32768.0
  }

  /** The stretch compared: `reference` from `from` on against `recording` from `heard` on. */
  datatype Stretch = Stretch(reference: Signal, recording: Recording, from: nat, heard: nat, length: nat) {

    /** The visit stops at the end of the stretch, or where either signal ends. */
    predicate Ends(offset: nat) {
      offset >= length || from + offset >= |reference| || heard + offset >= |recording|
    }

    /** The samples visited from `offset` on, of the reference and of the recording. */
    function Visited(offset: nat, stride: nat, derivative: bool): (pair: (Signal, Signal))
      requires stride > 0 && (derivative ==> offset > 0)
      ensures |pair.0| == |pair.1|
      decreases length - offset
    {
      if Ends(offset) then ([], [])
      else
        var rest := Visited(offset + stride, stride, derivative);
        ([LeftAt(reference, from + offset, derivative)] + rest.0,
         [RightAt(recording, heard + offset, derivative)] + rest.1)
    }

    function Correlated(stride: nat, derivative: bool, root: Root): real
      requires stride > 0
    {
      var pair := Visited(if derivative then stride else 0, stride, derivative);
      OnePass(pair.0, pair.1, root)
    }
  }

  // ----- the five sums -----

  /** An inner product freed of the two means: sum of products less product of sums over the count. */
  function Freed(product: real, left: real, right: real, count: nat): real
    requires count > 0
  {
    product - left * right / count as real
  }

  function OverRoot(product: real, energy: real, root: Root): real {
    var denominator := root(energy);
    if denominator <= FLAT then 0.0 else product / denominator
  }

  function Energies(ll: real, rr: real, sl: real, sr: real, count: nat): real
    requires count > 0
  {
    Freed(ll, sl, sl, count) * Freed(rr, sr, sr, count)
  }

  /** The correlation from the five sums of what was visited. */
  function OnePass(l: Signal, r: Signal, root: Root): real
    requires |l| == |r|
  {
    if |l| < OBSERVED then 0.0
    else
      OverRoot(Freed(Dot(l, r), Sum(l), Sum(r), |l|), Energies(Dot(l, l), Dot(r, r), Sum(l), Sum(r), |l|), root)
  }

  /** The loop: five sums and a count, gathered in one pass. */
  method TranslatedPearson(s: Stretch, stride: nat, derivative: bool, root: Root) returns (r: real)
    requires stride > 0
    ensures r == s.Correlated(stride, derivative, root)
  {
    hide Dot, Sum, Freed, Energies, OverRoot, LeftAt, RightAt;
    var begin := if derivative then stride else 0;
    ghost var all := s.Visited(begin, stride, derivative);
    var sl, sr, ll, rr, lr := 0.0, 0.0, 0.0, 0.0, 0.0;
    var count, offset := 0, begin;
    while offset < s.length && s.from + offset < |s.reference| && s.heard + offset < |s.recording|
      invariant offset >= begin
      invariant Gathered(s.Visited(offset, stride, derivative), all, sl, sr, ll, rr, lr, count)
      decreases s.length - offset
    {
      var left, right := LeftAt(s.reference, s.from + offset, derivative),
          RightAt(s.recording, s.heard + offset, derivative);
      GatherNext(left, right, s.Visited(offset + stride, stride, derivative), all, sl, sr, ll, rr, lr, count);
      sl, sr := sl + left, sr + right;
      ll, rr, lr := ll + left * left, rr + right * right, lr + left * right;
      count := count + 1;
      offset := offset + stride;
    }
    GatheredAll(all, sl, sr, ll, rr, lr, count);
    if count < OBSERVED {
      return 0.0;
    }
    r := OverRoot(Freed(lr, sl, sr, count), Energies(ll, rr, sl, sr, count), root);
  }

  /** The sums so far and those of the rest are together those of all. */
  ghost predicate Gathered(rest: (Signal, Signal), all: (Signal, Signal),
                           sl: real, sr: real, ll: real, rr: real, lr: real, count: nat)
  {
    && |rest.0| == |rest.1| && |all.0| == |all.1| == count + |rest.0|
    && sl + Sum(rest.0) == Sum(all.0) && sr + Sum(rest.1) == Sum(all.1)
    && ll + Dot(rest.0, rest.0) == Dot(all.0, all.0) && rr + Dot(rest.1, rest.1) == Dot(all.1, all.1)
    && lr + Dot(rest.0, rest.1) == Dot(all.0, all.1)
  }

  lemma GatherNext(left: real, right: real, rest: (Signal, Signal), all: (Signal, Signal),
                   sl: real, sr: real, ll: real, rr: real, lr: real, count: nat)
    requires |rest.0| == |rest.1|
    requires Gathered(([left] + rest.0, [right] + rest.1), all, sl, sr, ll, rr, lr, count)
    ensures Gathered(rest, all, sl + left, sr + right, ll + left * left, rr + right * right, lr + left * right,
            count + 1)
  {
    hide Dot, Sum;
    SumCons(left, rest.0);
    SumCons(right, rest.1);
    DotCons(left, left, rest.0, rest.0);
    DotCons(right, right, rest.1, rest.1);
    DotCons(left, right, rest.0, rest.1);
  }

  lemma GatheredAll(all: (Signal, Signal), sl: real, sr: real, ll: real, rr: real, lr: real, count: nat)
    requires Gathered(([], []), all, sl, sr, ll, rr, lr, count)
    ensures |all.0| == |all.1| == count && sl == Sum(all.0) && sr == Sum(all.1)
    ensures ll == Dot(all.0, all.0) && rr == Dot(all.1, all.1) && lr == Dot(all.0, all.1)
  {
  }

  lemma SumCons(x: real, rest: Signal)
    ensures Sum([x] + rest) == x + Sum(rest)
  {
    assert ([x] + rest)[1..] == rest;
  }

  lemma DotCons(x: real, y: real, xs: Signal, ys: Signal)
    requires |xs| == |ys|
    ensures Dot([x] + xs, [y] + ys) == Times(x, y) + Dot(xs, ys)
  {
    hide Dot, Times;
    var l, r := [x] + xs, [y] + ys;
    assert l[0] == x && r[0] == y && l[1..] == xs && r[1..] == ys;
    DotUnfold(l, r);
  }

  // ----- the correlation coefficient -----

  /** x less a constant. */
  function Shifted(x: Signal, m: real): (c: Signal)
    ensures |c| == |x| && forall i :: 0 <= i < |x| ==> c[i] == x[i] - m
  {
    seq(|x|, i requires 0 <= i < |x| => x[i] - m)
  }

  /** The inner product of shifted signals in terms of the five sums. */
  ghost function Expanded(dot: real, sx: real, sy: real, n: real, a: real, b: real): real {
    dot - b * sx - a * sy + n * (a * b)
  }

  lemma AddTerm(x: real, y: real, dot: real, sx: real, sy: real, n: real, a: real, b: real)
    ensures Times(x - a, y - b) + Expanded(dot, sx, sy, n, a, b)
            == Expanded(Times(x, y) + dot, x + sx, y + sy, n + 1.0, a, b)
  {
    assert (x - a) * (y - b) == x * y - b * x - a * y + a * b;
    assert (n + 1.0) * (a * b) == n * (a * b) + a * b;
  }

  lemma Empties(a: real, b: real)
    ensures Dot([], []) == 0.0 == Sum([]) && Expanded(0.0, 0.0, 0.0, 0.0, a, b) == 0.0
  {
  }

  lemma ShiftedCons(x: Signal, m: real)
    requires x != []
    ensures x == [x[0]] + x[1..] && Shifted(x, m) == [x[0] - m] + Shifted(x[1..], m)
  {
  }

  lemma {:induction false} DotOfShifted(x: Signal, y: Signal, a: real, b: real)
    requires |x| == |y|
    ensures Dot(Shifted(x, a), Shifted(y, b)) == Expanded(Dot(x, y), Sum(x), Sum(y), |x| as real, a, b)
  {
    hide Dot, Sum, Expanded, Times, Shifted;
    if x == [] {
      Empties(a, b);
      assert Shifted(x, a) == [] && Shifted(y, b) == [] && y == [];
    } else {
      var xs, ys := x[1..], y[1..];
      DotOfShifted(xs, ys, a, b);
      ShiftedCons(x, a);
      ShiftedCons(y, b);
      SumCons(x[0], xs);
      SumCons(y[0], ys);
      DotCons(x[0], y[0], xs, ys);
      DotCons(x[0] - a, y[0] - b, Shifted(xs, a), Shifted(ys, b));
      AddTerm(x[0], y[0], Dot(xs, ys), Sum(xs), Sum(ys), |xs| as real, a, b);
      assert |x| as real == |xs| as real + 1.0;
    }
  }

  lemma MeansCancel(dot: real, sx: real, sy: real, count: nat)
    requires count > 0
    ensures Expanded(dot, sx, sy, count as real, sx / count as real, sy / count as real) == Freed(dot, sx, sy, count)
  {
    var n := count as real;
    var a, b := sx / n, sy / n;
    assert n * a == sx && n * b == sy;
    assert n * (a * b) == (n * a) * b == sx * b;
    assert sx * sy / n == a * sy;
  }

  /** Freeing the sums of their means is centring the signals. */
  lemma FreedIsCentred(x: Signal, y: Signal)
    requires |x| == |y| > 0
    ensures Freed(Dot(x, y), Sum(x), Sum(y), |x|) == Dot(Centered(x), Centered(y))
  {
    hide Dot, Sum, Freed, Expanded;
    DotOfShifted(x, y, Mean(x), Mean(y));
    assert Centered(x) == Shifted(x, Mean(x)) && Centered(y) == Shifted(y, Mean(y));
    MeansCancel(Dot(x, y), Sum(x), Sum(y), |x|);
  }

  /** The one-pass figure is the correlation coefficient, or 0 where the signals are too flat to tell. */
  lemma OnePassIsCoefficient(l: Signal, r: Signal, root: Root)
    requires |l| == |r| >= OBSERVED
    ensures OnePass(l, r, root)
            == if root(Energy(Centered(l), Centered(r))) <= FLAT then 0.0 else Coefficient(l, r, root)
  {
    hide Dot, Sum, Freed, Centered;
    FreedIsCentred(l, r);
    FreedIsCentred(l, l);
    FreedIsCentred(r, r);
    assert Energies(Dot(l, l), Dot(r, r), Sum(l), Sum(r), |l|) == Energy(Centered(l), Centered(r));
  }

  lemma OnePassInUnit(l: Signal, r: Signal, root: Root)
    requires |l| == |r| && IsRoot(root)
    ensures -1.0 <= OnePass(l, r, root) <= 1.0
  {
    hide OnePass;
    if |l| < OBSERVED {
      ShortIsZero(l, r, root);
    } else {
      OnePassIsCoefficient(l, r, root);
      CoefficientInUnit(l, r, root);
    }
  }

  lemma ShortIsZero(l: Signal, r: Signal, root: Root)
    requires |l| == |r| < OBSERVED
    ensures OnePass(l, r, root) == 0.0
  {
  }
}
