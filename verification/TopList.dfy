/**
 The stable sort by score, and the bounded list of the best scores that the cue search keeps
 with it.
 */
module TopList {
  import opened Prelude
  import opened BestFirst

  const CAPACITY: nat := 12

  type Entry = Scored<int>

  ghost predicate Sorted(list: seq<Entry>) {
    forall i, j :: 0 <= i < j < |list| ==> list[i].score <= list[j].score
  }

  /** Insert behind every entry that scores no more. */
  function Insert(list: seq<Entry>, x: Entry): (r: seq<Entry>)
    ensures |r| == |list| + 1
  {
    if list == [] || list[|list| - 1].score <= x.score then list + [x]
    else Insert(list[..|list| - 1], x) + [list[|list| - 1]]
  }

  /** The stable sort by score, ascending. */
  function StableSort(list: seq<Entry>): (r: seq<Entry>)
    ensures |r| == |list|
  {
    if list == [] then [] else Insert(StableSort(list[..|list| - 1]), list[|list| - 1])
  }

  lemma {:induction false} InsertAdds(list: seq<Entry>, x: Entry)
    ensures multiset(Insert(list, x)) == multiset(list) + multiset{x}
  {
    if list != [] && list[|list| - 1].score > x.score {
      var front, last := list[..|list| - 1], list[|list| - 1];
      InsertAdds(front, x);
      assert list == front + [last];
    }
  }

  ghost predicate Below(list: seq<Entry>, bound: real) {
    forall i :: 0 <= i < |list| ==> list[i].score <= bound
  }

  lemma {:induction false} InsertSorts(list: seq<Entry>, x: Entry, bound: real)
    requires Sorted(list) && Below(list, bound) && x.score <= bound
    ensures Sorted(Insert(list, x)) && Below(Insert(list, x), bound)
  {
    if list != [] && list[|list| - 1].score > x.score {
      var front, last := list[..|list| - 1], list[|list| - 1];
      InsertSorts(front, x, last.score);
    }
  }

  lemma NothingSorted()
    ensures Sorted([])
  {
  }

  lemma InsertKeepsSorted(list: seq<Entry>, x: Entry)
    requires Sorted(list)
    ensures Sorted(Insert(list, x))
  {
    InsertSorts(list, x, if list != [] && list[|list| - 1].score > x.score then list[|list| - 1].score else x.score);
  }

  /** The sort orders and permutes. */
  lemma {:induction false} StableSortSorts(list: seq<Entry>)
    ensures Sorted(StableSort(list)) && multiset(StableSort(list)) == multiset(list)
  {
    hide Insert, Sorted;
    NothingSorted();
    if list != [] {
      var front, last := list[..|list| - 1], list[|list| - 1];
      assert list == front + [last];
      StableSortSorts(front);
      var sorted := StableSort(front);
      InsertAdds(sorted, last);
      InsertKeepsSorted(sorted, last);
    }
  }

  /** Whatever of `all` is left out scores no more than anything kept. */
  ghost predicate LeavesOutOnlyLower(all: multiset<Entry>, kept: multiset<Entry>) {
    forall x, k :: x in all - kept && k in kept ==> x.score <= k.score
  }

  /** The twelve best of what was scanned, or all of it, in ascending order. */
  ghost predicate IsTop(kept: seq<Entry>, scanned: seq<Entry>) {
    && Sorted(kept)
    && |kept| == Min(CAPACITY, |scanned|)
    && multiset(kept) <= multiset(scanned)
    && LeavesOutOnlyLower(multiset(scanned), multiset(kept))
  }

  /** The list after x has been offered: x enters if there is room or it beats the lowest, which leaves. */
  function Admit(kept: seq<Entry>, x: Entry): seq<Entry> {
    if |kept| < CAPACITY || x.score > kept[0].score then
      var sorted := StableSort(kept + [x]);
      if |sorted| > CAPACITY then sorted[1..] else sorted
    else kept
  }

  method Offer(kept: seq<Entry>, x: Entry) returns (next: seq<Entry>)
    ensures next == Admit(kept, x)
  {
    next := kept;
    if |kept| < CAPACITY || x.score > kept[0].score {
      next := next + [x];
      next := StableSort(next);
      if |next| > CAPACITY {
        next := next[1..];
      }
    }
  }

  lemma AdmitKeepsTop(kept: seq<Entry>, x: Entry, scanned: seq<Entry>)
    requires IsTop(kept, scanned)
    ensures IsTop(Admit(kept, x), scanned + [x])
  {
    hide StableSort, LeavesOutOnlyLower;
    var sorted := StableSort(kept + [x]);
    StableSortSorts(kept + [x]);
    if |kept| < CAPACITY {
      RoomKeepsTop(kept, x, scanned, sorted);
    } else if x.score > kept[0].score {
      EvictionKeepsTop(kept, x, scanned, sorted);
    } else {
      RefusalKeepsTop(kept, x, scanned);
    }
  }

  /** A list with room has kept everything, and keeps x too. */
  lemma RoomKeepsTop(kept: seq<Entry>, x: Entry, scanned: seq<Entry>, sorted: seq<Entry>)
    requires IsTop(kept, scanned) && |kept| < CAPACITY
    requires Sorted(sorted) && multiset(sorted) == multiset(kept + [x])
    ensures IsTop(sorted, scanned + [x])
  {
    SameSize(multiset(kept), multiset(scanned));
    assert |sorted| == |multiset(sorted)|;
    assert multiset(scanned + [x]) == multiset(scanned) + multiset{x};
    assert multiset(kept + [x]) == multiset(kept) + multiset{x};
  }

  lemma SameSize<T>(part: multiset<T>, whole: multiset<T>)
    requires part <= whole && |part| == |whole|
    ensures part == whole
  {
    assert whole == part + (whole - part);
    assert |whole - part| == 0;
  }

  lemma RefusalKeepsTop(kept: seq<Entry>, x: Entry, scanned: seq<Entry>)
    requires IsTop(kept, scanned) && |kept| == CAPACITY && x.score <= kept[0].score
    ensures IsTop(kept, scanned + [x])
  {
    assert multiset(scanned + [x]) - multiset(kept) == (multiset(scanned) - multiset(kept)) + multiset{x};
  }

  /** Taking x in and letting y go turns what is left out of `all` accordingly. */
  lemma Exchange<T>(all: multiset<T>, kept: multiset<T>, next: multiset<T>, x: T, y: T)
    requires kept <= all && next + multiset{y} == kept + multiset{x}
    ensures next <= all + multiset{x}
    ensures (all + multiset{x}) - next == (all - kept) + multiset{y}
  {
    forall e ensures next[e] + multiset{y}[e] == kept[e] + multiset{x}[e] {
      assert (next + multiset{y})[e] == (kept + multiset{x})[e];
    }
  }

  lemma EvictingLowest(all: multiset<Entry>, kept: multiset<Entry>, next: multiset<Entry>, x: Entry, lowest: Entry,
      floor: Entry)
    requires kept <= all && LeavesOutOnlyLower(all, kept) && next + multiset{lowest} == kept + multiset{x}
    requires floor in kept && floor.score < x.score && forall k :: k in next ==> lowest.score <= k.score
    ensures next <= all + multiset{x} && LeavesOutOnlyLower(all + multiset{x}, next)
  {
    Exchange(all, kept, next, x, lowest);
    forall y, k | y in (all + multiset{x}) - next && k in next ensures y.score <= k.score {
      assert k in next + multiset{lowest};
      if y != lowest {
        assert y in all - kept && (k in kept || k == x);
      }
    }
  }

  lemma LowestFirst(sorted: seq<Entry>)
    requires Sorted(sorted) && sorted != []
    ensures Sorted(sorted[1..]) && forall k: Entry :: k in multiset(sorted[1..]) ==> sorted[0].score <= k.score
    ensures multiset(sorted[1..]) + multiset{sorted[0]} == multiset(sorted)
  {
    var next := sorted[1..];
    assert sorted == [sorted[0]] + next;
    forall k: Entry | k in multiset(next) ensures sorted[0].score <= k.score {
      assert k in next;
    }
  }

  lemma EvictionKeepsTop(kept: seq<Entry>, x: Entry, scanned: seq<Entry>, sorted: seq<Entry>)
    requires IsTop(kept, scanned) && |kept| == CAPACITY && |sorted| == CAPACITY + 1
    requires Sorted(sorted) && multiset(sorted) == multiset(kept + [x])
    requires x.score > kept[0].score
    ensures IsTop(sorted[1..], scanned + [x])
  {
    hide LeavesOutOnlyLower, Sorted;
    LowestFirst(sorted);
    assert multiset(kept + [x]) == multiset(kept) + multiset{x};
    assert kept[0] in multiset(kept);
    EvictingLowest(multiset(scanned), multiset(kept), multiset(sorted[1..]), x, sorted[0], kept[0]);
  }

  lemma NothingIsTop()
    ensures IsTop([], [])
  {
  }

  /** The list after every entry has been offered in turn. */
  function Kept(scanned: seq<Entry>): seq<Entry> {
    if scanned == [] then [] else Admit(Kept(scanned[..|scanned| - 1]), scanned[|scanned| - 1])
  }

  /** It is the top twelve of what was offered. */
  lemma {:induction false} KeptIsTop(scanned: seq<Entry>)
    ensures IsTop(Kept(scanned), scanned)
  {
    hide IsTop, Admit;
    if scanned == [] {
      NothingIsTop();
    } else {
      var front, last := scanned[..|scanned| - 1], scanned[|scanned| - 1];
      KeptIsTop(front);
      AdmitKeepsTop(Kept(front), last, front);
      assert front + [last] == scanned;
    }
  }
}
