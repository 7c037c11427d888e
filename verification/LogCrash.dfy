/**
 Losing power: of every file an arbitrary tail that has not been synced may be gone, and the
 process starts again on what is left. What was synced is still in its file, so a confirmed record
 survives any number of crashes until its file is deleted; what was not synced can be lost.
 */
module LogCrash {
  import opened LogStore
  import opened LogProtocol
  import opened LogStoreInvariant
  import opened LogRotation
  import opened LogRetention
  import opened LogEvidence
  import opened LogLocation
  import opened LogReceipts
  import opened LogReceiptRuns

  /** Each file keeps at least what was synced; names are kept. */
  ghost predicate IsCrash(before: Store, after: Store) {
    && after.names == before.names && |after.files| == |before.files|
    && forall f :: 0 <= f < |before.files| ==> IsCut(before.files[f], after.files[f])
  }

  /** What is left has reached stable storage. */
  ghost predicate IsCut(before: File, after: File) {
    && before.synced <= |after.bytes| <= |before.bytes|
    && after.bytes == before.bytes[..|after.bytes|]
    && before.synced <= after.synced <= |after.bytes|
  }

  /** A line that is in the directory is durable exactly if no crash can take it from there. */
  lemma DurableExactlyWhenSafe(st: Store, n: nat, o: Outcome)
    requires st.Valid() && Present(st, n, o)
    ensures Durable(st, n, o) <==> forall after :: IsCrash(st, after) ==> Present(after, n, o)
  {
    hide Named;
    if Durable(st, n, o) {
      forall after | IsCrash(st, after) ensures Present(after, n, o) {
        SyncedSurvivesCrash(st, after, o);
        SameNamed(st, after, n, o.file);
      }
    } else {
      var after := WorstCrash(st);
      assert o.offset + |o.record.line| > |after.files[o.file].bytes|;
      assert !InFile(after, o);
    }
  }

  lemma SameNamed(a: Store, b: Store, n: nat, f: nat)
    requires a.names == b.names
    ensures Named(a, n, f) <==> Named(b, n, f)
  {
  }

  /** The crash that takes everything it can. */
  lemma WorstCrash(st: Store) returns (after: Store)
    requires st.Valid()
    ensures IsCrash(st, after)
    ensures forall f :: 0 <= f < |st.files| ==> |after.files[f].bytes| == st.files[f].synced
  {
    after := Store(st.names, seq(|st.files|, f requires 0 <= f < |st.files| => Cut(st.files[f])));
  }

  /** Only the synced part of a file. */
  function Cut(file: File): File {
    if file.synced <= |file.bytes| then File(file.bytes[..file.synced], file.synced) else file
  }

  lemma SyncedSurvivesCrash(before: Store, after: Store, o: Outcome)
    requires before.Valid() && IsCrash(before, after) && SyncedInFile(before, o)
    ensures SyncedInFile(after, o)
  {
    if o.record.line != [] {
      var f, end := o.file, o.offset + |o.record.line|;
      assert IsCut(before.files[f], after.files[f]);
      assert end <= before.files[f].synced;
      assert after.files[f].bytes[o.offset..end] == before.files[f].bytes[o.offset..end];
    }
  }

  /** A crash shortens every generation, and so brings what is left closer to the end. */
  lemma {:induction false} RetainedShrinks(before: Store, after: Store, n: nat)
    requires before.Valid() && IsCrash(before, after)
    ensures |Retained(after, n)| <= |Retained(before, n)|
  {
    ContentShrinks(before, after, n);
    if n > 0 {
      RetainedShrinks(before, after, n - 1);
    }
  }

  lemma ContentShrinks(before: Store, after: Store, i: nat)
    requires before.Valid() && IsCrash(before, after)
    ensures |after.ContentAt(i)| <= |before.ContentAt(i)|
  {
    if i in before.names {
      assert IsCut(before.files[before.names[i]], after.files[before.names[i]]);
    }
  }

  /** A line is in the same generation after a crash, or still in none. */
  lemma LocatedSurvivesCrash(before: Store, after: Store, n: nat, o: Outcome, far: int) returns (left: int)
    requires before.Valid() && IsCrash(before, after) && Located(before, n, o, far)
    ensures Located(after, n, o, left) && left <= far
  {
    hide Retained, IsCut;
    left := far;
    RetainedShrinks(before, after, n);
    if o.Written? && Named(before, n, o.file) {
      var i: nat :| i <= n && i in before.names && before.names[i] == o.file;
      RetainedShrinks(before, after, i);
      left := if o.record.line == [] then far else |Retained(after, i)| - o.offset;
    }
  }

  /** A life of the process: a run from its start to where it was cut short. */
  datatype Life = Life(states: seq<System>, steps: seq<Step>)

  /** Lives one after the other, each starting on what a crash left of the one before. */
  ghost predicate AreLives(lives: seq<Life>) {
    && (forall i :: 0 <= i < |lives| ==> IsRun(lives[i].states, lives[i].steps))
    && (forall i :: 0 <= i < |lives| - 1 ==> Follows(lives[i], lives[i + 1]))
  }

  ghost predicate Follows(life: Life, next: Life)
    requires IsRun(life.states, life.steps) && IsRun(next.states, next.steps)
  {
    IsCrash(life.states[|life.steps|].store, next.states[0].store)
  }

  /** What is synced in its file at some moment is so at every later one of this and of every later life. */
  lemma {:induction false} SyncedSurvives(lives: seq<Life>, a: nat, i: nat, b: nat, j: nat, o: Outcome)
    requires AreLives(lives) && a <= b < |lives| && i < |lives[a].states| && j < |lives[b].states|
    requires a == b ==> i <= j
    requires SyncedInFile(lives[a].states[i].store, o)
    ensures SyncedInFile(lives[b].states[j].store, o)
    decreases b
  {
    hide SyncedInFile, IsCrash;
    if a == b {
      SyncedStays(lives[a].states, lives[a].steps, i, j, o);
    } else {
      var before := lives[b - 1];
      SyncedSurvives(lives, a, i, b - 1, |before.steps|, o);
      assert Follows(lives[b - 1], lives[b - 1 + 1]);
      StoreAlways(before.states, before.steps, |before.steps|);
      SyncedSurvivesCrash(before.states[|before.steps|].store, lives[b].states[0].store, o);
      SyncedStays(lives[b].states, lives[b].steps, 0, j, o);
    }
  }

  // ----- how long evidence is kept across crashes -----

  /** Bytes appended from moment i of life a to moment j of life b. */
  function AppendedSince(lives: seq<Life>, a: nat, i: nat, b: nat, j: nat): int
    requires a <= b < |lives| && i < |lives[a].states| && j < |lives[b].states|
    requires forall c :: 0 <= c < |lives| ==> |lives[c].states| > 0
    decreases b
  {
    if a == b then Growth(lives[a].states[i], lives[a].states[j])
    else
      AppendedSince(lives, a, i, b - 1, |lives[b - 1].states| - 1)
      + Growth(lives[b].states[0], lives[b].states[j])
  }

  /** Up to moment j of life b: the same limits, each life started well kept, and no rename left a gap. */
  ghost predicate WellKeptUpTo(lives: seq<Life>, a: nat, b: nat, j: nat)
    requires AreLives(lives) && a <= b < |lives| && j < |lives[b].states|
  {
    && (forall c :: a <= c <= b ==> StartsWell(lives[c], lives[a]))
    && (forall c :: a <= c < b ==> !lives[c].states[|lives[c].steps|].g.gapLeft)
    && !lives[b].states[j].g.gapLeft
  }

  ghost predicate StartsWell(life: Life, first: Life)
    requires |life.states| > 0 && |first.states| > 0
  {
    WellKept(life.states[0]) && life.states[0].cfg == first.states[0].cfg
  }

  lemma {:induction false} LogGrows(states: seq<System>, steps: seq<Step>, i: nat, j: nat)
    requires IsRun(states, steps) && i <= j < |states|
    ensures Growth(states[i], states[j]) >= 0 && states[i].cfg == states[j].cfg
    decreases j
  {
    hide StoreInv, Apply, Enabled, Retained;
    if i < j {
      LogGrows(states, steps, i, j - 1);
      StoreAlways(states, steps, j - 1);
      assert Next(states[j - 1], steps[j - 1], states[j - 1 + 1]);
      ConfigIsFixed(states[j - 1], steps[j - 1]);
      var _ := OnlyTheOldestIsEverCut(states[j - 1], steps[j - 1]);
    }
  }

  /** Within one life a line near enough to the end stays in the directory. */
  lemma NamedStays(life: Life, i: nat, j: nat, o: Outcome, far: int)
    requires IsRun(life.states, life.steps) && i <= j < |life.states|
    requires o.Written? && o.record.line != [] && InFile(life.states[i].store, o)
    requires Located(life.states[i].store, life.states[i].cfg.generations, o, far) && far <= |life.states[i].g.log|
    requires WellKept(life.states[0]) && !life.states[j].g.gapLeft
    requires var cfg := life.states[0].cfg;
             far + Growth(life.states[i], life.states[j]) <= cfg.generations * cfg.maxBytes
    ensures var s := life.states[j];
            && Located(s.store, s.cfg.generations, o, far + Growth(life.states[i], s))
            && InFile(s.store, o) && Named(s.store, s.cfg.generations, o.file)
  {
    hide IsRun, WellKept, Located, InFile, Retained, Named;
    var s := life.states[j];
    var now := far + Growth(life.states[i], s);
    LocatedStays(life.states, life.steps, i, j, o, far);
    LogGrows(life.states, life.steps, 0, j);
    RecentLineIsRetained(life.states, life.steps, j, now);
    NamedExactlyWhen(s.store, s.cfg.generations, o, now);
  }

  /** A crash and a restart leave such a line in the directory. */
  lemma RestartKeepsNamed(life: Life, next: Life, o: Outcome, far: int) returns (left: int)
    requires IsRun(life.states, life.steps) && IsRun(next.states, next.steps) && Follows(life, next)
    requires next.states[0].cfg.generations == life.states[|life.steps|].cfg.generations
    requires o.Written? && o.record.line != []
    requires var end := life.states[|life.steps|];
             && SyncedInFile(end.store, o) && Located(end.store, end.cfg.generations, o, far)
             && Named(end.store, end.cfg.generations, o.file)
    ensures var start := next.states[0];
            && SyncedInFile(start.store, o) && Located(start.store, start.cfg.generations, o, left)
            && left <= far && left <= |start.g.log|
  {
    hide Located, Named, SyncedInFile, StoreInv, Retained, Next;
    var end, start := life.states[|life.steps|], next.states[0];
    StoreAlways(life.states, life.steps, |life.steps|);
    SyncedSurvivesCrash(end.store, start.store, o);
    left := LocatedSurvivesCrash(end.store, start.store, start.cfg.generations, o, far);
    SameNamed(end.store, start.store, start.cfg.generations, o.file);
    NamedExactlyWhen(start.store, start.cfg.generations, o, left);
  }

  /** A line of an earlier life stays where it is until generations * maxBytes bytes have been appended. */
  lemma {:induction false} NamedSurvives(lives: seq<Life>, a: nat, i: nat, b: nat, j: nat, o: Outcome, far: int)
    returns (now: int)
    requires AreLives(lives) && a <= b < |lives| && i < |lives[a].states| && j < |lives[b].states|
    requires (a == b ==> i <= j) && WellKeptUpTo(lives, a, b, j)
    requires o.Written? && o.record.line != [] && SyncedInFile(lives[a].states[i].store, o)
    requires var s := lives[a].states[i]; Located(s.store, s.cfg.generations, o, far) && far <= |s.g.log|
    requires var cfg := lives[a].states[0].cfg;
             far + AppendedSince(lives, a, i, b, j) <= cfg.generations * cfg.maxBytes
    ensures var s := lives[b].states[j];
            && Located(s.store, s.cfg.generations, o, now) && now <= far + AppendedSince(lives, a, i, b, j)
            && SyncedInFile(s.store, o) && Named(s.store, s.cfg.generations, o.file)
    decreases b
  {
    hide Located, Named, SyncedInFile, WellKept, IsCrash, Growth, Follows, Next, Init;
    assert StartsWell(lives[b], lives[a]);
    SyncedSurvives(lives, a, i, b, j, o);
    if a == b {
      SyncedIsInFile(lives[a].states[i].store, o);
      NamedStays(lives[a], i, j, o, far);
      now := far + Growth(lives[a].states[i], lives[b].states[j]);
    } else {
      var before, last := lives[b - 1], |lives[b - 1].steps|;
      assert Follows(lives[b - 1], lives[b - 1 + 1]) && StartsWell(before, lives[a]);
      LogGrows(lives[b].states, lives[b].steps, 0, j);
      LogGrows(before.states, before.steps, 0, last);
      assert AppendedSince(lives, a, i, b, j)
          == AppendedSince(lives, a, i, b - 1, last) + Growth(lives[b].states[0], lives[b].states[j]);
      var end := NamedSurvives(lives, a, i, b - 1, last, o, far);
      SyncedSurvives(lives, a, i, b - 1, last, o);
      var left := RestartKeepsNamed(before, lives[b], o, end);
      SyncedIsInFile(lives[b].states[0].store, o);
      NamedStays(lives[b], 0, j, o, left);
      now := left + Growth(lives[b].states[0], lives[b].states[j]);
    }
  }

  lemma SyncedIsInFile(st: Store, o: Outcome)
    requires SyncedInFile(st, o)
    ensures InFile(st, o)
  {
  }

  /** From the start of the line on, at most generations * maxBytes bytes have been appended by moment j of life b. */
  ghost predicate WithinQuota(lives: seq<Life>, a: nat, i: nat, b: nat, j: nat, o: Outcome)
    requires AreLives(lives) && a <= b < |lives| && i < |lives[a].states| && j < |lives[b].states| && o.Written?
  {
    var s := lives[a].states[i];
    |s.g.log| - o.at + AppendedSince(lives, a, i, b, j) <= s.cfg.generations * s.cfg.maxBytes
  }

  /** What is known at moment j of life b of a line that was confirmed by moment i of life a. */
  ghost predicate Survives(lives: seq<Life>, a: nat, i: nat, b: nat, j: nat, o: Outcome)
    requires AreLives(lives) && a <= b < |lives| && i < |lives[a].states| && j < |lives[b].states|
  {
    var s, now := lives[a].states[i], lives[b].states[j];
    && o.Written? && SyncedInFile(now.store, o)
    && (WellKeptUpTo(lives, a, b, j) && WithinQuota(lives, a, i, b, j, o) ==>
          Durable(now.store, s.cfg.generations, o))
  }

  lemma ConfirmedLineSurvives(lives: seq<Life>, a: nat, i: nat, b: nat, j: nat, k: nat)
    requires AreLives(lives) && a <= b < |lives| && i < |lives[a].steps| && j < |lives[b].states|
    requires a == b ==> i < j
    requires lives[a].steps[i].FinishBatch? && SyncPasses(lives[a].states[i], lives[a].steps[i].ok)
    requires var g := lives[a].states[i].g;
             NoWriteFailed(g.outcomes, g.mark) && g.mark <= k < |g.outcomes| && g.outcomes[k].Written?
    ensures Survives(lives, a, i + 1, b, j, lives[a].states[i].g.outcomes[k])
  {
    hide Located, Named, InFile, Unsynced, WellKept, IsCrash, Follows, Next, Init, Retained, StartsWell, NoWriteFailed;
    var states, steps, o := lives[a].states, lives[a].steps, lives[a].states[i].g.outcomes[k];
    var s := states[i + 1];
    LineIsSyncedExactlyWhen(states, steps, i);
    UnexposedWithoutWriteFailure(states, steps, i, k);
    SyncedSurvives(lives, a, i + 1, b, j, o);
    LinesAreAtTheirPlaces(states, steps, i + 1, k);
    LogGrows(states, steps, 0, i + 1);
    var far := |s.g.log| - o.at;
    if WellKeptUpTo(lives, a, b, j) && o.record.line != []
       && far + AppendedSince(lives, a, i + 1, b, j) <= s.cfg.generations * s.cfg.maxBytes
    {
      SameLimits(lives, a, b, j);
      var _ := NamedSurvives(lives, a, i + 1, b, j, o, far);
    }
  }

  lemma SameLimits(lives: seq<Life>, a: nat, b: nat, j: nat)
    requires AreLives(lives) && a <= b < |lives| && j < |lives[b].states| && WellKeptUpTo(lives, a, b, j)
    ensures lives[b].states[j].cfg == lives[a].states[0].cfg
  {
    hide WellKept, Next, Init, Follows;
    assert StartsWell(lives[b], lives[a]);
    LogGrows(lives[b].states, lives[b].steps, 0, j);
  }

  /**
   A receipt that confirms an id, for a batch in which no `write_all` failed: each record of the
   batch written with that id stays whole and synced in its file however often the power fails,
   and stays in the directory at least until generations * maxBytes bytes have been appended from
   its start on, in however many lives, provided each life found contiguous full generations and no
   failed rename left a gap.
   */
  lemma ConfirmedEvidenceSurvives(lives: seq<Life>, a: nat, i: nat, b: nat, j: nat, id: string)
    requires AreLives(lives) && a <= b < |lives| && i < |lives[a].steps| && lives[a].steps[i].FinishBatch?
    requires j < |lives[b].states| && (a == b ==> i < j)
    requires NoWriteFailed(lives[a].states[i].g.outcomes, lives[a].states[i].g.mark)
    requires |lives[a].states[i + 1].g.answers| > 0
    requires lives[a].states[i + 1].g.answers[|lives[a].states[i + 1].g.answers| - 1].receipt.Confirms(id)
    ensures var g := lives[a].states[i].g;
            && (exists k :: IsWrittenAs(g.outcomes, g.mark, k, id))
            && forall k :: IsWrittenAs(g.outcomes, g.mark, k, id) ==> Survives(lives, a, i + 1, b, j, g.outcomes[k])
  {
    hide Survives, StaysDurable, NoWriteFailed, Follows;
    var s, next := lives[a].states[i], lives[a].states[i + 1];
    ConfirmedEvidenceIsDurable(lives[a].states, lives[a].steps, i, i + 1, id);
    assert Next(s, lives[a].steps[i], next);
    assert next.g.answers[|next.g.answers| - 1].receipt == Receipt(SyncPasses(s, lives[a].steps[i].ok), s.w.confirmed);
    forall k: nat | IsWrittenAs(s.g.outcomes, s.g.mark, k, id)
      ensures Survives(lives, a, i + 1, b, j, s.g.outcomes[k])
    {
      ConfirmedLineSurvives(lives, a, i, b, j, k);
    }
  }

  lemma StoreIsValid(states: seq<System>, steps: seq<Step>, i: nat)
    requires IsRun(states, steps) && i < |states|
    ensures states[i].store.Valid()
  {
    StoreAlways(states, steps, i);
  }

  /** In the run whose receipt is wrong, a crash takes the confirmed line. */
  lemma WrongReceiptCanLoseEvidence() returns (states: seq<System>, after: Store)
    ensures IsRun(states, TORN_BATCH)
    ensures var end := states[|TORN_BATCH|];
            && |end.g.answers| == 1 && end.g.answers[0].receipt.Confirms("a")
            && |end.g.outcomes| == 2 && end.g.outcomes[0].Written? && end.g.outcomes[0].record == FIRST
            && IsCrash(end.store, after) && !Present(after, end.cfg.generations, end.g.outcomes[0])
  {
    hide TORN_BATCH, StoreInv, IsCrash, Present, Next, Init;
    states := ReceiptCanBeWrong();
    var end := states[|TORN_BATCH|];
    StoreIsValid(states, TORN_BATCH, |TORN_BATCH|);
    DurableExactlyWhenSafe(end.store, end.cfg.generations, end.g.outcomes[0]);
    after :| IsCrash(end.store, after) && !Present(after, end.cfg.generations, end.g.outcomes[0]);
  }
}
