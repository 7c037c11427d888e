/**
 When a restart finds what the retention of recent bytes asks for: in lives without a failed
 `write_all` every rotated generation has been synced up to the size limit, so no loss of power
 outside a shift leaves one short or missing.
 */
module LogRestart {
  import opened Prelude
  import opened LogStore
  import opened LogProtocol
  import opened LogStoreInvariant
  import opened LogRetention
  import opened LogEvidence
  import opened LogReceipts
  import opened LogCrash

  /** Of file f at least `size` bytes have been synced. */
  ghost predicate SyncedTo(st: Store, f: nat, size: nat) {
    f < |st.files| ==> st.files[f].synced >= size
  }

  ghost predicate SyncedFull(st: Store, n: nat, size: nat) {
    forall i :: 1 <= i <= n && i in st.names ==> SyncedTo(st, st.names[i], size)
  }

  /** The active file is being retired, and its handle is closed. */
  predicate Closing(pc: Pc) {
    (pc.Scanning? && pc.index > 0) || pc.Removing? || pc.Renaming?
  }

  /**
   Without a failed write the handle is closed only on a file that has just been synced, or before
   one was opened; in the second case the writer believes the active file to be empty.
   */
  ghost predicate Settled(s: System) {
    && SyncedFull(s.store, s.cfg.generations, s.cfg.maxBytes)
    && (s.w.handle.None? && !Shifting(s.w.pc) ==> s.w.approxLen == 0 && s.w.linesSinceStat == 0)
    && (Closing(s.w.pc) && 0 in s.store.names ==> SyncedTo(s.store, s.store.names[0], s.cfg.maxBytes))
  }

  /** Files keep their synced bytes, and rotated generations their names. */
  lemma SyncedFullGrows(a: Store, b: Store, n: nat, size: nat)
    requires a.Valid() && SyncedFull(a, n, size) && Grown(a, b)
    requires forall i :: i in b.names && i > 0 ==> i in a.names && b.names[i] == a.names[i]
    ensures SyncedFull(b, n, size)
  {
  }

  lemma SettledChannelStep(s: System, step: Step)
    requires Settled(s) && Enabled(s, step) && IsChannelStep(step)
    ensures Settled(Apply(s, step))
  {
    hide SyncedFull, SyncedTo, Work;
    var next := Apply(s, step);
    assert next.store == s.store && next.cfg == s.cfg && next.w.handle == s.w.handle;
    assert next.w.approxLen == s.w.approxLen && next.w.linesSinceStat == s.w.linesSinceStat;
    assert next.w.pc == s.w.pc || (s.w.pc == Ready && next.w.pc in {Ready, Entry, Finishing});
  }

  lemma SettledQuietStep(s: System, step: Step)
    requires StoreInv(s) && Settled(s) && Enabled(s, step) && s.cfg.maxBytes > 0
    requires step.ExporterLock? || step.ExporterRead? || step.ExporterUnlock?
             || step.Enter? || step.LockDirectory? || step.Scan? || step.EndRotation?
    ensures Settled(Apply(s, step))
  {
    hide SyncedFull, SyncedTo, Retained, Store.ContentAt, IsSuffix;
  }

  lemma SettledExternalAppend(s: System, bytes: Bytes)
    requires StoreInv(s) && RetentionInv(s) && Settled(s) && s.cfg.maxBytes > 0
    ensures Settled(ApplyExternalAppend(s, bytes))
  {
    hide Retained, IsSuffix, ShiftInv, Shape, FullRotated;
    if Closing(s.w.pc) { RetiringIsFull(s); }
    var after := s.store.AppendToActive(bytes);
    StoreOperationsGrow(s.store, 0, bytes);
    SyncedFullGrows(s.store, after, s.cfg.generations, s.cfg.maxBytes);
  }

  lemma SettledSync(s: System, ok: bool)
    requires StoreInv(s) && Settled(s) && RetentionInv(s) && s.w.pc == Syncing && s.cfg.maxBytes > 0
    ensures Settled(ApplySyncForRotation(s, ok))
  {
    hide Retained, IsSuffix, ShiftInv, Shape, FullRotated;
    if s.w.handle.Some? {
      StoreOperationsGrow(s.store, s.w.handle.value, []);
      SyncedFullGrows(s.store, SyncHandle(s).store, s.cfg.generations, s.cfg.maxBytes);
      RetiringIsFull(s);
    }
  }

  lemma SettledFinishBatch(s: System, ok: bool)
    requires StoreInv(s) && Settled(s) && s.w.pc == Finishing && s.g.taken > 0
    ensures Settled(ApplyFinishBatch(s, ok))
  {
    hide Retained, IsSuffix, ShiftInv;
    if s.w.handle.Some? {
      StoreOperationsGrow(s.store, s.w.handle.value, []);
      SyncedFullGrows(s.store, SyncHandle(s).store, s.cfg.generations, s.cfg.maxBytes);
    }
  }

  lemma SettledShift(s: System, step: Step)
    requires StoreInv(s) && Settled(s) && Enabled(s, step) && (step.ClearSlot? || step.RenameUp?)
    ensures Settled(Apply(s, step))
  {
    hide Retained, IsSuffix, HandleInv, Store.ContentAt;
  }

  lemma SettledOpen(s: System, ok: bool, statOk: bool)
    requires StoreInv(s) && Settled(s) && Enabled(s, Open(ok, statOk))
    ensures Settled(ApplyOpen(s, ok, statOk))
  {
    hide Retained, IsSuffix, ShiftInv, Store.ContentAt;
    StoreOperationsGrow(s.store, 0, []);
    SyncedFullGrows(s.store, s.store.OpenActive(), s.cfg.generations, s.cfg.maxBytes);
  }

  lemma SettledWritten(s: System)
    requires StoreInv(s) && Settled(s) && Enabled(s, WriteAll(None))
    ensures Settled(ApplyWriteAll(s, None))
  {
    hide Retained, IsSuffix, ShiftInv, Store.ContentAt;
    var f, line := s.w.handle.value, s.w.todo[0].line;
    StoreOperationsGrow(s.store, f, line);
    SyncedFullGrows(s.store, s.store.Append(f, line), s.cfg.generations, s.cfg.maxBytes);
  }

  /** Only a failed write unsettles the writer. */
  lemma SettledStep(s: System, step: Step)
    requires StoreInv(s) && RetentionInv(s) && Settled(s) && Enabled(s, step) && s.cfg.maxBytes > 0
    requires !(step.WriteAll? && step.torn.Some?)
    ensures Settled(Apply(s, step))
  {
    hide StoreInv, RetentionInv, Settled;
    match step
    case ExternalAppend(bytes) => SettledExternalAppend(s, bytes);
    case SyncForRotation(ok) => SettledSync(s, ok);
    case ClearSlot(_) => SettledShift(s, step);
    case RenameUp(_) => SettledShift(s, step);
    case Open(ok, statOk) => SettledOpen(s, ok, statOk);
    case WriteAll(torn) => SettledWritten(s);
    case FinishBatch(ok) => SettledFinishBatch(s, ok);
    case Submit(_, _) => SettledChannelStep(s, step);
    case SendOnce(_, _) => SettledChannelStep(s, step);
    case Receive => SettledChannelStep(s, step);
    case _ => SettledQuietStep(s, step);
  }

  /** A failed write leaves its outcome. */
  lemma TornWriteIsRecorded(s: System, step: Step)
    requires Enabled(s, step) && step.WriteAll? && step.torn.Some?
    ensures !NoWriteFailed(Apply(s, step).g.outcomes, 0)
  {
    hide Store.Append;
    assert Apply(s, step).g.outcomes[|s.g.outcomes|].WriteFailed?;
  }

  lemma NoneFailedBefore(a: seq<Outcome>, b: seq<Outcome>)
    requires a <= b && NoWriteFailed(b, 0)
    ensures NoWriteFailed(a, 0)
  {
    forall k | 0 <= k < |a| ensures !a[k].WriteFailed? {
      assert b[k] == a[k];
    }
  }

  /** Over a life that starts on full synced generations and in which no write fails. */
  lemma {:induction false} SettledAlways(states: seq<System>, steps: seq<Step>, i: nat)
    requires IsRun(states, steps) && i < |states| && states[0].cfg.maxBytes > 0
    requires WellKept(states[0]) && SyncedFull(states[0].store, states[0].cfg.generations, states[0].cfg.maxBytes)
    requires NoWriteFailed(states[i].g.outcomes, 0)
    ensures Settled(states[i]) && states[i].cfg == states[0].cfg
  {
    hide StoreInv, RetentionInv, Apply, Enabled, WellKept, SyncedFull, NoWriteFailed, Grown;
    if i > 0 {
      var s, step := states[i - 1], steps[i - 1];
      assert Next(s, step, states[i - 1 + 1]);
      StoreAlways(states, steps, i - 1);
      EveryStepGrows(s, step);
      NoneFailedBefore(s.g.outcomes, states[i].g.outcomes);
      SettledAlways(states, steps, i - 1);
      RetentionAlways(states, steps, i - 1);
      ConfigIsFixed(s, step);
      if step.WriteAll? && step.torn.Some? { TornWriteIsRecorded(s, step); }
      SettledStep(s, step);
    }
  }

  /** The power may go at this moment without costing a generation. */
  ghost predicate EndsClean(s: System) {
    NoWriteFailed(s.g.outcomes, 0) && !s.g.gapLeft && Hole(s.w.pc) == 0
  }

  /** The directory an undisturbed life finds, and leaves. */
  ghost predicate StartsFull(s: System) {
    WellKept(s) && SyncedFull(s.store, s.cfg.generations, s.cfg.maxBytes)
  }

  lemma CutKeepsSyncedFull(before: Store, after: Store, n: nat, size: nat)
    requires before.Valid() && IsCrash(before, after) && SyncedFull(before, n, size)
    ensures SyncedFull(after, n, size)
  {
    forall i | 1 <= i <= n && i in after.names ensures SyncedTo(after, after.names[i], size) {
      assert SyncedTo(before, before.names[i], size);
      assert IsCut(before.files[before.names[i]], after.files[before.names[i]]);
    }
  }

  lemma SyncedFullIsFull(st: Store, n: nat, size: nat)
    requires st.Valid() && SyncedFull(st, n, size)
    ensures FullRotated(st, n, size)
  {
    forall i | 1 <= i <= n && i in st.names ensures |st.ContentAt(i)| >= size {
      assert SyncedTo(st, st.names[i], size);
    }
  }

  /** A life that ends clean, whatever tail the crash takes, leaves the next one what it found itself. */
  lemma CleanRestart(life: Life, next: Life)
    requires IsRun(life.states, life.steps) && IsRun(next.states, next.steps) && Follows(life, next)
    requires StartsFull(life.states[0]) && EndsClean(life.states[|life.steps|])
    requires next.states[0].cfg == life.states[0].cfg && life.states[0].cfg.maxBytes > 0
    ensures StartsFull(next.states[0])
  {
    hide Next, Init, IsCrash, SyncedFull, NoWriteFailed, FullRotated, Shape, Retained, HandleInv, ShiftInv, Store.Valid;
    var end, start, last := life.states[|life.steps|], next.states[0], |life.steps|;
    var n, size := start.cfg.generations, start.cfg.maxBytes;
    SettledAlways(life.states, life.steps, last);
    StoreAlways(life.states, life.steps, last);
    RetentionAlways(life.states, life.steps, last);
    StoreAlways(next.states, next.steps, 0);
    CutKeepsSyncedFull(end.store, start.store, n, size);
    SyncedFullIsFull(start.store, n, size);
    SameNames(end.store, start.store);
  }

  lemma SameNames(before: Store, after: Store)
    requires IsCrash(before, after)
    ensures after.names == before.names
  {
  }

  /**
   Up to moment j of life b: positive limits that never change, a first life on full synced
   generations, and each life but the last without a failed write or a gap and cut short outside
   a shift.
   */
  ghost predicate CleanUpTo(lives: seq<Life>, a: nat, b: nat, j: nat)
    requires AreLives(lives) && a <= b < |lives| && j < |lives[b].states|
  {
    && StartsFull(lives[a].states[0]) && lives[a].states[0].cfg.maxBytes > 0
    && (forall c :: a <= c <= b ==> SameStart(lives[c], lives[a]))
    && (forall c :: a <= c < b ==> EndsClean(lives[c].states[|lives[c].steps|]))
    && !lives[b].states[j].g.gapLeft
  }

  ghost predicate SameStart(life: Life, first: Life)
    requires |life.states| > 0 && |first.states| > 0
  {
    life.states[0].cfg == first.states[0].cfg
  }

  lemma {:induction false} EachLifeStartsFull(lives: seq<Life>, a: nat, b: nat, j: nat, c: nat)
    requires AreLives(lives) && a <= c <= b < |lives| && j < |lives[b].states| && CleanUpTo(lives, a, b, j)
    ensures StartsFull(lives[c].states[0])
  {
    hide StartsFull, EndsClean, Next, Init, Follows;
    if c > a {
      EachLifeStartsFull(lives, a, b, j, c - 1);
      assert Follows(lives[c - 1], lives[c - 1 + 1]);
      assert SameStart(lives[c], lives[a]) && SameStart(lives[c - 1], lives[a]);
      assert EndsClean(lives[c - 1].states[|lives[c - 1].steps|]);
      CleanRestart(lives[c - 1], lives[c]);
    }
  }

  /** Such lives satisfy all that the survival of confirmed evidence asks for. */
  lemma CleanLivesAreWellKept(lives: seq<Life>, a: nat, b: nat, j: nat)
    requires AreLives(lives) && a <= b < |lives| && j < |lives[b].states| && CleanUpTo(lives, a, b, j)
    ensures WellKeptUpTo(lives, a, b, j)
  {
    hide Next, Init, Follows, WellKept, SyncedFull, NoWriteFailed;
    forall c | a <= c <= b ensures StartsWell(lives[c], lives[a]) {
      EachLifeStartsFull(lives, a, b, j, c);
      assert SameStart(lives[c], lives[a]);
    }
    forall c | a <= c < b ensures !lives[c].states[|lives[c].steps|].g.gapLeft {
      assert EndsClean(lives[c].states[|lives[c].steps|]);
    }
  }

  /**
   A receipt that confirms an id, for a batch in which no `write_all` failed, over clean lives: each
   record written with that id is in the directory, synced, until generations * maxBytes bytes have
   been appended from the start of its line on, counted over all lives since.
   */
  lemma ConfirmedEvidenceLasts(lives: seq<Life>, a: nat, i: nat, b: nat, j: nat, id: string)
    requires AreLives(lives) && a <= b < |lives| && i < |lives[a].steps| && lives[a].steps[i].FinishBatch?
    requires j < |lives[b].states| && (a == b ==> i < j) && CleanUpTo(lives, a, b, j)
    requires NoWriteFailed(lives[a].states[i].g.outcomes, lives[a].states[i].g.mark)
    requires |lives[a].states[i + 1].g.answers| > 0
    requires lives[a].states[i + 1].g.answers[|lives[a].states[i + 1].g.answers| - 1].receipt.Confirms(id)
    ensures var g, s := lives[a].states[i].g, lives[a].states[i + 1];
            && (exists k :: IsWrittenAs(g.outcomes, g.mark, k, id))
            && forall k :: IsWrittenAs(g.outcomes, g.mark, k, id)
                           && WithinQuota(lives, a, i + 1, b, j, g.outcomes[k]) ==>
                             Durable(lives[b].states[j].store, s.cfg.generations, g.outcomes[k])
  {
    hide Next, Init, Follows, WellKeptUpTo, CleanUpTo, NoWriteFailed, Durable;
    CleanLivesAreWellKept(lives, a, b, j);
    ConfirmedEvidenceSurvives(lives, a, i, b, j, id);
    var g := lives[a].states[i].g;
    assert forall k :: IsWrittenAs(g.outcomes, g.mark, k, id) ==> Survives(lives, a, i + 1, b, j, g.outcomes[k]);
  }
}
