/**
 How much is kept: as long as no failed rename leaves a slot empty below an occupied one, the
 newest generations * maxBytes bytes ever appended are always on disk.
 */
module LogRetention {
  import opened Prelude
  import opened LogStore
  import opened LogProtocol
  import opened LogStoreInvariant

  /** The slot the shift has reached; 0 when no shift is under way. */
  function Hole(pc: Pc): nat {
    match pc
    case Scanning(index) => index
    case Removing(index) => index
    case Renaming(index) => index
    case _ => 0
  }

  /** Below the oldest slot, generations are contiguous on either side of `hole`. */
  ghost predicate Shape(names: map<nat, nat>, hole: nat, n: nat) {
    && (forall i, j :: 0 <= i <= j < hole && j in names ==> i in names)
    && (forall i, j :: hole < i <= j < n && j in names ==> i in names)
    && (hole > 0 ==> forall j :: hole < j < n && j in names ==> hole - 1 in names)
  }

  ghost predicate FullRotated(st: Store, n: nat, size: nat) {
    forall i :: 1 <= i <= n && i in st.names ==> |st.ContentAt(i)| >= size
  }

  /** The active file is about to be retired. */
  predicate Retiring(pc: Pc) {
    pc == Locking || pc == Syncing || (pc.Scanning? && pc.index > 0) || pc.Removing? || pc.Renaming?
  }

  /** generations * maxBytes, as a sum over the generations. */
  function Quota(n: nat, size: nat): nat {
    if n == 0 then 0 else size + Quota(n - 1, size)
  }

  lemma {:induction false} QuotaIsProduct(n: nat, size: nat)
    ensures Quota(n, size) == n * size
  {
    if n > 0 {
      QuotaIsProduct(n - 1, size);
      assert n * size == (n - 1) * size + size;
    }
  }

  /** If each generation 1..n holds at least `size` bytes, together they hold the quota. */
  lemma {:induction false} FullGenerationsHold(st: Store, n: nat, size: nat)
    requires forall i :: 0 < i <= n ==> |st.ContentAt(i)| >= size
    ensures |Older(st, n)| >= Quota(n, size)
  {
    if n > 0 {
      FullGenerationsHold(st, n - 1, size);
    }
  }

  ghost predicate Kept(s: System) {
    Retained(s.store, s.cfg.generations) == s.g.log
    || |Retained(s.store, s.cfg.generations)| >= Quota(s.cfg.generations, s.cfg.maxBytes)
  }

  ghost predicate RetentionInv(s: System) {
    && (Retiring(s.w.pc) ==> s.w.approxLen >= s.cfg.maxBytes)
    && (!s.g.gapLeft && s.cfg.maxBytes > 0 ==>
          && Shape(s.store.names, Hole(s.w.pc), s.cfg.generations)
          && FullRotated(s.store, s.cfg.generations, s.cfg.maxBytes)
          && Kept(s))
  }

  /** A directory that an earlier run with the same limits may have left: contiguous, full generations. */
  ghost predicate WellKept(s: System) {
    Shape(s.store.names, 0, s.cfg.generations) && FullRotated(s.store, s.cfg.generations, s.cfg.maxBytes)
  }

  lemma RetiringIsFull(s: System)
    requires StoreInv(s) && RetentionInv(s) && Retiring(s.w.pc) && s.cfg.maxBytes > 0
    ensures 0 in s.store.names && |s.store.ContentAt(0)| >= s.cfg.maxBytes
  {
  }

  /** When the oldest generation is deleted every younger one is present and full. */
  lemma DeletingLeavesEnough(s: System)
    requires StoreInv(s) && RetentionInv(s) && s.w.pc == Removing(s.cfg.generations)
    requires s.cfg.generations in s.store.names && s.cfg.maxBytes > 0 && !s.g.gapLeft
    ensures forall i :: 0 <= i < s.cfg.generations ==> i in s.store.names && |s.store.ContentAt(i)| >= s.cfg.maxBytes
    ensures |Retained(s.store, s.cfg.generations - 1)| >= Quota(s.cfg.generations, s.cfg.maxBytes)
  {
    hide Older, IsSuffix;
    var n, size := s.cfg.generations, s.cfg.maxBytes;
    RetiringIsFull(s);
    forall i | 0 <= i < n ensures i in s.store.names && |s.store.ContentAt(i)| >= size {
      assert n - 1 in s.store.names && i in s.store.names;
    }
    FullGenerationsHold(s.store, n - 1, size);
  }

  lemma ShapeRemoveOldest(names: map<nat, nat>, n: nat)
    requires Shape(names, n, n) && n > 0
    ensures Shape(names - {n}, n, n)
  {
  }

  lemma RetentionDelete(s: System)
    requires StoreInv(s) && RetentionInv(s) && s.w.pc == Removing(s.cfg.generations)
    requires s.cfg.generations in s.store.names && s.cfg.maxBytes > 0 && !s.g.gapLeft
    ensures var after := s.store.Remove(s.cfg.generations);
            && Shape(after.names, s.cfg.generations, s.cfg.generations)
            && FullRotated(after, s.cfg.generations, s.cfg.maxBytes)
            && |Retained(after, s.cfg.generations)| >= Quota(s.cfg.generations, s.cfg.maxBytes)
  {
    var n := s.cfg.generations;
    DeletingLeavesEnough(s);
    RemoveOldestCutsPrefix(s.store, n);
    ShapeRemoveOldest(s.store.names, n);
    FullAfterRemove(s.store, n, n, s.cfg.maxBytes);
  }

  lemma RetentionClearSlot(s: System, ok: bool)
    requires StoreInv(s) && RetentionInv(s) && s.w.pc.Removing?
    ensures RetentionInv(ApplyClearSlot(s, ok))
  {
    hide Older, Retained, IsSuffix;
    if s.w.pc.index in s.store.names && ok && s.cfg.maxBytes > 0 && !s.g.gapLeft {
      assert s.w.pc == Removing(s.cfg.generations);
      RetentionDelete(s);
    }
  }

  lemma FullAfterRemove(st: Store, index: nat, n: nat, size: nat)
    requires FullRotated(st, n, size)
    ensures FullRotated(st.Remove(index), n, size)
  {
    forall i | 1 <= i <= n && i in st.Remove(index).names ensures |st.Remove(index).ContentAt(i)| >= size {
      assert st.Remove(index).ContentAt(i) == st.ContentAt(i);
    }
  }

  lemma FullAfterRename(st: Store, index: nat, n: nat, size: nat)
    requires FullRotated(st, n, size) && 0 < index <= n && index - 1 in st.names
    requires |st.ContentAt(index - 1)| >= size
    ensures FullRotated(st.Rename(index - 1, index), n, size)
  {
    var after := st.Rename(index - 1, index);
    forall i | 1 <= i <= n && i in after.names ensures |after.ContentAt(i)| >= size {
      assert after.ContentAt(i) == if i == index then st.ContentAt(index - 1) else st.ContentAt(i);
    }
  }

  /** Moving generation index-1 up moves the hole down by one. */
  lemma ShapeRename(names: map<nat, nat>, index: nat, n: nat)
    requires Shape(names, index, n) && 0 < index <= n && index - 1 in names && index !in names
    ensures Shape((names - {index - 1})[index := names[index - 1]], index - 1, n)
  {
    var after := (names - {index - 1})[index := names[index - 1]];
    forall i, j | index - 1 < i <= j < n && j in after ensures i in after {
      if i > index { assert j in names; }
    }
    if index - 1 > 0 {
      assert index - 2 in names && index - 2 in after;
    }
  }

  /** A rename that fails leaves no gap unless the slot above the one it was for is occupied. */
  lemma ShapeRenameFails(names: map<nat, nat>, index: nat, n: nat)
    requires Shape(names, index, n) && 0 < index <= n && (index < n ==> index !in names)
    requires !(index + 1 < n && index + 1 in names)
    ensures Shape(names, 0, n)
  {
    forall i, j | 0 < i <= j < n && j in names ensures i in names {
      if j > index && index + 1 !in names { assert false; }
    }
  }

  lemma RetentionRenameUp(s: System, ok: bool)
    requires StoreInv(s) && RetentionInv(s) && s.w.pc.Renaming?
    ensures RetentionInv(ApplyRenameUp(s, ok))
  {
    hide Older, Retained, IsSuffix, Shape, Quota;
    var n, index := s.cfg.generations, s.w.pc.index;
    if s.cfg.maxBytes > 0 && !s.g.gapLeft {
      if ok {
        RetiringIsFull(s);
        RenameKeepsRetained(s.store, index - 1, n);
        ShapeRename(s.store.names, index, n);
        FullAfterRename(s.store, index, n, s.cfg.maxBytes);
      } else if !LeavesGap(s, index) {
        ShapeRenameFails(s.store.names, index, n);
      }
    }
  }

  lemma RetentionSync(s: System)
    requires StoreInv(s) && RetentionInv(s) && (s.w.pc == Syncing || s.w.pc == Finishing)
    requires s.cfg.maxBytes > 0 && !s.g.gapLeft
    ensures Kept(SyncHandle(s)) && SyncHandle(s).store.names == s.store.names
    ensures FullRotated(SyncHandle(s).store, s.cfg.generations, s.cfg.maxBytes)
  {
    hide Older, Retained, IsSuffix;
    StoreSync(s);
  }

  lemma RetentionSyncForRotation(s: System, ok: bool)
    requires StoreInv(s) && RetentionInv(s) && s.w.pc == Syncing
    ensures RetentionInv(ApplySyncForRotation(s, ok))
  {
    hide Older, Retained, IsSuffix;
    if SyncPasses(s, ok) && s.cfg.maxBytes > 0 && !s.g.gapLeft {
      RetentionSync(s);
      RetiringIsFull(s);
      assert Shape(s.store.names, s.cfg.generations, s.cfg.generations);
    }
  }

  lemma RetentionFinishBatch(s: System, ok: bool)
    requires StoreInv(s) && RetentionInv(s) && s.w.pc == Finishing && s.g.taken > 0
    ensures RetentionInv(ApplyFinishBatch(s, ok))
  {
    hide Older, Retained, IsSuffix;
    if s.cfg.maxBytes > 0 && !s.g.gapLeft {
      RetentionSync(s);
    }
  }

  /** Bytes added at the end of the active file. */
  lemma RetentionGrowth(s: System, next: System, more: Bytes)
    requires StoreInv(s) && RetentionInv(s) && s.cfg.maxBytes > 0 && !s.g.gapLeft
    requires next.cfg == s.cfg && next.g.log == s.g.log + more && Hole(next.w.pc) == Hole(s.w.pc)
    requires next.store.names == s.store.names
             || (0 !in s.store.names && next.store.names.Keys == s.store.names.Keys + {0})
    requires forall i :: i > 0 ==> next.store.ContentAt(i) == s.store.ContentAt(i)
    requires Retained(next.store, next.cfg.generations) == Retained(s.store, s.cfg.generations) + more
    ensures Kept(next) && FullRotated(next.store, next.cfg.generations, next.cfg.maxBytes)
    ensures Hole(s.w.pc) == 0 || 0 in s.store.names ==> Shape(next.store.names, Hole(next.w.pc), next.cfg.generations)
  {
    hide Older, Retained, IsSuffix, Quota, ShiftInv;
  }

  lemma RetentionExternalAppend(s: System, bytes: Bytes)
    requires StoreInv(s) && RetentionInv(s)
    ensures RetentionInv(ApplyExternalAppend(s, bytes))
  {
    hide Older, Retained, IsSuffix;
    if s.cfg.maxBytes > 0 && !s.g.gapLeft {
      ExternalAppendExtendsRetained(s.store, bytes, s.cfg.generations);
      RetentionGrowth(s, ApplyExternalAppend(s, bytes), bytes);
      if Retiring(s.w.pc) { RetiringIsFull(s); }
    }
  }

  lemma RetentionOpen(s: System, ok: bool, statOk: bool)
    requires StoreInv(s) && RetentionInv(s) && s.w.pc == Opening && s.w.todo != []
    ensures RetentionInv(ApplyOpen(s, ok, statOk))
  {
    hide Older, Retained, IsSuffix, Quota, ShiftInv, Store.ContentAt;
    OpenKeepsRetained(s.store, s.cfg.generations);
  }

  lemma RetentionWriteAll(s: System, torn: Option<nat>)
    requires StoreInv(s) && RetentionInv(s) && Enabled(s, WriteAll(torn))
    ensures RetentionInv(ApplyWriteAll(s, torn))
  {
    hide Older, Retained, IsSuffix;
    if s.cfg.maxBytes > 0 && !s.g.gapLeft {
      var line := s.w.todo[0].line;
      var more := if torn.None? then line else line[..torn.value];
      AppendExtendsRetained(s.store, more, s.cfg.generations);
      RetentionGrowth(s, ApplyWriteAll(s, torn), more);
    }
  }

  lemma RetentionScan(s: System)
    requires StoreInv(s) && RetentionInv(s) && s.w.pc.Scanning? && s.w.pc.index > 0
    ensures RetentionInv(ApplyScan(s))
  {
    hide Older, Retained, IsSuffix, Quota;
    if s.cfg.maxBytes > 0 && !s.g.gapLeft {
      RetiringIsFull(s);
    }
  }

  lemma RetentionChannelStep(s: System, step: Step)
    requires StoreInv(s) && RetentionInv(s) && Enabled(s, step) && IsChannelStep(step)
    ensures RetentionInv(Apply(s, step))
  {
    hide Older, Retained, IsSuffix, Shape, FullRotated, Quota, ShiftInv, Work, Store.ContentAt;
    var next := Apply(s, step);
    assert next.store == s.store && next.g.log == s.g.log && next.cfg == s.cfg && next.g.gapLeft == s.g.gapLeft;
    assert Hole(next.w.pc) == Hole(s.w.pc) && (next.w.pc == Aborted ==> s.w.pc == Aborted);
    assert Retiring(next.w.pc) ==> next.w.approxLen == s.w.approxLen;
  }

  lemma RetentionQuietStep(s: System, step: Step)
    requires StoreInv(s) && RetentionInv(s) && Enabled(s, step)
    requires step.ExporterLock? || step.ExporterRead? || step.ExporterUnlock?
             || step.Enter? || step.LockDirectory? || step.EndRotation?
    ensures RetentionInv(Apply(s, step))
  {
    hide Older, Retained, IsSuffix, Shape, FullRotated, Quota, ShiftInv, Work, Store.ContentAt;
    var next := Apply(s, step);
    assert next.store == s.store && next.g.log == s.g.log && next.cfg == s.cfg
           && next.g.gapLeft == s.g.gapLeft;
    assert Hole(next.w.pc) == Hole(s.w.pc) && (next.w.pc == Aborted ==> s.w.pc == Aborted);
    assert Retiring(next.w.pc) ==> next.w.approxLen == s.w.approxLen || step.Enter?;
  }

  lemma RetentionStep(s: System, step: Step)
    requires StoreInv(s) && RetentionInv(s) && Enabled(s, step)
    ensures RetentionInv(Apply(s, step))
  {
    match step
    case ExternalAppend(bytes) => RetentionExternalAppend(s, bytes);
    case SyncForRotation(ok) => RetentionSyncForRotation(s, ok);
    case Scan => RetentionScan(s);
    case ClearSlot(ok) => RetentionClearSlot(s, ok);
    case RenameUp(ok) => RetentionRenameUp(s, ok);
    case Open(ok, statOk) => RetentionOpen(s, ok, statOk);
    case WriteAll(torn) => RetentionWriteAll(s, torn);
    case FinishBatch(ok) => RetentionFinishBatch(s, ok);
    case Submit(_, _) => RetentionChannelStep(s, step);
    case SendOnce(_, _) => RetentionChannelStep(s, step);
    case Receive => RetentionChannelStep(s, step);
    case _ => RetentionQuietStep(s, step);
  }

  lemma {:induction false} RetentionAlways(states: seq<System>, steps: seq<Step>, i: nat)
    requires IsRun(states, steps) && i < |states| && WellKept(states[0])
    ensures RetentionInv(states[i]) && states[i].cfg == states[0].cfg
  {
    hide Older, Retained, Apply, Enabled, StoreInv;
    if i > 0 {
      RetentionAlways(states, steps, i - 1);
      StoreAlways(states, steps, i - 1);
      assert Next(states[i - 1], steps[i - 1], states[i - 1 + 1]);
      RetentionStep(states[i - 1], steps[i - 1]);
      ConfigIsFixed(states[i - 1], steps[i - 1]);
    }
  }

  /**
   Until a failed rename leaves a gap (`LeavesGap`), the last min(total, generations * maxBytes)
   bytes ever appended are on disk at every instant, also in the middle of a rotation and whatever
   locks, syncs, stats, removes, opens, writes or other renames fail and whatever other processes
   append. `LogRetentionGap` has a run in which such a rename costs bytes.
   */
  lemma RecentBytesAreOnDisk(states: seq<System>, steps: seq<Step>, i: nat)
    requires IsRun(states, steps) && i < |states| && WellKept(states[0])
    requires !states[i].g.gapLeft
    ensures var s := states[i];
            var kept := Min(|s.g.log|, s.cfg.generations * s.cfg.maxBytes);
            && kept >= 0
            && IsSuffix(s.g.log[|s.g.log| - kept..], Retained(s.store, s.cfg.generations))
  {
    hide Older, Retained, Shape, FullRotated, ShiftInv, HandleInv, Store.Valid, Quota;
    RetentionAlways(states, steps, i);
    StoreAlways(states, steps, i);
    var s := states[i];
    var retained := Retained(s.store, s.cfg.generations);
    var kept := Min(|s.g.log|, s.cfg.generations * s.cfg.maxBytes);
    QuotaIsProduct(s.cfg.generations, s.cfg.maxBytes);
    assert kept <= |retained|;
    var cut := |s.g.log| - |retained|;
    assert s.g.log[cut..][|retained| - kept..] == s.g.log[|s.g.log| - kept..];
  }
}
