/**
 What every reachable state keeps about the directory: handle and names agree, and the
 retained generations are, oldest first, the end of everything ever appended.
 */
module LogStoreInvariant {
  import opened Prelude
  import opened LogStore
  import opened LogProtocol

  /** The writer is between taking the directory lock and dropping it. */
  predicate Rotating(pc: Pc) {
    pc.Syncing? || Shifting(pc)
  }

  /** `rotate_log_files` is running, or has just returned. */
  predicate Shifting(pc: Pc) {
    pc.Scanning? || pc.Removing? || pc.Renaming? || pc.Aborted?
  }

  /** Only the oldest slot may be occupied when the shift reaches it. */
  ghost predicate ShiftInv(s: System) {
    var n, pc := s.cfg.generations, s.w.pc;
    && (pc.Scanning? ==> pc.index <= n && (0 < pc.index < n ==> pc.index !in s.store.names))
    && (pc.Removing? ==> 0 < pc.index <= n && pc.index - 1 in s.store.names
                         && (pc.index < n ==> pc.index !in s.store.names))
    && (pc.Renaming? ==> 0 < pc.index <= n && pc.index - 1 in s.store.names && pc.index !in s.store.names)
  }

  ghost predicate HandleInv(s: System) {
    && (s.w.handle.Some? ==> 0 in s.store.names && s.store.names[0] == s.w.handle.value)
    && (Shifting(s.w.pc) ==> s.w.handle.None?)
    && (s.w.pc == Appending ==> s.w.handle.Some?)
    && (s.lock == HeldByWriter <==> Rotating(s.w.pc))
    && (s.w.pc != Aborted && s.w.pc != Scanning(0) ==> s.w.approxLen <= |s.store.ContentAt(0)|)
  }

  ghost predicate StoreInv(s: System) {
    && s.store.Valid()
    && IsSuffix(Retained(s.store, s.cfg.generations), s.g.log)
    && ShiftInv(s)
    && HandleInv(s)
  }

  /** No step changes the limits. */
  lemma ConfigIsFixed(s: System, step: Step)
    requires Enabled(s, step)
    ensures Apply(s, step).cfg == s.cfg
  {
    hide Retained, Work;
  }

  /** Submitting, sending and receiving commands. */
  predicate IsChannelStep(step: Step) {
    step.Submit? || step.SendOnce? || step.Receive?
  }

  lemma ChannelKeepsOutcomes(s: System, step: Step)
    requires Enabled(s, step) && IsChannelStep(step)
    ensures Apply(s, step).g.outcomes == s.g.outcomes && Apply(s, step).store == s.store
  {
    hide Work;
  }

  lemma ResolvingAddsOne(s: System, step: Step)
    requires Enabled(s, step) && (step.Open? || step.WriteAll?)
    ensures var next := Apply(s, step).g;
            && next.acks == s.g.acks && next.taken == s.g.taken && next.accepted == s.g.accepted
            && s.g.outcomes <= next.outcomes
  {
    hide Store.OpenActive, Store.Append, Store.ContentAt;
  }

  lemma OtherStepsKeepLedger(s: System, step: Step)
    requires Enabled(s, step) && !IsChannelStep(step) && !step.Open? && !step.WriteAll?
    ensures var next := Apply(s, step).g;
            next.acks == s.g.acks && next.taken == s.g.taken && next.accepted == s.g.accepted
                && next.outcomes == s.g.outcomes
  {
    hide Retained, Store.AppendToActive, Store.Sync, Store.Remove, Store.Rename, Store.ContentAt;
  }

  /** Outside the channel the ledger keeps its commands, and outcomes are only appended. */
  lemma LedgerOnlyGrows(s: System, step: Step)
    requires Enabled(s, step) && !IsChannelStep(step)
    ensures var next := Apply(s, step).g;
            next.acks == s.g.acks && next.taken == s.g.taken && next.accepted == s.g.accepted
                && s.g.outcomes <= next.outcomes
  {
    hide Apply, Enabled;
    if step.Open? || step.WriteAll? {
      ResolvingAddsOne(s, step);
    } else {
      OtherStepsKeepLedger(s, step);
    }
  }

  lemma InitStore(s: System)
    requires Init(s)
    ensures StoreInv(s)
  {
  }

  lemma StoreExternalAppend(s: System, bytes: Bytes)
    requires StoreInv(s)
    ensures StoreInv(ApplyExternalAppend(s, bytes))
  {
    ExternalAppendExtendsRetained(s.store, bytes, s.cfg.generations);
    SuffixOfExtension(Retained(s.store, s.cfg.generations), s.g.log, bytes);
  }

  /** Taking up a command, or queueing it, does not touch the directory. */
  lemma StoreChannelStep(s: System, step: Step)
    requires StoreInv(s) && Enabled(s, step)
    requires IsChannelStep(step)
    ensures StoreInv(Apply(s, step))
  {
    var next := Apply(s, step);
    assert next.store == s.store && next.g.log == s.g.log && next.cfg == s.cfg && next.lock == s.lock;
    assert next.w.handle == s.w.handle && next.w.approxLen == s.w.approxLen;
    assert next.w.pc == s.w.pc || (s.w.pc == Ready && next.w.pc in {Ready, Entry, Finishing});
  }

  lemma StoreExporterStep(s: System, step: Step)
    requires StoreInv(s) && Enabled(s, step)
    requires step.ExporterLock? || step.ExporterRead? || step.ExporterUnlock?
    ensures StoreInv(Apply(s, step))
  {
  }

  /** Writer steps that do not touch the generations. */
  lemma StoreControlStep(s: System, step: Step)
    requires StoreInv(s) && Enabled(s, step)
    requires step.Enter? || step.LockDirectory? || step.Scan? || step.EndRotation?
    ensures StoreInv(Apply(s, step))
  {
  }

  lemma StoreSync(s: System)
    requires StoreInv(s)
    ensures SyncHandle(s).store.Valid() && SyncHandle(s).store.names == s.store.names
    ensures forall i :: SyncHandle(s).store.ContentAt(i) == s.store.ContentAt(i)
    ensures Retained(SyncHandle(s).store, s.cfg.generations) == Retained(s.store, s.cfg.generations)
  {
    if s.w.handle.Some? {
      SyncKeepsRetained(s.store, s.w.handle.value, s.cfg.generations);
    }
  }

  lemma StoreSyncForRotation(s: System, ok: bool)
    requires StoreInv(s) && s.w.pc == Syncing
    ensures StoreInv(ApplySyncForRotation(s, ok))
  {
    StoreSync(s);
  }

  lemma StoreFinishBatch(s: System, ok: bool)
    requires StoreInv(s) && s.w.pc == Finishing && s.g.taken > 0
    ensures StoreInv(ApplyFinishBatch(s, ok))
  {
    StoreSync(s);
  }

  lemma StoreClearSlot(s: System, ok: bool)
    requires StoreInv(s) && s.w.pc.Removing?
    ensures StoreInv(ApplyClearSlot(s, ok))
  {
    var n := s.cfg.generations;
    if s.w.pc.index in s.store.names && ok {
      RemoveOldestCutsPrefix(s.store, n);
      SuffixOfSuffix(s.store.ContentAt(n), Retained(s.store, n - 1), s.g.log);
    }
  }

  lemma StoreRenameUp(s: System, ok: bool)
    requires StoreInv(s) && s.w.pc.Renaming?
    ensures StoreInv(ApplyRenameUp(s, ok))
  {
    if ok {
      RenameKeepsRetained(s.store, s.w.pc.index - 1, s.cfg.generations);
    }
  }

  lemma StoreOpen(s: System, ok: bool, statOk: bool)
    requires StoreInv(s) && s.w.pc == Opening && s.w.todo != []
    ensures StoreInv(ApplyOpen(s, ok, statOk))
  {
    hide Older, IsSuffix;
    OpenKeepsRetained(s.store, s.cfg.generations);
  }

  lemma StoreWriteAll(s: System, torn: Option<nat>)
    requires StoreInv(s) && Enabled(s, WriteAll(torn))
    ensures StoreInv(ApplyWriteAll(s, torn))
  {
    var n, line := s.cfg.generations, s.w.todo[0].line;
    var more := if torn.None? then line else line[..torn.value];
    AppendExtendsRetained(s.store, more, n);
    SuffixOfExtension(Retained(s.store, n), s.g.log, more);
  }

  lemma StoreStep(s: System, step: Step)
    requires StoreInv(s) && Enabled(s, step)
    ensures StoreInv(Apply(s, step))
  {
    match step
    case ExternalAppend(bytes) => StoreExternalAppend(s, bytes);
    case SyncForRotation(ok) => StoreSyncForRotation(s, ok);
    case ClearSlot(ok) => StoreClearSlot(s, ok);
    case RenameUp(ok) => StoreRenameUp(s, ok);
    case Open(ok, statOk) => StoreOpen(s, ok, statOk);
    case WriteAll(torn) => StoreWriteAll(s, torn);
    case FinishBatch(ok) => StoreFinishBatch(s, ok);
    case Submit(_, _) => StoreChannelStep(s, step);
    case SendOnce(_, _) => StoreChannelStep(s, step);
    case Receive => StoreChannelStep(s, step);
    case ExporterLock(_) => StoreExporterStep(s, step);
    case ExporterRead(_) => StoreExporterStep(s, step);
    case ExporterUnlock => StoreExporterStep(s, step);
    case _ => StoreControlStep(s, step);
  }

  /** The invariant at every state of every run. */
  lemma {:induction false} StoreAlways(states: seq<System>, steps: seq<Step>, i: nat)
    requires IsRun(states, steps) && i < |states|
    ensures StoreInv(states[i])
  {
    if i == 0 {
      InitStore(states[0]);
    } else {
      StoreAlways(states, steps, i - 1);
      assert Next(states[i - 1], steps[i - 1], states[i - 1 + 1]);
      StoreStep(states[i - 1], steps[i - 1]);
    }
  }
}
