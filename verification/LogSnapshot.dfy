/**
 Exporters: reading every generation under the directory lock, in any order and while
 lines keep being appended, gives the retained log of one instant.
 */
module LogSnapshot {
  import opened Prelude
  import opened LogStore
  import opened LogProtocol
  import opened LogStoreInvariant

  /** The captured generations n, ..., 1 put back in order. */
  function AssembleOlder(seen: map<nat, Bytes>, n: nat): Bytes
    requires forall i :: 1 <= i <= n ==> i in seen
  {
    if n == 0 then [] else seen[n] + AssembleOlder(seen, n - 1)
  }

  function Assemble(seen: map<nat, Bytes>, n: nat): Bytes
    requires forall i :: 0 <= i <= n ==> i in seen
  {
    AssembleOlder(seen, n) + seen[0]
  }

  ghost predicate SnapshotInv(s: System) {
    s.lock.HeldByExporter? ==>
      && (forall i :: i in s.seen && i > 0 ==> s.seen[i] == s.store.ContentAt(i))
      && (0 in s.seen ==> s.instant == Older(s.store, s.cfg.generations) + s.seen[0])
  }

  /** While an exporter holds the lock only the active file can change. */
  lemma RotatedGenerationsFrozen(s: System, step: Step)
    requires StoreInv(s) && Enabled(s, step) && s.lock.HeldByExporter?
    ensures forall i :: i > 0 ==> Apply(s, step).store.ContentAt(i) == s.store.ContentAt(i)
    ensures Older(Apply(s, step).store, s.cfg.generations) == Older(s.store, s.cfg.generations)
  {
    var n := s.cfg.generations;
    match step
    case ExternalAppend(bytes) => ExternalAppendExtendsRetained(s.store, bytes, n);
    case Open(_, _) => OpenKeepsRetained(s.store, n);
    case WriteAll(torn) =>
      var line := s.w.todo[0].line;
      AppendExtendsRetained(s.store, if torn.None? then line else line[..torn.value], n);
    case FinishBatch(_) =>
      if s.w.handle.Some? { SyncKeepsRetained(s.store, s.w.handle.value, n); }
    case _ =>
  }

  /** No step of the writer takes the lock away from an exporter. */
  lemma LockStaysWithExporter(s: System, step: Step)
    requires StoreInv(s) && Enabled(s, step) && s.lock.HeldByExporter? && step != ExporterUnlock
    ensures Apply(s, step).lock == s.lock
  {
  }

  predicate IsExporterStep(step: Step) {
    step.ExporterLock? || step.ExporterRead? || step.ExporterUnlock?
  }

  /** The exporter sees what it saw, and no other exporter has come to hold the lock. */
  ghost predicate SameView(s: System, next: System) {
    && next.seen == s.seen && next.instant == s.instant && next.cfg == s.cfg
    && (next.lock.HeldByExporter? ==> next.lock == s.lock)
  }

  lemma ChannelKeepsView(s: System, step: Step)
    requires Enabled(s, step) && IsChannelStep(step)
    ensures SameView(s, Apply(s, step))
  {
    hide Work;
  }

  lemma ResolvingKeepsView(s: System, step: Step)
    requires Enabled(s, step) && (step.Open? || step.WriteAll?)
    ensures SameView(s, Apply(s, step))
  {
    hide Store.ContentAt, Store.Append, Store.OpenActive;
  }

  lemma OthersKeepView(s: System, step: Step)
    requires Enabled(s, step) && !IsExporterStep(step) && !IsChannelStep(step) && !step.Open? && !step.WriteAll?
    ensures SameView(s, Apply(s, step))
  {
    hide Retained, Store.ContentAt, Store.Sync, Store.AppendToActive, Store.Remove, Store.Rename;
  }

  /** Channel steps and steps of the writer leave the exporter's view, and the lock it holds, alone. */
  lemma ViewStays(s: System, step: Step)
    requires Enabled(s, step) && !IsExporterStep(step)
    ensures SameView(s, Apply(s, step))
  {
    hide Apply, Enabled, SameView;
    if IsChannelStep(step) {
      ChannelKeepsView(s, step);
    } else if step.Open? || step.WriteAll? {
      ResolvingKeepsView(s, step);
    } else {
      OthersKeepView(s, step);
    }
  }

  /** What each step does to the exporter's view. */
  lemma ExporterFrame(s: System, step: Step)
    requires StoreInv(s) && Enabled(s, step)
    ensures var next := Apply(s, step);
            && next.cfg == s.cfg
            && (step.ExporterLock? ==> next.seen == map[])
            && (step.ExporterRead? ==> next.store == s.store && next.lock == s.lock
                                       && next.seen == s.seen[step.index := s.store.ContentAt(step.index)])
            && (step == ExporterRead(0) ==> next.instant == Retained(s.store, s.cfg.generations))
            && (step.ExporterRead? && step.index != 0 ==> next.instant == s.instant)
            && (!step.ExporterLock? && !step.ExporterRead? ==> next.seen == s.seen && next.instant == s.instant)
            && (!step.ExporterLock? && next.lock.HeldByExporter? ==> next.lock == s.lock)
  {
    hide StoreInv, Retained, Store.ContentAt;
    if !IsExporterStep(step) {
      ViewStays(s, step);
    }
  }

  lemma SnapshotStep(s: System, step: Step)
    requires StoreInv(s) && SnapshotInv(s) && Enabled(s, step)
    ensures SnapshotInv(Apply(s, step))
  {
    hide Apply, Enabled, StoreInv, Older, Store.ContentAt;
    ExporterFrame(s, step);
    if Apply(s, step).lock.HeldByExporter? && !step.ExporterLock? {
      RotatedGenerationsFrozen(s, step);
    }
  }

  lemma {:induction false} SnapshotAlways(states: seq<System>, steps: seq<Step>, i: nat)
    requires IsRun(states, steps) && i < |states|
    ensures SnapshotInv(states[i])
  {
    if i > 0 {
      SnapshotAlways(states, steps, i - 1);
      StoreAlways(states, steps, i - 1);
      assert Next(states[i - 1], steps[i - 1], states[i - 1 + 1]);
      SnapshotStep(states[i - 1], steps[i - 1]);
    }
  }

  /** `instant` is the retained log of a state inside the same tenure of the lock. */
  lemma {:induction false} InstantWasRead(states: seq<System>, steps: seq<Step>, i: nat) returns (r: nat)
    requires IsRun(states, steps) && i < |states|
    requires states[i].lock.HeldByExporter? && 0 in states[i].seen
    ensures r < i && steps[r] == ExporterRead(0)
    ensures forall k :: r <= k <= i ==> states[k].lock == states[i].lock
    ensures states[i].instant == Retained(states[r].store, states[r].cfg.generations)
  {
    hide Apply, Enabled, StoreInv, Older, Retained;
    var before, step := states[i - 1], steps[i - 1];
    assert Next(before, step, states[i - 1 + 1]);
    StoreAlways(states, steps, i - 1);
    ExporterFrame(before, step);
    if step == ExporterRead(0) {
      r := i - 1;
    } else {
      r := InstantWasRead(states, steps, i - 1);
    }
  }

  lemma {:induction false} AssembleOlderIs(seen: map<nat, Bytes>, st: Store, n: nat)
    requires forall i :: 1 <= i <= n ==> i in seen && seen[i] == st.ContentAt(i)
    ensures AssembleOlder(seen, n) == Older(st, n)
  {
    if n > 0 {
      AssembleOlderIs(seen, st, n - 1);
    }
  }

  /**
   A complete capture, whatever order it was read in and whatever the writer and other
   processes did meanwhile, is the retained log at the moment the active file was read,
   hence an unbroken stretch ending where the log ended then.
   */
  lemma CaptureIsOneInstant(states: seq<System>, steps: seq<Step>, i: nat) returns (r: nat)
    requires IsRun(states, steps) && i < |states|
    requires states[i].lock.HeldByExporter?
    requires forall g :: 0 <= g <= states[i].cfg.generations ==> g in states[i].seen
    ensures r < i && steps[r] == ExporterRead(0) && states[r].lock == states[i].lock
    ensures Assemble(states[i].seen, states[i].cfg.generations) == Retained(states[r].store, states[r].cfg.generations)
    ensures IsSuffix(Assemble(states[i].seen, states[i].cfg.generations), states[r].g.log)
  {
    SnapshotAlways(states, steps, i);
    AssembleOlderIs(states[i].seen, states[i].store, states[i].cfg.generations);
    r := InstantWasRead(states, steps, i);
    StoreAlways(states, steps, r);
  }
}
