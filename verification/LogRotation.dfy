/**
 What one step can do to the retained log: nothing, extend it at the end, or, only when the
 oldest slot is cleared for the generation below it, cut exactly the oldest generation.
 */
module LogRotation {
  import opened Prelude
  import opened LogStore
  import opened LogProtocol
  import opened LogStoreInvariant

  /** The step deletes the oldest generation. */
  ghost predicate DeletesOldest(s: System, step: Step) {
    step == ClearSlot(true) && s.w.pc == Removing(s.cfg.generations) && s.cfg.generations in s.store.names
  }

  ghost predicate Extends(s: System, next: System, more: Bytes) {
    && next.g.log == s.g.log + more
    && Retained(next.store, s.cfg.generations) == Retained(s.store, s.cfg.generations) + more
  }

  lemma KeepsRetained(s: System, step: Step)
    requires StoreInv(s) && Enabled(s, step) && !DeletesOldest(s, step)
    requires !step.ExternalAppend? && !step.WriteAll?
    ensures Extends(s, Apply(s, step), [])
  {
    var n := s.cfg.generations;
    assert s.g.log + [] == s.g.log && Retained(s.store, n) + [] == Retained(s.store, n);
    match step
    case SyncForRotation(_) => StoreSync(s);
    case FinishBatch(_) => StoreSync(s);
    case Open(_, _) => OpenKeepsRetained(s.store, n);
    case RenameUp(_) => RenameKeepsRetained(s.store, s.w.pc.index - 1, n);
    case _ =>
  }

  /**
   Every step of every run, in whatever state and with whatever failure: the retained log is
   extended by exactly the bytes appended, except by the one step that deletes generation N,
   which is taken only when generation N-1 exists to take its place.
   */
  lemma OnlyTheOldestIsEverCut(s: System, step: Step) returns (more: Bytes)
    requires StoreInv(s) && Enabled(s, step)
    ensures !DeletesOldest(s, step) ==> Extends(s, Apply(s, step), more)
    ensures !step.ExternalAppend? && !step.WriteAll? ==> more == []
    ensures DeletesOldest(s, step) ==>
              && s.cfg.generations > 0 && s.cfg.generations - 1 in s.store.names
              && Apply(s, step).g.log == s.g.log
              && Retained(s.store, s.cfg.generations)
                 == s.store.ContentAt(s.cfg.generations) + Retained(Apply(s, step).store, s.cfg.generations)
  {
    var n := s.cfg.generations;
    more := [];
    if step.ExternalAppend? {
      more := step.bytes;
      ExternalAppendExtendsRetained(s.store, more, n);
    } else if step.WriteAll? {
      more := if step.torn.None? then s.w.todo[0].line else s.w.todo[0].line[..step.torn.value];
      AppendExtendsRetained(s.store, more, n);
    } else if DeletesOldest(s, step) {
      RemoveOldestCutsPrefix(s.store, n);
    } else {
      KeepsRetained(s, step);
    }
  }

  /** No name is ever taken away except by a rotation, which holds the directory lock. */
  lemma NamesChangeOnlyUnderTheLock(s: System, step: Step, i: nat)
    requires StoreInv(s) && Enabled(s, step) && i in s.store.names
    ensures s.lock != HeldByWriter ==>
              i in Apply(s, step).store.names && Apply(s, step).store.names[i] == s.store.names[i]
  {
  }

  // ----- one shift of the generations -----

  /** The oldest slot has not been dealt with yet. */
  predicate AtOldest(s: System) {
    s.cfg.generations > 0 && (s.w.pc == Scanning(s.cfg.generations) || s.w.pc == Removing(s.cfg.generations))
  }

  /** Since `a`, with `more` appended meanwhile, either nothing was lost or exactly the generation N of `a`. */
  ghost predicate LostAtMostOldest(a: System, s: System, more: Bytes) {
    var n := a.cfg.generations;
    && s.cfg == a.cfg && s.g.log == a.g.log + more
    && (Retained(s.store, n) == Retained(a.store, n) + more
        || a.store.ContentAt(n) + Retained(s.store, n) == Retained(a.store, n) + more)
    && (AtOldest(s) ==>
          Retained(s.store, n) == Retained(a.store, n) + more && s.store.ContentAt(n) == a.store.ContentAt(n))
  }

  /** During a shift the oldest slot is not returned to, and is only touched by its deletion. */
  lemma OldestIsFrozen(s: System, step: Step)
    requires StoreInv(s) && Enabled(s, step) && Shifting(s.w.pc) && AtOldest(Apply(s, step))
    ensures AtOldest(s) && !DeletesOldest(s, step)
    ensures Apply(s, step).store.ContentAt(s.cfg.generations) == s.store.ContentAt(s.cfg.generations)
  {
    hide Retained, IsSuffix;
    if step.ExternalAppend? {
      ExternalAppendExtendsRetained(s.store, step.bytes, s.cfg.generations);
    }
  }

  lemma ShiftStep(a: System, s: System, step: Step, more: Bytes) returns (grown: Bytes)
    requires StoreInv(s) && Enabled(s, step) && Shifting(s.w.pc) && LostAtMostOldest(a, s, more)
    ensures LostAtMostOldest(a, Apply(s, step), grown)
  {
    hide Retained, Apply, Enabled, StoreInv, Store.ContentAt;
    var next, n := Apply(s, step), a.cfg.generations;
    ConfigIsFixed(s, step);
    var added := OnlyTheOldestIsEverCut(s, step);
    if AtOldest(next) {
      OldestIsFrozen(s, step);
    }
    if DeletesOldest(s, step) {
      grown := more;
    } else {
      grown := more + added;
      assert (Retained(a.store, n) + more) + added == Retained(a.store, n) + grown;
      assert (a.g.log + more) + added == a.g.log + grown;
      assert (a.store.ContentAt(n) + Retained(s.store, n)) + added
          == a.store.ContentAt(n) + (Retained(s.store, n) + added);
    }
  }

  /**
   One shift of the generations, from its start up to any later moment of it, success and every
   early error included, and with other processes appending meanwhile: the concatenation loses
   nothing, or exactly the bytes of generation N.
   */
  lemma {:induction false} ShiftLosesAtMostTheOldest(states: seq<System>, steps: seq<Step>, i: nat, j: nat)
    returns (more: Bytes)
    requires IsRun(states, steps) && i <= j < |states|
    requires states[i].w.pc == Scanning(states[i].cfg.generations)
    requires forall k :: i <= k <= j ==> Shifting(states[k].w.pc)
    ensures LostAtMostOldest(states[i], states[j], more)
    decreases j
  {
    hide StoreInv, Apply, Enabled, Retained;
    if i == j {
      more := [];
      assert states[i].g.log + [] == states[i].g.log;
      assert Retained(states[i].store, states[i].cfg.generations) + []
          == Retained(states[i].store, states[i].cfg.generations);
    } else {
      more := ShiftLosesAtMostTheOldest(states, steps, i, j - 1);
      StoreAlways(states, steps, j - 1);
      assert Next(states[j - 1], steps[j - 1], states[j - 1 + 1]);
      more := ShiftStep(states[i], states[j - 1], steps[j - 1], more);
    }
  }

  // ----- staying inside one shift -----

  /** Past the shift, before the record it was for is resolved. */
  predicate AboutToWrite(pc: Pc) {
    pc == Opening || pc == Appending
  }

  lemma ChannelKeepsBusyWriter(s: System, step: Step)
    requires Enabled(s, step) && IsChannelStep(step) && s.w.pc != Ready
    ensures Apply(s, step).w == s.w
  {
    hide Begin;
  }

  lemma ResolvingStaysInWriting(s: System, step: Step)
    requires Enabled(s, step) && (step.Open? || step.WriteAll?)
    requires |Apply(s, step).g.outcomes| == |s.g.outcomes|
    ensures AboutToWrite(Apply(s, step).w.pc)
  {
    hide Store.ContentAt, Store.Append, Store.OpenActive;
  }

  lemma OthersEndInWriting(s: System, step: Step)
    requires Enabled(s, step) && (Shifting(s.w.pc) || AboutToWrite(s.w.pc))
    requires !IsChannelStep(step) && !step.Open? && !step.WriteAll?
    ensures Shifting(Apply(s, step).w.pc) || AboutToWrite(Apply(s, step).w.pc)
    ensures AboutToWrite(s.w.pc) ==> AboutToWrite(Apply(s, step).w.pc)
  {
    hide Retained, Store.ContentAt, Store.Sync, Store.AppendToActive, Store.Remove, Store.Rename;
  }

  lemma ShiftEndsInWriting(s: System, step: Step)
    requires Enabled(s, step) && (Shifting(s.w.pc) || AboutToWrite(s.w.pc))
    requires |Apply(s, step).g.outcomes| == |s.g.outcomes|
    ensures Shifting(Apply(s, step).w.pc) || AboutToWrite(Apply(s, step).w.pc)
    ensures AboutToWrite(s.w.pc) ==> AboutToWrite(Apply(s, step).w.pc)
  {
    hide Apply, Enabled;
    if IsChannelStep(step) {
      ChannelKeepsBusyWriter(s, step);
    } else if step.Open? || step.WriteAll? {
      ResolvingStaysInWriting(s, step);
    } else {
      OthersEndInWriting(s, step);
    }
  }

  lemma OutcomesOnlyGrow(s: System, step: Step)
    requires Enabled(s, step)
    ensures s.g.outcomes <= Apply(s, step).g.outcomes
  {
    hide Apply, Enabled;
    if IsChannelStep(step) {
      ChannelKeepsOutcomes(s, step);
    } else {
      LedgerOnlyGrows(s, step);
    }
  }

  lemma {:induction false} OutcomesGrowAlong(states: seq<System>, steps: seq<Step>, i: nat, j: nat)
    requires IsRun(states, steps) && i <= j < |states|
    ensures |states[i].g.outcomes| <= |states[j].g.outcomes|
    decreases j
  {
    hide Apply, Enabled;
    if i < j {
      OutcomesGrowAlong(states, steps, i, j - 1);
      assert Next(states[j - 1], steps[j - 1], states[j - 1 + 1]);
      OutcomesOnlyGrow(states[j - 1], steps[j - 1]);
    }
  }

  /** While no further record is resolved, a writer still shifting has been shifting all along. */
  lemma {:induction false} ShiftingThroughout(states: seq<System>, steps: seq<Step>, i: nat, j: nat)
    requires IsRun(states, steps) && i <= j < |states| && Shifting(states[i].w.pc)
    requires |states[j].g.outcomes| == |states[i].g.outcomes|
    ensures Shifting(states[j].w.pc) || AboutToWrite(states[j].w.pc)
    ensures Shifting(states[j].w.pc) ==> forall k :: i <= k <= j ==> Shifting(states[k].w.pc)
    decreases j
  {
    hide Apply, Enabled;
    if i < j {
      OutcomesGrowAlong(states, steps, i, j - 1);
      OutcomesGrowAlong(states, steps, j - 1, j);
      ShiftingThroughout(states, steps, i, j - 1);
      assert Next(states[j - 1], steps[j - 1], states[j - 1 + 1]);
      ShiftEndsInWriting(states[j - 1], steps[j - 1]);
    }
  }

  /** From `a` to `s` the concatenation only gained bytes, and lost nothing or exactly generation N of `a`. */
  ghost predicate LosesAtMostOldest(a: System, s: System) {
    exists more :: LostAtMostOldest(a, s, more)
  }
}
