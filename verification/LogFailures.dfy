/**
 What is counted: every failed lock, sync, remove and rename exactly once, beside the failed lines and
 the refused submissions; and a submission is dropped exactly when the channel has no room for it.
 */
module LogFailures {
  import opened LogStore
  import opened LogProtocol
  import opened LogStoreInvariant
  import opened LogLedger

  /** An I/O call of a rotation, or the sync of a batch, fails. */
  predicate FailsIo(s: System, step: Step) {
    || step == LockDirectory(false)
    || ((step.SyncForRotation? || step.FinishBatch?) && s.w.handle.Some? && !step.ok)
    || (step == ClearSlot(false) && s.w.pc.Removing? && s.w.pc.index in s.store.names)
    || step == RenameUp(false)
  }

  /** A shift that has stopped is counted when the rotation ends. */
  function Counted(s: System): nat {
    s.g.rotationErrors + if s.w.pc == Aborted then 1 else 0
  }

  function One(fails: bool): nat {
    if fails then 1 else 0
  }

  lemma ChannelCountsNothing(s: System, step: Step)
    requires Enabled(s, step) && IsChannelStep(step)
    ensures Counted(Apply(s, step)) == Counted(s)
  {
    hide Work;
  }

  lemma ResolvingCountsNothing(s: System, step: Step)
    requires Enabled(s, step) && (step.Open? || step.WriteAll?)
    ensures Counted(Apply(s, step)) == Counted(s)
  {
    hide Store.ContentAt, Store.Append, Store.OpenActive;
  }

  lemma OthersCountFailures(s: System, step: Step)
    requires Enabled(s, step) && !IsChannelStep(step) && !step.Open? && !step.WriteAll?
    requires ShiftInv(s)
    ensures Counted(Apply(s, step)) == Counted(s) + One(FailsIo(s, step))
  {
    hide Retained, Store.ContentAt, Store.Sync, Store.AppendToActive, Store.Remove, Store.Rename;
  }

  lemma FailureStep(s: System, step: Step)
    requires ShiftInv(s) && Enabled(s, step)
    ensures Counted(Apply(s, step)) == Counted(s) + One(FailsIo(s, step))
  {
    hide Apply, Enabled, Counted, ShiftInv;
    if IsChannelStep(step) {
      ChannelCountsNothing(s, step);
    } else if step.Open? || step.WriteAll? {
      ResolvingCountsNothing(s, step);
    } else {
      OthersCountFailures(s, step);
    }
  }

  /** The failed calls among the first i steps. */
  function Failures(states: seq<System>, steps: seq<Step>, i: nat): nat
    requires i <= |steps| < |states|
  {
    if i == 0 then 0 else Failures(states, steps, i - 1) + One(FailsIo(states[i - 1], steps[i - 1]))
  }

  lemma {:induction false} FailuresAlways(states: seq<System>, steps: seq<Step>, i: nat)
    requires IsRun(states, steps) && i < |states|
    ensures Counted(states[i]) == Failures(states, steps, i)
  {
    hide Apply, Enabled, FailsIo, Retained, ShiftInv, HandleInv;
    if i > 0 {
      FailuresAlways(states, steps, i - 1);
      StoreAlways(states, steps, i - 1);
      assert Next(states[i - 1], steps[i - 1], states[i - 1 + 1]);
      FailureStep(states[i - 1], steps[i - 1]);
    }
  }

  /**
   Over every run the error count is the failed lines, the failed calls of rotations and batch syncs
   (the one that stopped a shift once the rotation has ended) and the submissions refused for want of a writer.
   */
  lemma EachFailureIsCountedOnce(states: seq<System>, steps: seq<Step>, i: nat)
    requires IsRun(states, steps) && i < |states|
    ensures var s := states[i];
            s.errors + (if s.w.pc == Aborted then 1 else 0)
            == CountFailed(s.g.outcomes) + Failures(states, steps, i) + s.g.disconnected
  {
    hide CountFailed, Flatten, Records, Failures, PlacedInv;
    EverySubmissionIsAccountedFor(states, steps, i);
    FailuresAlways(states, steps, i);
  }

  /** There is room: in the queue, or, without one, at a writer that waits for a command. */
  predicate HasRoom(s: System, parked: bool) {
    if s.cfg.capacity > 0 then |s.queue| < s.cfg.capacity else parked && s.w.pc == Ready
  }

  /**
   A submission never waits: with a writer it is taken exactly if there is room and otherwise dropped and
   counted; without one it is refused and counted.
   */
  lemma SubmissionIsTakenExactlyWhen(s: System, command: Command, parked: bool)
    requires QueueInv(s) && (command.Line? || command.Evidence?)
    ensures var next := Apply(s, Submit(command, parked));
            && next.g.accepted == s.g.accepted + (if s.cfg.writerAlive && HasRoom(s, parked) then [command] else [])
            && next.dropped == s.dropped + One(s.cfg.writerAlive && !HasRoom(s, parked))
            && next.errors == s.errors + One(!s.cfg.writerAlive)
            && next.g.disconnected == s.g.disconnected + One(!s.cfg.writerAlive)
            && next.store == s.store
  {
    hide Work;
    assert s.g.accepted + [] == s.g.accepted;
  }
}
