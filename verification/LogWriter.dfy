/**
 The writer thread as the program has it: an object whose fields change command by command.
 Every I/O call goes to `Surroundings`, where other threads and processes act first; each
 method below is shown to perform a run of the protocol, so that everything proved about
 runs holds at every point of its execution.
 */
module LogWriter {
  import opened Prelude
  import opened LogStore
  import opened LogProtocol
  import opened LogRotation
  import opened LogStoreInvariant
  import opened LogLedger
  import opened LogEvidence

  /** Steps that do not belong to the writer thread. */
  predicate IsForeign(step: Step) {
    step.Submit? || step.SendOnce? || step.ExternalAppend?
    || step.ExporterLock? || step.ExporterRead? || step.ExporterUnlock?
  }

  /** What other threads and processes can have changed while the writer is busy. */
  ghost predicate OthersActed(a: System, b: System) {
    && b.cfg == a.cfg && b.w == a.w && b.errors >= a.errors
    && (b.lock == HeldByWriter <==> a.lock == HeldByWriter)
    && |a.store.files| <= |b.store.files|
    && (forall i :: i > 0 ==> (i in b.store.names <==> i in a.store.names))
    && (forall i :: i in a.store.names ==> i in b.store.names && b.store.names[i] == a.store.names[i])
    && b.g.outcomes == a.g.outcomes && b.g.taken == a.g.taken
    && b.g.answers == a.g.answers && b.g.acks == a.g.acks
  }

  lemma ForeignStep(s: System, step: Step)
    requires Enabled(s, step) && IsForeign(step) && s.w.pc != Ready
    ensures OthersActed(s, Apply(s, step))
  {
  }

  /** While the writer waits, a foreign step that hands nothing over leaves it waiting. */
  lemma ForeignAtReady(s: System, step: Step)
    requires Enabled(s, step) && IsForeign(step) && s.w.pc == Ready
    requires (step.Submit? || step.SendOnce?) && Accepts(s, step.parked) ==> s.cfg.capacity > 0
    ensures var next := Apply(s, step);
            && next.cfg == s.cfg && next.w == s.w && next.g.taken == s.g.taken
            && next.g.outcomes == s.g.outcomes && next.g.answers == s.g.answers && next.g.acks == s.g.acks
  {
  }

  /** The writer has just taken up `command`. */
  ghost predicate Begun(s: System, command: Command) {
    && 0 < s.g.taken <= |s.g.accepted| && s.g.accepted[s.g.taken - 1] == command
    && s.w.todo == Work(command) && s.w.batch == command.Persist? && s.w.confirmed == {}
    && s.w.pc == (if Work(command) != [] then Entry else if command.Persist? then Finishing else Ready)
  }

  lemma NothingInHand(s: System)
    requires WorkInv(s) && s.w.pc == Ready
    ensures Records(s.g.outcomes) == Flatten(s.g.accepted[..s.g.taken])
  {
    hide Records, Flatten;
    assert Records(s.g.outcomes) + [] == Records(s.g.outcomes);
  }

  /** One outcome for each record, in order. */
  ghost predicate AreOutcomesOf(outcomes: seq<Outcome>, records: seq<Record>) {
    |outcomes| == |records| && forall j :: 0 <= j < |records| ==> outcomes[j].record == records[j]
  }

  lemma OutcomesNext(start: seq<Outcome>, before: seq<Outcome>, after: seq<Outcome>, records: seq<Record>, k: nat)
    requires k < |records| && start <= before <= after && |after| == |before| + 1
    requires AreOutcomesOf(before[|start|..], records[..k]) && after[|before|].record == records[k]
    ensures start <= after && AreOutcomesOf(after[|start|..], records[..k + 1])
  {
    forall j | 0 <= j < k ensures after[|start|..][j].record == records[j] {
      assert after[|start| + j] == before[|start| + j] == before[|start|..][j];
      assert records[..k][j] == records[j];
    }
  }

  /** From one state to the next the writer took up `command` and nothing else changed for it. */
  ghost predicate TookUp(s: System, next: System, command: Command) {
    && Begun(next, command) && next.g.taken == s.g.taken + 1
    && next.cfg == s.cfg && next.g.outcomes == s.g.outcomes && next.g.answers == s.g.answers
    && next.w.handle == s.w.handle && next.w.approxLen == s.w.approxLen && next.w.linesSinceStat == s.w.linesSinceStat
    && next.g.acks == s.g.acks + if command.Flush? then [Ack(s.g.taken, |next.g.outcomes|)] else []
  }

  /** A sender of a channel without room hands its command over directly. */
  lemma DirectHandover(s: System, step: Step)
    requires ChannelInv(s) && Enabled(s, step) && (step.Submit? || step.SendOnce?)
    requires Accepts(s, step.parked) && s.cfg.capacity == 0
    ensures TookUp(s, Apply(s, step), step.command)
  {
    hide CountSubmitted;
    assert s.g.accepted[s.g.taken..] == [];
  }

  lemma QueueHandover(s: System)
    requires ChannelInv(s) && Enabled(s, Step.Receive)
    ensures TookUp(s, Apply(s, Step.Receive), s.queue[0])
  {
    hide CountSubmitted;
    assert s.g.accepted[s.g.taken] == s.g.accepted[s.g.taken..][0];
  }

  /** The directory, the channel and everyone else, together with the run so far. */
  class Surroundings {
    var now: System
    ghost var states: seq<System>
    ghost var steps: seq<Step>

    ghost predicate Valid()
      reads this
    {
      IsRun(states, steps) && states[|steps|] == now
    }

    constructor (start: System)
      requires Init(start)
      ensures Valid() && now == start && steps == []
    {
      now := start;
      states, steps := [start], [];
    }

    /** One step of the protocol. */
    method Take(step: Step)
      requires Valid() && Enabled(now, step)
      modifies this
      ensures Valid() && now == Apply(old(now), step)
      ensures steps == old(steps) + [step] && old(states) <= states
    {
      var next := Apply(now, step);
      ghost var before := states;
      now := next;
      states, steps := states + [next], steps + [step];
      assert forall i :: 0 <= i < |before| ==> states[i] == before[i];
    }

    /** Producers, appenders and exporters run for a while. */
    method Interfere()
      requires Valid() && now.w.pc != Ready
      modifies this
      ensures Valid() && OthersActed(old(now), now)
      ensures old(steps) <= steps && old(states) <= states
    {
      var rounds: nat := *;
      while rounds > 0
        invariant Valid() && OthersActed(old(now), now)
        invariant old(steps) <= steps && old(states) <= states
      {
        var step: Step := *;
        if IsForeign(step) && Enabled(now, step) {
          ForeignStep(now, step);
          Take(step);
        }
        rounds := rounds - 1;
      }
    }

    /** Others act, then the writer makes the I/O call `step`. */
    method Perform(step: Step) returns (before: System)
      requires Valid() && now.w.pc != Ready && !step.LockDirectory? && !IsForeign(step) && Enabled(now, step)
      modifies this
      ensures Valid() && OthersActed(old(now), before)
      ensures Enabled(before, step) && now == Apply(before, step)
      ensures old(steps) <= steps && old(states) <= states
    {
      Interfere();
      before := now;
      Take(step);
    }

    /**
     `recv`: others act until a command arrives, through the queue or handed over directly by
     a sender of a capacity-0 channel. None stands for a channel closed by its last sender.
     */
    method Receive() returns (command: Option<Command>)
      requires Valid() && now.w.pc == Ready
      modifies this
      ensures Valid() && old(steps) <= steps && old(states) <= states
      ensures now.cfg == old(now.cfg) && now.g.outcomes == old(now.g.outcomes) && now.g.answers == old(now.g.answers)
      ensures now.w.handle == old(now.w.handle) && now.w.approxLen == old(now.w.approxLen)
              && now.w.linesSinceStat == old(now.w.linesSinceStat)
      ensures command.None? ==> now.w == old(now.w) && now.g.taken == old(now.g.taken) && now.g.acks == old(now.g.acks)
      ensures command.Some? ==> Begun(now, command.value) && now.g.taken == old(now.g.taken) + 1
      ensures command.Some? ==>
                now.g.acks == old(now.g.acks)
                              + if command.value.Flush? then [Ack(old(now.g.taken), |now.g.outcomes|)] else []
    {
      hide Apply, Begun, ChannelInv, WorkInv, PlacedInv, AckInv;
      var rounds: nat := *;
      while rounds > 0
        invariant Valid() && old(steps) <= steps && old(states) <= states
        invariant now.cfg == old(now.cfg) && now.w == old(now.w) && now.g.taken == old(now.g.taken)
        invariant now.g.outcomes == old(now.g.outcomes) && now.g.answers == old(now.g.answers)
        invariant now.g.acks == old(now.g.acks)
      {
        var step: Step := *;
        if IsForeign(step) && Enabled(now, step) {
          if (step.Submit? || step.SendOnce?) && Accepts(now, step.parked) && now.cfg.capacity == 0 {
            LedgerAlways(states, steps, |steps|);
            DirectHandover(now, step);
            Take(step);
            return Some(step.command);
          }
          ForeignAtReady(now, step);
          Take(step);
        }
        rounds := rounds - 1;
      }
      if now.queue == [] || !now.cfg.writerAlive {
        return None;
      }
      LedgerAlways(states, steps, |steps|);
      command := Some(now.queue[0]);
      QueueHandover(now);
      Take(Step.Receive);
    }

    /** `lock_log_directory`; waiting while someone else holds the lock is waiting for a later call. */
    method LockDirectory() returns (ok: bool, ghost before: System)
      requires Valid() && now.w.pc == Locking
      modifies this
      ensures Valid() && OthersActed(old(now), before)
      ensures Enabled(before, Step.LockDirectory(ok)) && now == Apply(before, Step.LockDirectory(ok))
      ensures old(steps) <= steps && old(states) <= states
    {
      Interfere();
      var granted: bool := *;
      ok := granted && now.lock == Free;
      before := now;
      Take(Step.LockDirectory(ok));
    }
  }

  /** The state that follows the resolution of the current record. */
  ghost predicate Resolved(before: System, after: System, ok: bool) {
    && before.w.todo != []
    && |after.g.outcomes| == |before.g.outcomes| + 1
    && before.g.outcomes <= after.g.outcomes
    && after.g.outcomes[|before.g.outcomes|].record == before.w.todo[0]
    && (ok <==> after.g.outcomes[|before.g.outcomes|].Written?)
    && after.w.todo == before.w.todo[1..] && after.w.batch == before.w.batch
    && after.w.confirmed == before.w.confirmed + (if ok && before.w.batch then {before.w.todo[0].id} else {})
    && after.w.pc == (if after.w.todo != [] then Entry else if after.w.batch then Finishing else Ready)
    && after.g.taken == before.g.taken && after.g.answers == before.g.answers && after.g.acks == before.g.acks
    && after.errors >= before.errors + (if ok then 0 else 1)
  }

  /** Within one record: nothing is resolved yet. */
  ghost predicate SameRecord(a: System, b: System) {
    && b.cfg == a.cfg && b.w.todo == a.w.todo && b.w.batch == a.w.batch && b.w.confirmed == a.w.confirmed
    && b.g.outcomes == a.g.outcomes && b.g.taken == a.g.taken
    && b.g.answers == a.g.answers && b.g.acks == a.g.acks && b.errors >= a.errors
  }

  /**
   Slots above `index` hold what was one below them; those below `index` are as they were,
   except that others may have created the active file meanwhile.
   */
  ghost predicate Shifted(start: map<nat, nat>, current: map<nat, nat>, index: nat, n: nat) {
    && (forall i :: index < i < n ==>
          && (i - 1 in start ==> i in current && current[i] == start[i - 1])
          && (i > 1 && i - 1 !in start ==> i !in current))
    && (index < n && n - 1 in start ==> n in current && current[n] == start[n - 1])
    && (index < n && n > 1 && n - 1 !in start ==>
          (n in current <==> n in start) && (n in current ==> current[n] == start[n]))
    && (forall i :: (0 < i < index || i > n) ==>
          (i in current <==> i in start) && (i in current ==> current[i] == start[i]))
    && (0 < index && 0 in start ==> 0 in current && current[0] == start[0])
    && (index == n > 0 ==> (n in current <==> n in start) && (n in current ==> current[n] == start[n]))
    && (0 < index < n ==> index !in current)
  }

  /** Others can only have created the active file. */
  ghost predicate OthersNamed(a: map<nat, nat>, b: map<nat, nat>) {
    && (forall i :: i > 0 ==> (i in b <==> i in a) && (i in b ==> b[i] == a[i]))
    && (0 in a ==> 0 in b && b[0] == a[0])
  }

  lemma ShiftedByOthers(start: map<nat, nat>, a: map<nat, nat>, b: map<nat, nat>, index: nat, n: nat)
    requires Shifted(start, a, index, n) && OthersNamed(a, b)
    ensures Shifted(start, b, index, n)
  {
  }

  lemma ShiftedSkip(start: map<nat, nat>, a: map<nat, nat>, index: nat, n: nat)
    requires Shifted(start, a, index, n) && 0 < index <= n && index - 1 !in a
    ensures Shifted(start, a, index - 1, n)
  {
  }

  /** Clearing slot `index` and renaming the generation below it, with others acting in between. */
  lemma ShiftedMove(start: map<nat, nat>, a: map<nat, nat>, b: map<nat, nat>, index: nat, n: nat)
    requires Shifted(start, a, index, n) && 0 < index <= n && index - 1 in a
    requires OthersNamed(a - {index}, b)
    ensures Shifted(start, (b - {index - 1})[index := b[index - 1]], index - 1, n)
  {
    var after := (b - {index - 1})[index := b[index - 1]];
    assert forall i :: i in after <==> i == index || (i != index - 1 && i in b);
    assert after[index] == b[index - 1] == a[index - 1];
    assert forall i :: i in b && i > 0 ==> i in a && b[i] == a[i];
  }

  /** A run that entered the shift at step i and has not resolved a record since. */
  lemma ShiftOutcome(states: seq<System>, steps: seq<Step>, i: nat)
    requires IsRun(states, steps) && i <= |steps|
    requires states[i].w.pc == Scanning(states[i].cfg.generations) && Shifting(states[|steps|].w.pc)
    requires |states[i].g.outcomes| == |states[|steps|].g.outcomes|
    ensures states[|steps|].lock == HeldByWriter && LosesAtMostOldest(states[i], states[|steps|])
  {
    hide Retained, IsSuffix, ShiftInv, Store.Valid;
    StoreAlways(states, steps, |steps|);
    ShiftingThroughout(states, steps, i, |steps|);
    var more := ShiftLosesAtMostTheOldest(states, steps, i, |steps|);
  }

  lemma ScanEnabled(s: System)
    requires s.w.pc.Scanning? && s.w.pc.index > 0
    ensures Enabled(s, Scan)
  {
  }

  /** Testing for the generation below decides between moving it up and passing over it. */
  lemma ScanResult(a: System, before: System)
    requires OthersActed(a, before) && Enabled(before, Scan)
    ensures var now, index := Apply(before, Scan), a.w.pc.index;
            && SameRecord(a, now) && OthersNamed(a.store.names, before.store.names) && now.store == before.store
            && now.w.pc == (if index - 1 in before.store.names then Removing(index) else Scanning(index - 1))
            && now.w.handle == a.w.handle
            && now.w.approxLen == a.w.approxLen && now.w.linesSinceStat == a.w.linesSinceStat
  {
  }

  lemma SameRecordTransitive(a: System, b: System, c: System)
    requires SameRecord(a, b) && SameRecord(b, c)
    ensures SameRecord(a, c)
  {
  }

  /** Asking for the lock changes nothing but where the writer is. */
  lemma LockResult(a: System, before: System, ok: bool)
    requires OthersActed(a, before) && Enabled(before, Step.LockDirectory(ok))
    ensures var now := Apply(before, Step.LockDirectory(ok));
            && SameRecord(a, now) && now.w.pc == (if ok then Syncing else Opening)
            && now.w.handle == a.w.handle
            && now.w.approxLen == a.w.approxLen && now.w.linesSinceStat == a.w.linesSinceStat
  {
  }

  /** What `write_all` does to the record in hand, with others acting before. */
  lemma WriteAllResolves(a: System, before: System, torn: Option<nat>)
    requires OthersActed(a, before) && Enabled(before, WriteAll(torn))
    ensures var now, line := Apply(before, WriteAll(torn)), a.w.todo[0].line;
            && Resolved(a, now, torn.None?) && now.cfg == a.cfg
            && now.w.handle == (if torn.None? then a.w.handle else None)
            && now.w.approxLen == a.w.approxLen + (if torn.None? then |line| else 0)
            && now.w.linesSinceStat == a.w.linesSinceStat + (if torn.None? then 1 else 0)
  {
    hide Store.Append;
  }

  /** Another process cannot take the file from under the handle. */
  lemma WriteAllStaysEnabled(s: System, torn: Option<nat>)
    requires StoreInv(s) && s.w.pc == Appending && s.w.todo != []
    requires torn.Some? ==> torn.value < |s.w.todo[0].line|
    ensures Enabled(s, WriteAll(torn))
  {
    hide Retained, IsSuffix, ShiftInv;
  }

  class Writer {
    const around: Surroundings
    const maxBytes: nat
    var file: Option<nat>
    var approxLen: nat
    var linesSinceStat: nat

    /** The fields are what the protocol says the writer knows, and the run so far is legal. */
    ghost predicate Valid()
      reads this, around
    {
      && around.Valid()
      && maxBytes == around.now.cfg.maxBytes
      && file == around.now.w.handle
      && approxLen == around.now.w.approxLen
      && linesSinceStat == around.now.w.linesSinceStat
    }

    constructor (around: Surroundings)
      requires around.Valid() && around.steps == []
      ensures Valid() && this.around == around && around.now == old(around.now)
    {
      this.around := around;
      maxBytes := around.now.cfg.maxBytes;
      file := None;
      approxLen := 0;
      linesSinceStat := 0;
    }

    /** `sync_data` on the open handle; without one there is nothing to do and it succeeds. */
    method SyncOpenGeneration() returns (ok: bool)
      requires Valid() && (around.now.w.pc == Syncing || (around.now.w.pc == Finishing && around.now.g.taken > 0))
      modifies around
      ensures around.Valid() && old(around.steps) <= around.steps && old(around.states) <= around.states
      ensures around.now.cfg == old(around.now.cfg)
      ensures around.now.w.approxLen == approxLen && around.now.w.linesSinceStat == linesSinceStat
      ensures file.None? ==> ok
      ensures old(around.now.w.pc) == Syncing ==>
                && SameRecord(old(around.now), around.now)
                && around.now.w.pc == (if ok then Scanning(around.now.cfg.generations) else Opening)
                && around.now.w.handle == (if ok then None else file)
                && (forall i :: i > 0 ==> (i in around.now.store.names <==> i in old(around.now.store.names)))
                && (forall i :: i in old(around.now.store.names) ==>
                      i in around.now.store.names && around.now.store.names[i] == old(around.now.store.names)[i])
      ensures old(around.now.w.pc) == Finishing ==>
                && around.now.w.pc == Ready && around.now.w.handle == file
                && around.now.g.outcomes == old(around.now.g.outcomes)
                && |around.now.g.answers| == |old(around.now.g.answers)| + 1
                && around.now.g.answers[|old(around.now.g.answers)|].receipt == Receipt(ok, old(around.now.w.confirmed))
    {
      var synced: bool := *;
      ok := file.None? || synced;
      if around.now.w.pc == Syncing {
        var _ := around.Perform(SyncForRotation(synced));
      } else {
        var _ := around.Perform(FinishBatch(synced));
      }
    }

    /** `remove_file` on the target, if the target exists. */
    method ClearTarget(index: nat) returns (ok: bool)
      requires Valid() && around.now.w.pc == Removing(index)
      modifies around
      ensures Valid() && SameRecord(old(around.now), around.now)
      ensures old(around.steps) <= around.steps && old(around.states) <= around.states
      ensures around.now.w.pc == (if ok then Renaming(index) else Aborted)
      ensures ok ==> OthersNamed(old(around.now.store.names) - {index}, around.now.store.names)
    {
      var removable: bool := *;
      var before := around.Perform(ClearSlot(removable));
      ok := index !in before.store.names || removable;
    }

    /** `rename` of the generation below onto the cleared slot. */
    method RenameSource(index: nat) returns (ok: bool, ghost before: System)
      requires Valid() && around.now.w.pc == Renaming(index) && index > 0
      modifies around
      ensures Valid() && SameRecord(old(around.now), around.now)
      ensures old(around.steps) <= around.steps && old(around.states) <= around.states
      ensures around.now.w.pc == (if ok then Scanning(index - 1) else Aborted)
      ensures OthersNamed(old(around.now.store.names), before.store.names)
      ensures ok ==> around.now.store == before.store.Rename(index - 1, index)
    {
      ok := *;
      before := around.Perform(RenameUp(ok));
    }

    /** One slot: remove the target if it exists, then rename. */
    method MoveUp(index: nat, ghost names: map<nat, nat>, ghost n: nat) returns (ok: bool)
      requires Valid() && around.now.w.pc == Removing(index) && 0 < index <= n && index - 1 in around.now.store.names
      requires Shifted(names, around.now.store.names, index, n)
      modifies around
      ensures Valid() && SameRecord(old(around.now), around.now)
      ensures old(around.steps) <= around.steps && old(around.states) <= around.states
      ensures around.now.w.pc == (if ok then Scanning(index - 1) else Aborted)
      ensures ok ==> Shifted(names, around.now.store.names, index - 1, n)
    {
      ok := ClearTarget(index);
      if ok {
        ghost var before;
        ok, before := RenameSource(index);
        ShiftedMove(names, old(around.now.store.names), before.store.names, index, n);
      }
    }

    /** The body of the loop of `rotate_log_files`. */
    method ShiftSlot(index: nat, ghost names: map<nat, nat>, ghost n: nat) returns (ok: bool)
      requires Valid() && around.now.w.pc == Scanning(index) && 0 < index <= n
      requires Shifted(names, around.now.store.names, index, n)
      modifies around
      ensures Valid() && SameRecord(old(around.now), around.now)
      ensures old(around.steps) <= around.steps && old(around.states) <= around.states
      ensures around.now.w.pc == (if ok then Scanning(index - 1) else Aborted)
      ensures ok ==> Shifted(names, around.now.store.names, index - 1, n)
    {
      hide Shifted, Apply, Enabled, OthersActed, SameRecord, OthersNamed;
      ghost var start := around.now;
      ScanEnabled(start);
      var before := around.Perform(Scan);
      ScanResult(start, before);
      ghost var scanned := around.now;
      ShiftedByOthers(names, start.store.names, before.store.names, index, n);
      if index - 1 in before.store.names {
        ok := MoveUp(index, names, n);
        SameRecordTransitive(start, scanned, around.now);
      } else {
        ShiftedSkip(names, before.store.names, index, n);
        ok := true;
      }
    }

    /**
     The shift of the generations. On success generation i moved to i+1 and the oldest was
     replaced if the one below it existed; other names than 0..rotatedFiles are untouched.
     */
    method RotateLogFiles(rotatedFiles: nat) returns (ok: bool)
      requires Valid() && around.now.w.pc == Scanning(rotatedFiles) && rotatedFiles == around.now.cfg.generations
      modifies around
      ensures Valid() && SameRecord(old(around.now), around.now)
      ensures old(around.steps) <= around.steps && old(around.states) <= around.states
      ensures around.now.w.pc == (if ok then Scanning(0) else Aborted)
      ensures ok ==> Shifted(old(around.now.store.names), around.now.store.names, 0, rotatedFiles)
      ensures around.now.lock == HeldByWriter
      ensures LosesAtMostOldest(old(around.now), around.now)
    {
      ghost var names := around.now.store.names;
      var index := rotatedFiles;
      while index > 0
        invariant 0 <= index <= rotatedFiles
        invariant Valid() && SameRecord(old(around.now), around.now) && around.now.w.pc == Scanning(index)
        invariant old(around.steps) <= around.steps && old(around.states) <= around.states
        invariant Shifted(names, around.now.store.names, index, rotatedFiles)
      {
        ok := ShiftSlot(index, names, rotatedFiles);
        if !ok {
          ShiftOutcome(around.states, around.steps, |old(around.steps)|);
          return;
        }
        index := index - 1;
      }
      ShiftOutcome(around.states, around.steps, |old(around.steps)|);
      return true;
    }

    /** Rotation under the directory lock; on a failed lock or sync the handle and all generations stay. */
    method Rotate()
      requires Valid() && around.now.w.pc == Locking
      modifies this, around
      ensures Valid() && SameRecord(old(around.now), around.now) && around.now.w.pc == Opening
      ensures old(around.steps) <= around.steps && old(around.states) <= around.states
    {
      hide Apply, Enabled, OthersActed, Shifted, LosesAtMostOldest;
      ghost var start := around.now;
      var locked, before := around.LockDirectory();
      LockResult(start, before, locked);
      if !locked {
        return;
      }
      var synced := SyncOpenGeneration();
      if !synced {
        return;
      }
      file := None;
      var _ := RotateLogFiles(around.now.cfg.generations);
      EndRotate();
    }

    method EndRotate()
      requires Valid() && (around.now.w.pc == Scanning(0) || around.now.w.pc == Aborted)
      modifies this, around
      ensures Valid() && SameRecord(old(around.now), around.now) && around.now.w.pc == Opening
      ensures old(around.steps) <= around.steps && old(around.states) <= around.states
    {
      var _ := around.Perform(EndRotation);
      approxLen := 0;
      linesSinceStat := 0;
    }

    /** Opens the active path for appending; the length is 0 when it cannot be read. */
    method OpenHandle() returns (ok: bool)
      requires Valid() && around.now.w.pc == Opening && around.now.w.todo != [] && file.None?
      modifies this, around
      ensures Valid() && old(around.steps) <= around.steps && old(around.states) <= around.states
      ensures ok ==> SameRecord(old(around.now), around.now) && around.now.w.pc == Appending && file.Some?
      ensures !ok ==> Resolved(old(around.now), around.now, false) && around.now.cfg == old(around.now.cfg)
    {
      ok := *;
      var measured: bool := *;
      var _ := around.Perform(Open(ok, measured));
      if ok {
        file := around.now.w.handle;
        approxLen := if measured then |around.now.store.ContentAt(0)| else 0;
        linesSinceStat := 0;
      }
    }

    /** Opens the active path unless a handle is open already. */
    method EnsureHandle() returns (ok: bool)
      requires Valid() && around.now.w.pc == Opening && around.now.w.todo != []
      modifies this, around
      ensures Valid() && old(around.steps) <= around.steps && old(around.states) <= around.states
      ensures ok ==> SameRecord(old(around.now), around.now) && around.now.w.pc == Appending && file.Some?
      ensures !ok ==> Resolved(old(around.now), around.now, false) && around.now.cfg == old(around.now.cfg)
    {
      ok := true;
      if file.None? {
        ok := OpenHandle();
      } else {
        var _ := around.Perform(Open(true, true));
      }
    }

    /**
     The re-stat that is due every REFRESH_LEN_EVERY_LINES lines; `measured` says whether the system
     answers it. Afterwards a due and answered one has counted the active file, others' bytes included.
     */
    method RefreshLength(measured: bool)
      requires Valid() && around.now.w.pc == Entry
      modifies this, around
      ensures Valid() && SameRecord(old(around.now), around.now)
      ensures around.now.w.pc == (if approxLen >= maxBytes then Locking else Opening)
      ensures old(linesSinceStat) >= REFRESH_LEN_EVERY_LINES ==> linesSinceStat == 0
      ensures old(linesSinceStat) < REFRESH_LEN_EVERY_LINES ==> linesSinceStat == old(linesSinceStat)
      ensures old(linesSinceStat) >= REFRESH_LEN_EVERY_LINES && measured && 0 in around.now.store.names
              ==> approxLen == |around.now.store.ContentAt(0)|
      ensures old(linesSinceStat) < REFRESH_LEN_EVERY_LINES || !measured ==> approxLen == old(approxLen)
      ensures old(around.steps) <= around.steps && old(around.states) <= around.states
    {
      var before := around.Perform(Enter(measured));
      if linesSinceStat >= REFRESH_LEN_EVERY_LINES {
        linesSinceStat := 0;
        if measured && 0 in before.store.names {
          approxLen := |before.store.ContentAt(0)|;
        }
      }
    }

    /** `write_all` through the open handle; an error leaves a proper prefix and drops the handle. */
    method Append(line: Bytes) returns (ok: bool)
      requires Valid() && around.now.w.pc == Appending && around.now.w.todo != []
      requires around.now.w.todo[0].line == line
      modifies this, around
      ensures Valid() && Resolved(old(around.now), around.now, ok) && around.now.cfg == old(around.now.cfg)
      ensures ok ==> file == old(file) && linesSinceStat == old(linesSinceStat) + 1
      ensures ok ==> approxLen == old(approxLen) + |line|
      ensures !ok ==> file.None?
      ensures old(around.steps) <= around.steps && old(around.states) <= around.states
    {
      hide StoreInv, Apply, Enabled, Resolved, OthersActed;
      StoreAlways(around.states, around.steps, |around.steps|);
      var torn: Option<nat> := *;
      if torn.Some? && torn.value >= |line| {
        torn := None;
      }
      WriteAllStaysEnabled(around.now, torn);
      ghost var start := around.now;
      ghost var before := around.Perform(WriteAll(torn));
      WriteAllResolves(start, before, torn);
      ok := torn.None?;
      if ok {
        approxLen := approxLen + |line|;
        linesSinceStat := linesSinceStat + 1;
      } else {
        file := None;
      }
    }

    /** Writes one line, rotating first when the active file is full. */
    method WriteLine(line: Bytes) returns (ok: bool)
      requires Valid() && around.now.w.pc == Entry && around.now.w.todo != []
      requires around.now.w.todo[0].line == line
      modifies this, around
      ensures Valid() && Resolved(old(around.now), around.now, ok) && around.now.cfg == old(around.now.cfg)
      ensures old(around.steps) <= around.steps && old(around.states) <= around.states
    {
      hide OthersActed, Apply, Enabled, Store.ContentAt, IsRun, Retained;
      var measured: bool := *;
      RefreshLength(measured);
      if approxLen >= maxBytes {
        Rotate();
      }
      ok := EnsureHandle();
      if ok {
        ok := Append(line);
      }
    }

    /** Writes a batch record by record, syncs, and answers with the ids that were written. */
    method PersistEvidence(records: seq<Record>) returns (receipt: Receipt)
      requires Valid() && Begun(around.now, Persist(records))
      modifies this, around
      ensures Valid() && around.now.w.pc == Ready && around.now.cfg == old(around.now.cfg)
      ensures old(around.steps) <= around.steps && old(around.states) <= around.states
      ensures old(around.now.g.outcomes) <= around.now.g.outcomes
      ensures AreOutcomesOf(around.now.g.outcomes[|old(around.now.g.outcomes)|..], records)
      ensures |around.now.g.answers| == |old(around.now.g.answers)| + 1
      ensures around.now.g.answers[|old(around.now.g.answers)|].receipt == receipt
    {
      var confirmed: set<string> := {};
      var k := 0;
      while k < |records|
        invariant 0 <= k <= |records|
        invariant Valid() && around.now.cfg == old(around.now.cfg)
        invariant old(around.steps) <= around.steps && old(around.states) <= around.states
        invariant around.now.w.todo == records[k..] && around.now.w.batch && around.now.w.confirmed == confirmed
        invariant around.now.w.pc == (if k < |records| then Entry else Finishing)
        invariant around.now.g.taken > 0 && around.now.g.answers == old(around.now.g.answers)
        invariant old(around.now.g.outcomes) <= around.now.g.outcomes
        invariant AreOutcomesOf(around.now.g.outcomes[|old(around.now.g.outcomes)|..], records[..k])
      {
        ghost var before := around.now.g.outcomes;
        var written := WriteLine(records[k].line);
        OutcomesNext(old(around.now.g.outcomes), before, around.now.g.outcomes, records, k);
        if written {
          confirmed := confirmed + {records[k].id};
        }
        k := k + 1;
      }
      var synced := SyncOpenGeneration();
      receipt := Receipt(synced, confirmed);
    }

    /**
     The thread's loop over `deliveries` commands, or until the channel closes. When it stops,
     every received command has been served in order, and the whole execution was a run.
     */
    method Run(deliveries: nat)
      requires Valid() && around.now.w.pc == Ready
      modifies this, around
      ensures Valid() && around.now.w.pc == Ready
      ensures old(around.steps) <= around.steps && old(around.states) <= around.states
      ensures StoreInv(around.now) && LedgerInv(around.now) && EvidenceInv(around.now)
      ensures Records(around.now.g.outcomes) == Flatten(around.now.g.accepted[..around.now.g.taken])
    {
      hide WorkInv, ChannelInv, PlacedInv, AckInv, EvidenceInv, StoreInv;
      var served := 0;
      var open := true;
      while open && served < deliveries
        invariant Valid() && around.now.w.pc == Ready
        invariant old(around.steps) <= around.steps && old(around.states) <= around.states
        decreases deliveries - served, open
      {
        var command := around.Receive();
        match command {
          case None => open := false;
          case Some(Line(line)) => var _ := WriteLine(line);
          case Some(Flush) =>
          case Some(Evidence(record)) => var _ := WriteLine(record.line);
          case Some(Persist(records)) => var _ := PersistEvidence(records);
        }
        served := served + 1;
      }
      StoreAlways(around.states, around.steps, |around.steps|);
      LedgerAlways(around.states, around.steps, |around.steps|);
      EvidenceAlways(around.states, around.steps, |around.steps|);
      NothingInHand(around.now);
    }
  }
}
