/**
 Where a written line is in the retained log. The distance of its first byte from the end of the
 log says in which generation it is, and whether it still is in one.
 */
module LogLocation {
  import opened Prelude
  import opened LogStore
  import opened LogProtocol
  import opened LogStoreInvariant
  import opened LogEvidence

  /**
   `far` bytes of the log lie between the start of the line and the end of the log. If the file
   of the line is generation i, `offset` is where that puts it among the generations i, ..., 0;
   if it is no generation, the line lies wholly before what is retained.
   */
  ghost predicate Located(st: Store, n: nat, o: Outcome, far: int) {
    o.Written? && o.record.line != [] ==>
      && (forall i :: 0 <= i <= n && i in st.names && st.names[i] == o.file ==>
            far == |Retained(st, i)| - o.offset)
      && (!Named(st, n, o.file) ==> far >= |Retained(st, n)| + |o.record.line|)
  }

  /** Generations i, ..., 0 end the generations n, ..., 0. */
  lemma {:induction false} RetainedGrowsWith(st: Store, i: nat, n: nat)
    requires i <= n
    ensures |Retained(st, i)| <= |Retained(st, n)|
  {
    if i < n {
      RetainedGrowsWith(st, i, n - 1);
    }
  }

  /** A line is in some generation exactly if it starts no further from the end than the retained log. */
  lemma NamedExactlyWhen(st: Store, n: nat, o: Outcome, far: int)
    requires Located(st, n, o, far) && o.Written? && o.record.line != []
    ensures Named(st, n, o.file) <==> far <= |Retained(st, n)|
  {
    hide Retained;
    if Named(st, n, o.file) {
      var i: nat :| i <= n && i in st.names && st.names[i] == o.file;
      RetainedGrowsWith(st, i, n);
    }
  }

  // ----- how each kind of I/O moves a line -----

  /** Bytes appended to the active file, which may have been created for them. */
  lemma LocatedAppend(a: Store, b: Store, n: nat, o: Outcome, far: int, more: Bytes)
    requires Located(a, n, o, far) && InFile(a, o)
    requires b.names == a.names || (0 !in a.names && b.names == a.names[0 := |a.files|])
    requires forall i :: 0 <= i <= n ==> |Retained(b, i)| == |Retained(a, i)| + |more|
    ensures Located(b, n, o, far + |more|)
  {
    hide Retained;
    if o.Written? && Named(a, n, o.file) {
      var i: nat :| i <= n && i in a.names && a.names[i] == o.file;
      assert i in b.names && b.names[i] == o.file;
    }
  }

  /** The oldest generation is deleted, and the lines in it with it. */
  lemma LocatedRemove(st: Store, n: nat, o: Outcome, far: int)
    requires st.Valid() && Located(st, n, o, far) && InFile(st, o) && n > 0
    ensures Located(st.Remove(n), n, o, far)
  {
    hide Retained;
    if o.Written? && o.record.line != [] {
      var after := st.Remove(n);
      RemoveOldestCutsPrefix(st, n);
      forall i | 0 <= i <= n && i in after.names && after.names[i] == o.file
        ensures |Retained(after, i)| == |Retained(st, i)|
      {
        RetainedFrame(after, st, i);
      }
      if n in st.names && st.names[n] == o.file {
        assert |st.ContentAt(n)| >= o.offset + |o.record.line|;
      } else if Named(st, n, o.file) {
        var i: nat :| i <= n && i in st.names && st.names[i] == o.file;
        assert i in after.names && after.names[i] == o.file;
      }
    }
  }

  lemma RetainedFrame(a: Store, b: Store, n: nat)
    requires forall i :: 0 <= i <= n ==> a.ContentAt(i) == b.ContentAt(i)
    ensures Retained(a, n) == Retained(b, n)
  {
    hide Store.ContentAt;
    OlderFrame(a, b, n);
  }

  /** What each generation starts with, counted from the end of the log, when index-1 moves up. */
  lemma RenameMovesStart(st: Store, index: nat, i: nat)
    requires st.Valid() && 0 < index && index - 1 in st.names && index !in st.names && i != index - 1
    ensures Retained(st.Rename(index - 1, index), i) == Retained(st, if i == index then index - 1 else i)
  {
    hide Store.Rename, Store.ContentAt, Store.Valid, Retained;
    var after := st.Rename(index - 1, index);
    RenameMoves(st, index - 1);
    if i < index - 1 {
      RetainedFrame(after, st, i);
    } else {
      RenameKeepsRetained(st, index - 1, i);
      RetainedOverEmpty(st, index);
    }
  }

  lemma RetainedOverEmpty(st: Store, index: nat)
    requires st.ContentAt(index) == [] && index > 0
    ensures Retained(st, index) == Retained(st, index - 1)
  {
    hide Store.ContentAt;
    assert Older(st, index) == Older(st, index - 1);
  }

  /** Generation index-1 is renamed into the free slot above it. */
  lemma LocatedRename(st: Store, index: nat, n: nat, o: Outcome, far: int)
    requires st.Valid() && Located(st, n, o, far) && 0 < index <= n
    requires index - 1 in st.names && index !in st.names
    ensures Located(st.Rename(index - 1, index), n, o, far)
  {
    hide Retained;
    if o.Written? && o.record.line != [] {
      var after := st.Rename(index - 1, index);
      RenameKeepsRetained(st, index - 1, n);
      forall i | 0 <= i <= n && i in after.names && after.names[i] == o.file
        ensures far == |Retained(after, i)| - o.offset
      {
        RenameMovesStart(st, index, i);
      }
      if Named(st, n, o.file) {
        var i: nat :| i <= n && i in st.names && st.names[i] == o.file;
        var k := if i == index - 1 then index else i;
        assert k in after.names && after.names[k] == o.file;
      }
    }
  }

  lemma LocatedSync(st: Store, f: nat, n: nat, o: Outcome, far: int)
    requires st.Valid() && Located(st, n, o, far)
    ensures Located(st.Sync(f), n, o, far)
  {
    hide Retained;
    var after := st.Sync(f);
    assert after.names == st.names;
    forall i: nat ensures Retained(after, i) == Retained(st, i) {
      SyncKeepsRetained(st, f, i);
    }
  }

  /** A line just appended ends the log. */
  lemma LocatedWritten(st: Store, n: nat, record: Record, at: nat)
    requires st.Valid() && 0 in st.names
    ensures Located(st.Append(st.names[0], record.line), n,
                    Written(record, st.names[0], |st.ContentAt(0)|, at), |record.line|)
  {
    var after := st.Append(st.names[0], record.line);
    AppendReachesOne(st, record.line);
    assert after.names[0] == st.names[0] && Named(after, n, st.names[0]);
    assert Older(after, 0) == [];
  }

  // ----- every step -----

  /** By how much the log has grown. */
  function Growth(s: System, next: System): int {
    |next.g.log| - |s.g.log|
  }

  lemma LocatedExternalAppend(s: System, bytes: Bytes, o: Outcome, far: int)
    requires StoreInv(s) && Located(s.store, s.cfg.generations, o, far) && InFile(s.store, o)
    ensures Located(ApplyExternalAppend(s, bytes).store, s.cfg.generations, o, far + |bytes|)
  {
    hide Retained, Located, InFile, IsSuffix, ShiftInv, HandleInv;
    var after := s.store.AppendToActive(bytes);
    forall i: nat ensures |Retained(after, i)| == |Retained(s.store, i)| + |bytes| {
      ExternalAppendExtendsRetained(s.store, bytes, i);
    }
    LocatedAppend(s.store, after, s.cfg.generations, o, far, bytes);
  }

  lemma LocatedOpen(s: System, ok: bool, statOk: bool, o: Outcome, far: int)
    requires StoreInv(s) && Located(s.store, s.cfg.generations, o, far) && InFile(s.store, o)
    requires Enabled(s, Open(ok, statOk))
    ensures Located(ApplyOpen(s, ok, statOk).store, s.cfg.generations, o, far)
    ensures ApplyOpen(s, ok, statOk).g.log == s.g.log
  {
    hide Retained, Located, InFile, IsSuffix, ShiftInv, HandleInv, Store.ContentAt;
    forall i: nat ensures |Retained(s.store.OpenActive(), i)| == |Retained(s.store, i)| {
      OpenKeepsRetained(s.store, i);
    }
    LocatedAppend(s.store, s.store.OpenActive(), s.cfg.generations, o, far, []);
  }

  lemma LocatedWriteAll(s: System, torn: Option<nat>, o: Outcome, far: int)
    requires StoreInv(s) && Located(s.store, s.cfg.generations, o, far) && InFile(s.store, o)
    requires Enabled(s, WriteAll(torn))
    ensures var next := ApplyWriteAll(s, torn);
            Located(next.store, s.cfg.generations, o, far + Growth(s, next))
  {
    hide Retained, Located, InFile, IsSuffix, ShiftInv, Store.ContentAt;
    var line, f := s.w.todo[0].line, s.w.handle.value;
    var more := if torn.None? then line else line[..torn.value];
    var after := s.store.Append(f, more);
    forall i: nat ensures |Retained(after, i)| == |Retained(s.store, i)| + |more| {
      AppendExtendsRetained(s.store, more, i);
    }
    LocatedAppend(s.store, after, s.cfg.generations, o, far, more);
  }

  lemma LocatedSyncHandle(s: System, o: Outcome, far: int)
    requires StoreInv(s) && Located(s.store, s.cfg.generations, o, far)
    ensures Located(SyncHandle(s).store, s.cfg.generations, o, far)
  {
    hide Retained, Located, IsSuffix, ShiftInv, HandleInv;
    if s.w.handle.Some? { LocatedSync(s.store, s.w.handle.value, s.cfg.generations, o, far); }
  }

  lemma LocatedShift(s: System, step: Step, o: Outcome, far: int)
    requires StoreInv(s) && Located(s.store, s.cfg.generations, o, far) && InFile(s.store, o)
    requires Enabled(s, step) && (step.ClearSlot? || step.RenameUp?)
    ensures Located(Apply(s, step).store, s.cfg.generations, o, far) && Apply(s, step).g.log == s.g.log
  {
    hide Retained, Located, InFile, IsSuffix, HandleInv, Store.ContentAt;
    var index, n := s.w.pc.index, s.cfg.generations;
    if step.ClearSlot? {
      if index in s.store.names && step.ok { LocatedRemove(s.store, n, o, far); }
    } else if step.ok {
      LocatedRename(s.store, index, n, o, far);
    }
  }

  lemma QuietStepKeepsLog(s: System, step: Step)
    requires Enabled(s, step)
    requires step.ExporterLock? || step.ExporterRead? || step.ExporterUnlock? || step.SyncForRotation?
             || step.FinishBatch? || step.Enter? || step.LockDirectory? || step.Scan? || step.EndRotation?
    ensures Apply(s, step).g.log == s.g.log
    ensures step.SyncForRotation? || step.FinishBatch? ==> Apply(s, step).store in {s.store, SyncHandle(s).store}
    ensures !step.SyncForRotation? && !step.FinishBatch? ==> Apply(s, step).store == s.store
  {
    hide Retained, Store.ContentAt, Store.Sync;
  }

  lemma ChannelKeepsLog(s: System, step: Step)
    requires Enabled(s, step) && IsChannelStep(step)
    ensures Apply(s, step).g.log == s.g.log && Apply(s, step).store == s.store
  {
    hide Work;
  }

  /** Whatever step is taken, the distance of a line from the end grows with the log. */
  lemma LocatedStep(s: System, step: Step, o: Outcome, far: int)
    requires StoreInv(s) && Located(s.store, s.cfg.generations, o, far) && InFile(s.store, o)
    requires Enabled(s, step)
    ensures Located(Apply(s, step).store, s.cfg.generations, o, far + Growth(s, Apply(s, step)))
  {
    hide StoreInv, Located, InFile;
    match step
    case ExternalAppend(bytes) => LocatedExternalAppend(s, bytes, o, far);
    case Open(ok, statOk) => LocatedOpen(s, ok, statOk, o, far);
    case WriteAll(torn) => LocatedWriteAll(s, torn, o, far);
    case ClearSlot(_) => LocatedShift(s, step, o, far);
    case RenameUp(_) => LocatedShift(s, step, o, far);
    case Submit(_, _) => ChannelKeepsLog(s, step);
    case SendOnce(_, _) => ChannelKeepsLog(s, step);
    case Receive => ChannelKeepsLog(s, step);
    case _ =>
      QuietStepKeepsLog(s, step);
      LocatedSyncHandle(s, o, far);
  }

  // ----- every run -----

  /** `at` says where the line is: counted from the end of the log as it is now. */
  ghost predicate AtItsPlace(s: System, o: Outcome) {
    o.Written? ==> Located(s.store, s.cfg.generations, o, |s.g.log| - o.at)
  }

  lemma NewLineIsAtItsPlace(s: System)
    requires StoreInv(s) && Enabled(s, WriteAll(None))
    ensures var next := ApplyWriteAll(s, None);
            next.g.outcomes[..|s.g.outcomes|] == s.g.outcomes && |next.g.outcomes| == |s.g.outcomes| + 1
              && AtItsPlace(next, next.g.outcomes[|s.g.outcomes|])
  {
    hide Retained, Located, IsSuffix, ShiftInv;
    LocatedWritten(s.store, s.cfg.generations, s.w.todo[0], |s.g.log|);
  }

  lemma NoOtherNewLine(s: System, step: Step, k: nat)
    requires StoreInv(s) && Enabled(s, step) && step != WriteAll(None)
    requires |s.g.outcomes| <= k < |Apply(s, step).g.outcomes|
    ensures !Apply(s, step).g.outcomes[k].Written?
  {
    hide StoreInv, Store.ContentAt, Store.Append, Store.OpenActive;
    if IsChannelStep(step) {
      ChannelKeepsOutcomes(s, step);
    } else if !step.Open? && !step.WriteAll? {
      OtherStepsKeepLedger(s, step);
    }
  }

  lemma AtItsPlaceStep(s: System, step: Step, k: nat)
    requires StoreInv(s) && EvidenceInv(s) && Enabled(s, step) && k < |Apply(s, step).g.outcomes|
    requires k < |s.g.outcomes| ==> AtItsPlace(s, s.g.outcomes[k])
    ensures AtItsPlace(Apply(s, step), Apply(s, step).g.outcomes[k])
  {
    hide StoreInv, Located, Apply, Enabled, Accurate, InPlace, LeftByFailure, BatchInv;
    var next := Apply(s, step);
    EveryStepGrows(s, step);
    ConfigIsFixed(s, step);
    if k < |s.g.outcomes| {
      var o := s.g.outcomes[k];
      if o.Written? { LocatedStep(s, step, o, |s.g.log| - o.at); }
    } else if step == WriteAll(None) {
      NewLineIsWritten(s);
    } else {
      NoOtherNewLine(s, step, k);
    }
  }

  lemma NewLineIsWritten(s: System)
    requires StoreInv(s) && Enabled(s, WriteAll(None))
    ensures var next := Apply(s, WriteAll(None));
            |next.g.outcomes| == |s.g.outcomes| + 1 && AtItsPlace(next, next.g.outcomes[|s.g.outcomes|])
  {
    hide StoreInv, AtItsPlace, ApplyWriteAll;
    NewLineIsAtItsPlace(s);
  }

  /** Every line ever written is, at every moment, where its position in the log says. */
  lemma {:induction false} LinesAreAtTheirPlaces(states: seq<System>, steps: seq<Step>, i: nat, k: nat)
    requires IsRun(states, steps) && i < |states| && k < |states[i].g.outcomes|
    ensures AtItsPlace(states[i], states[i].g.outcomes[k])
  {
    hide StoreInv, EvidenceInv, Apply, Enabled, AtItsPlace;
    if i > 0 {
      if k < |states[i - 1].g.outcomes| { LinesAreAtTheirPlaces(states, steps, i - 1, k); }
      StoreAlways(states, steps, i - 1);
      EvidenceAlways(states, steps, i - 1);
      assert Next(states[i - 1], steps[i - 1], states[i - 1 + 1]);
      AtItsPlaceStep(states[i - 1], steps[i - 1], k);
    }
  }

  /** From one moment of a run to a later one, also for a line an earlier run wrote. */
  lemma {:induction false} LocatedStays(states: seq<System>, steps: seq<Step>, i: nat, j: nat, o: Outcome, far: int)
    requires IsRun(states, steps) && i <= j < |states|
    requires InFile(states[i].store, o) && Located(states[i].store, states[i].cfg.generations, o, far)
    ensures InFile(states[j].store, o) && states[j].cfg == states[i].cfg
    ensures Located(states[j].store, states[j].cfg.generations, o, far + Growth(states[i], states[j]))
    decreases j
  {
    hide StoreInv, Located, Apply, Enabled, Grown, InFile;
    if i < j {
      LocatedStays(states, steps, i, j - 1, o, far);
      StoreAlways(states, steps, j - 1);
      assert Next(states[j - 1], steps[j - 1], states[j - 1 + 1]);
      EveryStepGrows(states[j - 1], steps[j - 1]);
      InFileGrows(states[j - 1].store, states[j].store, o);
      ConfigIsFixed(states[j - 1], steps[j - 1]);
      LocatedStep(states[j - 1], steps[j - 1], o, far + Growth(states[i], states[j - 1]));
    }
  }

  // ----- which lines are durable -----

  /** The line is empty, or starts no further back than what is retained. */
  predicate StillRetained(s: System, o: Outcome)
    requires o.Written?
  {
    o.record.line == [] || o.at >= |s.g.log| - |Retained(s.store, s.cfg.generations)|
  }

  /**
   At every moment of every run a line that was reported written is in the directory and synced
   there if and only if it is not one of the unsynced lines and starts no further from the end
   of the log than the retained bytes reach.
   */
  lemma LineIsDurableExactlyWhen(states: seq<System>, steps: seq<Step>, i: nat, k: nat)
    requires IsRun(states, steps) && i < |states|
    requires k < |states[i].g.outcomes| && states[i].g.outcomes[k].Written?
    ensures var s, o, e := states[i], states[i].g.outcomes[k], states[i].g.exposure;
            Durable(s.store, s.cfg.generations, o) <==> k !in e.held + e.loose + e.stranded && StillRetained(s, o)
  {
    hide Located, Named, LeftByFailure, BatchInv, InPlace, StoreInv, Retained;
    var s, o := states[i], states[i].g.outcomes[k];
    EvidenceAlways(states, steps, i);
    LinesAreAtTheirPlaces(states, steps, i, k);
    assert InFile(s.store, o);
    assert k in s.g.exposure.held + s.g.exposure.loose + s.g.exposure.stranded <==> Unsynced(s.store, o);
    if o.record.line != [] {
      NamedExactlyWhen(s.store, s.cfg.generations, o, |s.g.log| - o.at);
    }
  }
}
