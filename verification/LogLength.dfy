/**
 The length the writer works with: what it counts, and what it looks up from time to time because
 others append too. It never loses track by more than what others appended since it last looked,
 so the active file stays bounded.
 */
module LogLength {
  import opened Prelude
  import opened LogStore
  import opened LogProtocol
  import opened LogStoreInvariant

  /** The length of the active file. */
  function ActiveLength(s: System): nat {
    |s.store.ContentAt(0)|
  }

  /** Between looking at the length and resolving the record there is no counting of lines. */
  predicate Looked(pc: Pc) {
    pc != Ready && pc != Entry && pc != Finishing
  }

  /**
   With a handle open, the file is as long as the writer believes plus what others appended since
   it last read the length, plus what it could not see when it opened the file. It writes at
   most 128 lines between two looks.
   */
  ghost predicate LengthInv(s: System) {
    var a := s.g.active;
    && (s.w.handle.Some? ==> ActiveLength(s) == s.w.approxLen + a.unseen + a.missed)
    && a.unseen <= a.appended && a.inherited + a.appended <= ActiveLength(s)
    && s.w.linesSinceStat <= REFRESH_LEN_EVERY_LINES
    && (Looked(s.w.pc) ==> s.w.linesSinceStat < REFRESH_LEN_EVERY_LINES)
  }

  lemma LengthChannelStep(s: System, step: Step)
    requires LengthInv(s) && Enabled(s, step) && IsChannelStep(step)
    ensures LengthInv(Apply(s, step))
  {
    hide Work, Store.ContentAt;
    var next := Apply(s, step);
    assert next.store == s.store && next.g.active == s.g.active && next.w.handle == s.w.handle;
    assert next.w.approxLen == s.w.approxLen && next.w.linesSinceStat == s.w.linesSinceStat;
    assert next.w.pc == s.w.pc || (s.w.pc == Ready && !Looked(next.w.pc));
  }

  lemma LengthQuietStep(s: System, step: Step)
    requires StoreInv(s) && LengthInv(s) && Enabled(s, step)
    requires step.ExporterLock? || step.ExporterRead? || step.ExporterUnlock?
             || step.Enter? || step.LockDirectory? || step.Scan? || step.EndRotation?
    ensures LengthInv(Apply(s, step))
  {
    hide Retained, Store.ContentAt, IsSuffix, ShiftInv;
  }

  lemma LengthExternalAppend(s: System, bytes: Bytes)
    requires StoreInv(s) && LengthInv(s)
    ensures LengthInv(ApplyExternalAppend(s, bytes))
  {
    hide Retained, IsSuffix, ShiftInv, HandleInv, Store.ContentAt, Store.AppendToActive;
    ExternalAppendExtendsRetained(s.store, bytes, 0);
  }

  lemma LengthSync(s: System, step: Step)
    requires StoreInv(s) && LengthInv(s) && Enabled(s, step) && (step.SyncForRotation? || step.FinishBatch?)
    ensures LengthInv(Apply(s, step))
  {
    hide Retained, IsSuffix, ShiftInv, HandleInv, Store.ContentAt;
    StoreSync(s);
  }

  lemma LengthShift(s: System, step: Step)
    requires StoreInv(s) && LengthInv(s) && Enabled(s, step) && (step.ClearSlot? || step.RenameUp?)
    ensures LengthInv(Apply(s, step))
  {
    hide Retained, IsSuffix;
  }

  lemma LengthOpen(s: System, ok: bool, statOk: bool)
    requires StoreInv(s) && LengthInv(s) && Enabled(s, Open(ok, statOk))
    ensures LengthInv(ApplyOpen(s, ok, statOk))
  {
    hide Retained, IsSuffix, ShiftInv, Store.ContentAt;
    OpenKeepsRetained(s.store, 0);
  }

  lemma LengthWriteAll(s: System, torn: Option<nat>)
    requires StoreInv(s) && LengthInv(s) && Enabled(s, WriteAll(torn))
    ensures LengthInv(ApplyWriteAll(s, torn))
  {
    hide Retained, IsSuffix, ShiftInv, Store.ContentAt;
    var line := s.w.todo[0].line;
    AppendReachesOne(s.store, if torn.None? then line else line[..torn.value]);
  }

  lemma LengthStep(s: System, step: Step)
    requires StoreInv(s) && LengthInv(s) && Enabled(s, step)
    ensures LengthInv(Apply(s, step))
  {
    hide StoreInv, LengthInv;
    match step
    case ExternalAppend(bytes) => LengthExternalAppend(s, bytes);
    case SyncForRotation(_) => LengthSync(s, step);
    case FinishBatch(_) => LengthSync(s, step);
    case ClearSlot(_) => LengthShift(s, step);
    case RenameUp(_) => LengthShift(s, step);
    case Open(ok, statOk) => LengthOpen(s, ok, statOk);
    case WriteAll(torn) => LengthWriteAll(s, torn);
    case Submit(_, _) => LengthChannelStep(s, step);
    case SendOnce(_, _) => LengthChannelStep(s, step);
    case Receive => LengthChannelStep(s, step);
    case _ => LengthQuietStep(s, step);
  }

  lemma {:induction false} LengthAlways(states: seq<System>, steps: seq<Step>, i: nat)
    requires IsRun(states, steps) && i < |states|
    ensures LengthInv(states[i])
  {
    hide StoreInv, LengthInv, Apply, Enabled;
    if i == 0 {
      LengthAtStart(states[0]);
    } else {
      LengthAlways(states, steps, i - 1);
      StoreAlways(states, steps, i - 1);
      assert Next(states[i - 1], steps[i - 1], states[i - 1 + 1]);
      LengthStep(states[i - 1], steps[i - 1]);
    }
  }

  lemma LengthAtStart(s: System)
    requires Init(s)
    ensures LengthInv(s)
  {
    hide Retained, Store.ContentAt;
  }

  /**
   A successful look that is due, in any run: the writer goes to rotate if and only if the active
   file, what others appended included, has reached the limit; and from then on it knows its length.
   */
  lemma DueLookDecides(states: seq<System>, steps: seq<Step>, i: nat)
    requires IsRun(states, steps) && i < |steps| && steps[i] == Enter(true)
    requires states[i].w.linesSinceStat >= REFRESH_LEN_EVERY_LINES && states[i].w.handle.Some?
    ensures var s, next := states[i], states[i + 1];
            && (next.w.pc == Locking <==>
                  s.w.approxLen + s.g.active.unseen + s.g.active.missed >= s.cfg.maxBytes)
            && (next.w.pc == Locking <==> ActiveLength(next) >= s.cfg.maxBytes)
            && next.w.approxLen == ActiveLength(next) && next.w.linesSinceStat == 0
            && next.store == s.store
  {
    hide Retained, Store.ContentAt, IsSuffix, ShiftInv;
    LengthAlways(states, steps, i);
    StoreAlways(states, steps, i);
    assert Next(states[i], steps[i], states[i + 1]);
  }

  // ----- how often it looks -----

  /** The writer reads the length, or tries to, or starts afresh after a rotation. */
  predicate Looks(s: System, step: Step) {
    || (step.Enter? && s.w.linesSinceStat >= REFRESH_LEN_EVERY_LINES)
    || (step.Open? && step.ok && s.w.handle.None?)
    || step.EndRotation?
  }

  lemma ResolvingCountsLines(s: System, step: Step)
    requires Enabled(s, step) && (step.Open? || step.WriteAll?) && !Looks(s, step)
    ensures Apply(s, step).w.linesSinceStat == s.w.linesSinceStat + if step == WriteAll(None) then 1 else 0
  {
    hide Store.ContentAt, Store.Append, Store.OpenActive;
  }

  lemma OthersCountNoLines(s: System, step: Step)
    requires Enabled(s, step) && !step.Open? && !step.WriteAll? && !Looks(s, step)
    ensures Apply(s, step).w.linesSinceStat == s.w.linesSinceStat
  {
    hide Work, Retained, Store.ContentAt, Store.Sync, Store.AppendToActive, Store.Remove, Store.Rename;
  }

  /** Lines written whole in the steps from i to j. */
  function WrittenLines(steps: seq<Step>, i: nat, j: nat): nat
    requires i <= j <= |steps|
  {
    if i == j then 0 else WrittenLines(steps, i, j - 1) + if steps[j - 1] == WriteAll(None) then 1 else 0
  }

  /** Without a look in between, every line written whole is counted, so there are at most 128. */
  lemma {:induction false} LooksEvery128Lines(states: seq<System>, steps: seq<Step>, i: nat, j: nat)
    requires IsRun(states, steps) && i <= j < |states|
    requires forall k :: i <= k < j ==> !Looks(states[k], steps[k])
    ensures states[j].w.linesSinceStat == states[i].w.linesSinceStat + WrittenLines(steps, i, j)
    ensures WrittenLines(steps, i, j) <= REFRESH_LEN_EVERY_LINES
    decreases j
  {
    hide Apply, Enabled, Looks;
    LengthAlways(states, steps, j);
    if i < j {
      LooksEvery128Lines(states, steps, i, j - 1);
      var s, step := states[j - 1], steps[j - 1];
      assert Next(s, step, states[j - 1 + 1]);
      if step.Open? || step.WriteAll? { ResolvingCountsLines(s, step); } else { OthersCountNoLines(s, step); }
    }
  }

  lemma LookResets(s: System, step: Step)
    requires Enabled(s, step) && Looks(s, step)
    ensures Apply(s, step).w.linesSinceStat == 0
  {
    hide Store.ContentAt, Store.OpenActive;
  }

  /** After a look the lines are counted from none. */
  lemma LinesSinceLook(states: seq<System>, steps: seq<Step>, i: nat, j: nat)
    requires IsRun(states, steps) && i < j < |states| && Looks(states[i], steps[i])
    requires forall k :: i < k < j ==> !Looks(states[k], steps[k])
    ensures states[j].w.linesSinceStat == WrittenLines(steps, i + 1, j)
  {
    hide Apply, Enabled, Looks;
    assert Next(states[i], steps[i], states[i + 1]);
    LookResets(states[i], steps[i]);
    LooksEvery128Lines(states, steps, i + 1, j);
  }

  // ----- how long the active file becomes -----

  /** No lock, sync, remove, rename or measurement at an open fails, and no line is longer than `longest`. */
  ghost predicate Smooth(s: System, step: Step, longest: nat) {
    && step != LockDirectory(false) && step != SyncForRotation(false)
    && step != ClearSlot(false) && step != RenameUp(false) && !(step.Open? && !step.statOk)
    && (step.WriteAll? && s.w.todo != [] ==> |s.w.todo[0].line| <= longest)
  }

  /** What the limit leaves room for, with `lines` more lines. */
  function Room(s: System, longest: nat, lines: nat): int {
    Max(s.cfg.maxBytes, s.g.active.inherited) + lines * longest + s.g.active.appended
  }

  /** Bounds on the active file at each point of the writer's work. */
  ghost predicate BoundedInv(s: System, longest: nat) {
    var length, pc := ActiveLength(s), s.w.pc;
    && s.g.active.missed == 0 && pc != Aborted
    && length <= Room(s, longest, 2)
    && (pc == Appending ==> length <= Room(s, longest, 1))
    && (pc == Opening ==> s.w.approxLen < s.cfg.maxBytes || (s.w.approxLen == 0 && s.w.handle.None?))
    && (s.w.handle.None? && !Shifting(pc) ==>
          length <= Max(s.w.approxLen + longest, s.g.active.inherited) + s.g.active.appended)
    && (pc == Scanning(0) ==> length == s.g.active.appended)
  }

  lemma BoundedChannelStep(s: System, step: Step, longest: nat)
    requires BoundedInv(s, longest) && Enabled(s, step) && IsChannelStep(step)
    ensures BoundedInv(Apply(s, step), longest)
  {
    hide Work, Store.ContentAt, Room;
    var next := Apply(s, step);
    assert next.store == s.store && next.g.active == s.g.active && next.w.handle == s.w.handle && next.cfg == s.cfg;
    assert next.w.approxLen == s.w.approxLen;
    assert next.w.pc == s.w.pc || (s.w.pc == Ready && next.w.pc in {Ready, Entry, Finishing});
    assert Room(next, longest, 2) == Room(s, longest, 2) && Room(next, longest, 1) == Room(s, longest, 1) by {
      SameRoom(s, next, longest);
    }
  }

  lemma SameRoom(s: System, next: System, longest: nat)
    requires next.cfg == s.cfg && next.g.active.inherited == s.g.active.inherited
    ensures var more := next.g.active.appended - s.g.active.appended;
            Room(next, longest, 2) == Room(s, longest, 2) + more && Room(next, longest, 1) == Room(s, longest, 1) + more
  {
  }

  lemma RoomIs(s: System, longest: nat)
    ensures Room(s, longest, 1) == Max(s.cfg.maxBytes, s.g.active.inherited) + longest + s.g.active.appended
    ensures Room(s, longest, 2) == Room(s, longest, 1) + longest
  {
  }

  lemma BoundedQuietStep(s: System, step: Step, longest: nat)
    requires StoreInv(s) && LengthInv(s) && BoundedInv(s, longest) && Enabled(s, step) && Smooth(s, step, longest)
    requires step.ExporterLock? || step.ExporterRead? || step.ExporterUnlock?
             || step.Enter? || step.LockDirectory? || step.Scan? || step.EndRotation?
    requires s.cfg.generations > 0
    ensures BoundedInv(Apply(s, step), longest)
  {
    hide Retained, Store.ContentAt, IsSuffix, Room;
    SameRoom(s, Apply(s, step), longest);
    RoomIs(s, longest);
    NothingIsEmpty(s);
  }

  lemma NothingIsEmpty(s: System)
    ensures 0 !in s.store.names ==> ActiveLength(s) == 0
  {
  }

  lemma BoundedExternalAppend(s: System, bytes: Bytes, longest: nat)
    requires StoreInv(s) && LengthInv(s) && BoundedInv(s, longest)
    ensures BoundedInv(ApplyExternalAppend(s, bytes), longest)
  {
    hide Retained, IsSuffix, ShiftInv, HandleInv, Store.ContentAt, Store.AppendToActive, Room;
    var next := ApplyExternalAppend(s, bytes);
    ExternalAppendExtendsRetained(s.store, bytes, 0);
    SameRoom(s, next, longest);
  }

  lemma BoundedSync(s: System, step: Step, longest: nat)
    requires StoreInv(s) && LengthInv(s) && BoundedInv(s, longest) && Enabled(s, step) && Smooth(s, step, longest)
    requires (step.SyncForRotation? || step.FinishBatch?) && s.cfg.generations > 0
    ensures BoundedInv(Apply(s, step), longest)
  {
    hide Retained, IsSuffix, ShiftInv, HandleInv, Store.ContentAt, Room;
    StoreSync(s);
    SameRoom(s, Apply(s, step), longest);
  }

  lemma RoomLeft(s: System, longest: nat, lines: nat)
    ensures Room(s, longest, lines) >= s.g.active.appended
  {
    MulNonNegative(lines, longest);
  }

  lemma MulNonNegative(x: nat, y: nat)
    ensures x * y >= 0
  {
  }

  lemma BoundedShift(s: System, step: Step, longest: nat)
    requires StoreInv(s) && LengthInv(s) && BoundedInv(s, longest) && Enabled(s, step) && Smooth(s, step, longest)
    requires step.ClearSlot? || step.RenameUp?
    ensures BoundedInv(Apply(s, step), longest)
  {
    hide Retained, IsSuffix, Room;
    RoomLeft(Apply(s, step), longest, 2);
    RoomLeft(Apply(s, step), longest, 1);
    if !(step.RenameUp? && s.w.pc.index == 1) {
      SameRoom(s, Apply(s, step), longest);
    }
  }

  lemma BoundedOpen(s: System, ok: bool, statOk: bool, longest: nat)
    requires StoreInv(s) && LengthInv(s) && BoundedInv(s, longest) && Enabled(s, Open(ok, statOk))
    requires Smooth(s, Open(ok, statOk), longest)
    ensures BoundedInv(ApplyOpen(s, ok, statOk), longest)
  {
    hide Retained, IsSuffix, ShiftInv, Store.ContentAt, Room;
    OpenKeepsRetained(s.store, 0);
    SameRoom(s, ApplyOpen(s, ok, statOk), longest);
    RoomIs(s, longest);
  }

  lemma BoundedWriteAll(s: System, torn: Option<nat>, longest: nat)
    requires StoreInv(s) && LengthInv(s) && BoundedInv(s, longest) && Enabled(s, WriteAll(torn))
    requires Smooth(s, WriteAll(torn), longest)
    ensures BoundedInv(ApplyWriteAll(s, torn), longest)
  {
    hide Retained, IsSuffix, ShiftInv, Store.ContentAt, Room;
    var line := s.w.todo[0].line;
    AppendReachesOne(s.store, if torn.None? then line else line[..torn.value]);
    SameRoom(s, ApplyWriteAll(s, torn), longest);
    RoomIs(s, longest);
  }

  lemma BoundedStep(s: System, step: Step, longest: nat)
    requires StoreInv(s) && LengthInv(s) && BoundedInv(s, longest) && Enabled(s, step) && Smooth(s, step, longest)
    requires s.cfg.generations > 0
    ensures BoundedInv(Apply(s, step), longest)
  {
    hide StoreInv, LengthInv, BoundedInv, Smooth;
    match step
    case ExternalAppend(bytes) => BoundedExternalAppend(s, bytes, longest);
    case SyncForRotation(_) => BoundedSync(s, step, longest);
    case FinishBatch(_) => BoundedSync(s, step, longest);
    case ClearSlot(_) => BoundedShift(s, step, longest);
    case RenameUp(_) => BoundedShift(s, step, longest);
    case Open(ok, statOk) => BoundedOpen(s, ok, statOk, longest);
    case WriteAll(torn) => BoundedWriteAll(s, torn, longest);
    case Submit(_, _) => BoundedChannelStep(s, step, longest);
    case SendOnce(_, _) => BoundedChannelStep(s, step, longest);
    case Receive => BoundedChannelStep(s, step, longest);
    case _ => BoundedQuietStep(s, step, longest);
  }

  lemma BoundedAtStart(s: System, longest: nat)
    requires Init(s)
    ensures BoundedInv(s, longest)
  {
    hide Retained, Store.ContentAt, Room;
    RoomLeft(s, longest, 2);
    RoomIs(s, longest);
  }

  lemma {:induction false} BoundedAlways(states: seq<System>, steps: seq<Step>, i: nat, longest: nat)
    requires IsRun(states, steps) && i < |states| && states[0].cfg.generations > 0
    requires forall k :: 0 <= k < i ==> Smooth(states[k], steps[k], longest)
    ensures BoundedInv(states[i], longest) && states[i].cfg == states[0].cfg
  {
    hide StoreInv, LengthInv, BoundedInv, Apply, Enabled, Smooth;
    if i == 0 {
      BoundedAtStart(states[0], longest);
    } else {
      BoundedAlways(states, steps, i - 1, longest);
      StoreAlways(states, steps, i - 1);
      LengthAlways(states, steps, i - 1);
      assert Next(states[i - 1], steps[i - 1], states[i - 1 + 1]);
      ConfigIsFixed(states[i - 1], steps[i - 1]);
      BoundedStep(states[i - 1], steps[i - 1], longest);
    }
  }

  /**
   As long as no lock, sync, remove, rename or measurement at an open fails, whatever writes, opens
   and due stats fail: a line is only appended through a handle that was open before while the file,
   less what others appended since the last look, is below the limit. The active file never exceeds the
   limit, or what the process found, by more than two lines and what others appended to it.
   */
  lemma ActiveFileIsBounded(states: seq<System>, steps: seq<Step>, i: nat, longest: nat)
    requires IsRun(states, steps) && i < |states| && states[0].cfg.generations > 0
    requires forall k :: 0 <= k < i ==> Smooth(states[k], steps[k], longest)
    ensures var s := states[i];
            && (s.w.handle.Some? ==> ActiveLength(s) == s.w.approxLen + s.g.active.unseen)
            && (s.w.handle.Some? && s.w.pc == Opening ==> ActiveLength(s) < s.cfg.maxBytes + s.g.active.unseen)
            && ActiveLength(s) <= Max(s.cfg.maxBytes, s.g.active.inherited) + 2 * longest + s.g.active.appended
  {
    hide IsRun, Smooth, Store.ContentAt;
    BoundedAlways(states, steps, i, longest);
    LengthAlways(states, steps, i);
  }
}
