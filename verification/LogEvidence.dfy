/**
 Which written lines have reached stable storage: the exposure kept from I/O results alone lists
 exactly those that have not, over any rotations, failed rotations, opens and writes.
 */
module LogEvidence {
  import opened Prelude
  import opened LogStore
  import opened LogProtocol
  import opened LogStoreInvariant

  /** The line stands whole in the file it was written to, under whatever name, or none, that file has now. */
  ghost predicate InFile(st: Store, o: Outcome) {
    o.Written? && o.record.line != [] ==>
      && o.file < |st.files|
      && o.offset + |o.record.line| <= |st.files[o.file].bytes|
      && st.files[o.file].bytes[o.offset..o.offset + |o.record.line|] == o.record.line
  }

  /** Some of the line's bytes have not been synced. */
  ghost predicate Unsynced(st: Store, o: Outcome) {
    && o.Written? && o.file < |st.files| && o.record.line != []
    && o.offset + |o.record.line| > st.files[o.file].synced
  }

  /** The line was written whole to a file that has been synced since, whatever became of its name. */
  ghost predicate SyncedInFile(st: Store, o: Outcome) {
    o.Written? && InFile(st, o) && !Unsynced(st, o)
  }

  /** One of the generations 0..n is this file. */
  ghost predicate Named(st: Store, n: nat, f: nat) {
    exists i :: 0 <= i <= n && i in st.names && st.names[i] == f
  }

  /** The line can be read in the directory. */
  ghost predicate Present(st: Store, n: nat, o: Outcome) {
    o.Written? && InFile(st, o) && (o.record.line == [] || Named(st, n, o.file))
  }

  /** What a receipt promises of a record: its line is in the directory and has been synced there. */
  ghost predicate Durable(st: Store, n: nat, o: Outcome) {
    Present(st, n, o) && !Unsynced(st, o)
  }

  /** A line that is present reads back from one of the generations. */
  lemma PresentReads(st: Store, n: nat, o: Outcome)
    requires Present(st, n, o) && o.record.line != []
    ensures exists i :: 0 <= i <= n && i in st.names && st.names[i] == o.file
              && o.offset + |o.record.line| <= |st.ContentAt(i)|
              && st.ContentAt(i)[o.offset..o.offset + |o.record.line|] == o.record.line
  {
  }

  ghost predicate AllInFiles(st: Store, outcomes: seq<Outcome>) {
    forall k :: 0 <= k < |outcomes| ==> InFile(st, outcomes[k])
  }

  /** The exposure lists exactly the lines that are not synced. */
  ghost predicate Accurate(st: Store, outcomes: seq<Outcome>, e: Exposure) {
    forall k: nat :: k in e.held + e.loose + e.stranded <==> k < |outcomes| && Unsynced(st, outcomes[k])
  }

  /** Each listed line is where its list says. */
  ghost predicate InPlace(st: Store, outcomes: seq<Outcome>, handle: Option<nat>, e: Exposure) {
    && (forall k :: k in e.held ==> IsWrittenAt(outcomes, k) && handle == Some(outcomes[k].file))
    && (forall k :: k in e.loose ==>
          IsWrittenAt(outcomes, k) && handle.None? && 0 in st.names && st.names[0] == outcomes[k].file)
    && (forall k :: k in e.stranded ==>
          IsWrittenAt(outcomes, k) && (0 in st.names ==> st.names[0] != outcomes[k].file))
  }

  predicate IsWrittenAt(outcomes: seq<Outcome>, k: nat) {
    k < |outcomes| && outcomes[k].Written?
  }

  ghost predicate Exposed(st: Store, outcomes: seq<Outcome>, handle: Option<nat>, e: Exposure) {
    AllInFiles(st, outcomes) && Accurate(st, outcomes, e) && InPlace(st, outcomes, handle, e)
  }

  /** Only a failed `write_all`, later than a line, can leave it behind. */
  ghost predicate LeftByFailure(outcomes: seq<Outcome>, e: Exposure) {
    forall k :: k in e.LeftBehind() ==> SomeFailedAfter(outcomes, k)
  }

  ghost predicate SomeFailedAfter(outcomes: seq<Outcome>, k: nat) {
    exists j :: k < j < |outcomes| && outcomes[j].WriteFailed?
  }

  ghost predicate NoWriteFailed(outcomes: seq<Outcome>, mark: nat) {
    forall k :: mark <= k < |outcomes| ==> !outcomes[k].WriteFailed?
  }

  /** `confirmed` holds exactly the ids of the written records from `mark` on. */
  ghost predicate ConfirmedAre(confirmed: set<string>, outcomes: seq<Outcome>, mark: nat) {
    && (forall id :: id in confirmed ==>
          exists k :: mark <= k < |outcomes| && outcomes[k].Written? && outcomes[k].record.id == id)
    && (forall k :: mark <= k < |outcomes| && outcomes[k].Written? ==> outcomes[k].record.id in confirmed)
  }

  ghost predicate BatchInv(s: System) {
    && (s.w.batch ==> ConfirmedAre(s.w.confirmed, s.g.outcomes, s.g.mark))
    && (s.w.pc == Finishing ==> s.w.batch)
    && (s.w.pc == Ready ==> !s.w.batch)
  }

  ghost predicate EvidenceInv(s: System) {
    && Exposed(s.store, s.g.outcomes, s.w.handle, s.g.exposure)
    && LeftByFailure(s.g.outcomes, s.g.exposure)
    && s.g.mark <= |s.g.outcomes| && BatchInv(s)
  }

  // ----- files only grow and are only ever synced further -----

  ghost predicate Grown(a: Store, b: Store) {
    && |a.files| <= |b.files|
    && (forall f :: 0 <= f < |a.files| ==>
          a.files[f].bytes <= b.files[f].bytes && a.files[f].synced <= b.files[f].synced)
  }

  lemma StoreOperationsGrow(st: Store, f: nat, more: Bytes)
    requires st.Valid()
    ensures Grown(st, st.Append(f, more)) && Grown(st, st.Sync(f)) && Grown(st, st.OpenActive())
    ensures Grown(st, st.AppendToActive(more))
  {
  }

  /** The steps that touch the directory. */
  lemma DirectoryStepGrows(s: System, step: Step)
    requires StoreInv(s) && Enabled(s, step)
    requires step.ExternalAppend? || step.SyncForRotation? || step.ClearSlot? || step.RenameUp? || step.FinishBatch?
    ensures Grown(s.store, Apply(s, step).store)
  {
    hide Store.Append, Store.Sync, Store.OpenActive, Store.AppendToActive, Store.ContentAt, IsSuffix, ShiftInv;
    StoreOperationsGrow(s.store, if s.w.handle.Some? then s.w.handle.value else 0,
        if step.ExternalAppend? then step.bytes else []);
  }

  lemma ResolvingStepGrows(s: System, step: Step)
    requires StoreInv(s) && Enabled(s, step) && (step.Open? || step.WriteAll?)
    ensures Grown(s.store, Apply(s, step).store)
  {
    hide Store.Append, Store.Sync, Store.OpenActive, Store.ContentAt, IsSuffix, ShiftInv, HandleInv;
    var line := s.w.todo[0].line;
    StoreOperationsGrow(s.store, if s.w.handle.Some? then s.w.handle.value else 0,
                        if step.WriteAll? && step.torn.Some? then line[..step.torn.value] else line);
  }

  lemma QuietStepKeepsStore(s: System, step: Step)
    requires Enabled(s, step)
    requires step.ExporterLock? || step.ExporterRead? || step.ExporterUnlock?
             || step.Enter? || step.LockDirectory? || step.Scan? || step.EndRotation?
    ensures Apply(s, step).store == s.store
  {
    hide Store.ContentAt, Retained;
  }

  /** No step shortens or rewrites a file or takes back a sync, and outcomes are only appended. */
  lemma EveryStepGrows(s: System, step: Step)
    requires StoreInv(s) && Enabled(s, step)
    ensures Grown(s.store, Apply(s, step).store)
    ensures s.g.outcomes <= Apply(s, step).g.outcomes
  {
    hide Apply, Enabled, StoreInv;
    if IsChannelStep(step) {
      ChannelKeepsOutcomes(s, step);
    } else {
      LedgerOnlyGrows(s, step);
      if step.Open? || step.WriteAll? {
        ResolvingStepGrows(s, step);
      } else if step.ExternalAppend? || step.SyncForRotation? || step.ClearSlot? || step.RenameUp?
          || step.FinishBatch? {
        DirectoryStepGrows(s, step);
      } else {
        QuietStepKeepsStore(s, step);
      }
    }
  }

  lemma InFileGrows(a: Store, b: Store, o: Outcome)
    requires Grown(a, b) && InFile(a, o)
    ensures InFile(b, o)
    ensures Unsynced(b, o) ==> Unsynced(a, o)
  {
    if o.Written? && o.record.line != [] {
      var end := o.offset + |o.record.line|;
      assert b.files[o.file].bytes[..|a.files[o.file].bytes|] == a.files[o.file].bytes;
      assert b.files[o.file].bytes[o.offset..end] == a.files[o.file].bytes[o.offset..end];
    }
  }

  // ----- how each kind of I/O moves the exposure -----

  /** Nothing is synced, and the active path keeps its file, loses it, or gains a new one. */
  lemma ExposedFrame(a: Store, b: Store, outcomes: seq<Outcome>, handle: Option<nat>, e: Exposure)
    requires Exposed(a, outcomes, handle, e) && Grown(a, b)
    requires forall f :: 0 <= f < |a.files| ==> b.files[f].synced == a.files[f].synced
    requires 0 in a.names && 0 in b.names ==> b.names[0] == a.names[0]
    requires 0 !in a.names && 0 in b.names ==> b.names[0] == |a.files|
    requires e.loose != {} ==> 0 in b.names
    ensures Exposed(b, outcomes, handle, e)
  {
    forall k | 0 <= k < |outcomes|
      ensures InFile(b, outcomes[k]) && (Unsynced(b, outcomes[k]) <==> Unsynced(a, outcomes[k]))
    {
      InFileGrows(a, b, outcomes[k]);
    }
    assert Accurate(b, outcomes, e);
  }

  /** Syncing through the handle reaches exactly what is held there. */
  lemma ExposedSync(st: Store, outcomes: seq<Outcome>, f: nat, e: Exposure)
    requires st.Valid() && Exposed(st, outcomes, Some(f), e)
    requires 0 in st.names && st.names[0] == f
    ensures Exposed(st.Sync(f), outcomes, None, e.Synced()) && Exposed(st.Sync(f), outcomes, Some(f), e.Synced())
  {
    var after := st.Sync(f);
    forall k | 0 <= k < |outcomes|
      ensures InFile(after, outcomes[k])
      ensures Unsynced(after, outcomes[k]) <==> Unsynced(st, outcomes[k]) && outcomes[k].file != f
    {
    }
    assert Accurate(after, outcomes, e.Synced());
  }

  /** With no handle nothing is held; opening the active file takes hold of what is loose in it. */
  lemma ExposedOpen(st: Store, outcomes: seq<Outcome>, e: Exposure)
    requires Exposed(st, outcomes, None, e) && 0 in st.names
    ensures Exposed(st, outcomes, Some(st.names[0]), e.Opened())
  {
    assert Accurate(st, outcomes, e.Opened());
  }

  lemma ExposedClose(st: Store, outcomes: seq<Outcome>, e: Exposure)
    requires 0 in st.names && Exposed(st, outcomes, Some(st.names[0]), e)
    ensures Exposed(st, outcomes, None, e.Closed())
  {
    assert Accurate(st, outcomes, e.Closed());
  }

  /** Renaming the active file away with the handle closed puts loose lines out of reach. */
  lemma ExposedRetire(st: Store, outcomes: seq<Outcome>, e: Exposure)
    requires st.Valid() && Exposed(st, outcomes, None, e) && 0 in st.names
    ensures Exposed(st.Rename(0, 1), outcomes, None, e.Retired())
  {
    var after := st.Rename(0, 1);
    forall k | 0 <= k < |outcomes|
      ensures InFile(after, outcomes[k]) && (Unsynced(after, outcomes[k]) <==> Unsynced(st, outcomes[k]))
    {
      assert InFile(st, outcomes[k]);
    }
    assert Accurate(after, outcomes, e.Retired());
  }

  /** Resolving a record adds one outcome, listed exactly if it is unsynced. */
  lemma AccurateNext(st: Store, outcomes: seq<Outcome>, o: Outcome, e: Exposure, next: Exposure)
    requires Accurate(st, outcomes, e)
    requires next.held + next.loose + next.stranded
             == e.held + e.loose + e.stranded + if Unsynced(st, o) then {|outcomes|} else {}
    ensures Accurate(st, outcomes + [o], next)
  {
    var more := outcomes + [o];
    forall k: nat
      ensures k in next.held + next.loose + next.stranded <==> k < |more| && Unsynced(st, more[k])
    {
      assert k in next.held + next.loose + next.stranded
        <==> k in e.held + e.loose + e.stranded || (Unsynced(st, o) && k == |outcomes|);
      if k < |outcomes| { assert more[k] == outcomes[k]; }
    }
  }

  lemma ExposedNotWritten(st: Store, outcomes: seq<Outcome>, handle: Option<nat>, e: Exposure, o: Outcome)
    requires Exposed(st, outcomes, handle, e) && !o.Written?
    ensures Exposed(st, outcomes + [o], handle, e)
  {
    AccurateNext(st, outcomes, o, e, e);
    assert forall k :: 0 <= k < |outcomes| ==> (outcomes + [o])[k] == outcomes[k];
    InPlaceNext(st, outcomes, handle, e, o);
  }

  lemma InPlaceNext(st: Store, outcomes: seq<Outcome>, handle: Option<nat>, e: Exposure, o: Outcome)
    requires Accurate(st, outcomes, e) && InPlace(st, outcomes, handle, e) && Accurate(st, outcomes + [o], e)
    ensures InPlace(st, outcomes + [o], handle, e)
  {
    forall k | k in e.held + e.loose + e.stranded ensures (outcomes + [o])[k] == outcomes[k] {
    }
  }

  lemma ExposedWritten(st: Store, outcomes: seq<Outcome>, f: nat, e: Exposure, o: Outcome)
    requires Exposed(st, outcomes, Some(f), e) && o.Written? && InFile(st, o) && o.file == f
    requires Unsynced(st, o) <==> o.record.line != []
    ensures Exposed(st, outcomes + [o], Some(f), if o.record.line != [] then e.Wrote(|outcomes|) else e)
  {
    var next := if o.record.line != [] then e.Wrote(|outcomes|) else e;
    AccurateNext(st, outcomes, o, e, next);
    var more := outcomes + [o];
    assert forall k :: 0 <= k < |outcomes| ==> more[k] == outcomes[k];
    forall k | k in e.held + e.loose + e.stranded ensures more[k] == outcomes[k] {
    }
  }

  /** The lines left behind when a handle is closed precede the failure that closed it. */
  lemma LeftByThisFailure(st: Store, outcomes: seq<Outcome>, e: Exposure, o: Outcome)
    requires Accurate(st, outcomes, e) && LeftByFailure(outcomes, e) && o.WriteFailed?
    ensures LeftByFailure(outcomes + [o], e.Closed())
  {
    var more := outcomes + [o];
    assert more[|outcomes|] == o;
    forall k | k in e.Closed().LeftBehind() ensures SomeFailedAfter(more, k) {
      assert k in e.held + e.loose + e.stranded;
    }
  }

  lemma LeftByFailureNext(outcomes: seq<Outcome>, e: Exposure, next: Exposure, o: Outcome)
    requires LeftByFailure(outcomes, e) && next.LeftBehind() == e.LeftBehind()
    ensures LeftByFailure(outcomes + [o], next)
  {
    var more := outcomes + [o];
    forall k | k in next.LeftBehind() ensures SomeFailedAfter(more, k) {
      var j :| k < j < |outcomes| && outcomes[j].WriteFailed?;
      assert more[j] == outcomes[j];
    }
  }

  lemma ConfirmedNext(confirmed: set<string>, outcomes: seq<Outcome>, mark: nat, o: Outcome)
    requires ConfirmedAre(confirmed, outcomes, mark) && mark <= |outcomes|
    ensures ConfirmedAre(if o.Written? then confirmed + {o.record.id} else confirmed, outcomes + [o], mark)
  {
    var more := outcomes + [o];
    var grown := if o.Written? then confirmed + {o.record.id} else confirmed;
    forall id | id in grown
      ensures exists k :: mark <= k < |more| && more[k].Written? && more[k].record.id == id
    {
      if id in confirmed {
        var k :| mark <= k < |outcomes| && outcomes[k].Written? && outcomes[k].record.id == id;
        assert more[k] == outcomes[k];
      } else {
        assert more[|outcomes|] == o;
      }
    }
  }

  /** Resolving a record keeps the batch in order. */
  lemma BatchNext(s: System, before: System, o: Outcome)
    requires BatchInv(before) && before.g.mark <= |before.g.outcomes|
    requires s.w.todo != [] && o.record == s.w.todo[0] && s.w.todo == before.w.todo
    requires before.w.pc == Opening || before.w.pc == Appending
    requires s.g.outcomes == before.g.outcomes && s.g.mark == before.g.mark
    requires s.w.batch == before.w.batch && s.w.confirmed == before.w.confirmed
    ensures BatchInv(Resolve(s, o)) && Resolve(s, o).g.mark <= |Resolve(s, o).g.outcomes|
  {
    hide ConfirmedAre;
    if s.w.batch { ConfirmedNext(s.w.confirmed, s.g.outcomes, s.g.mark, o); }
  }

  // ----- every step -----

  lemma EvidenceSync(s: System)
    requires StoreInv(s) && EvidenceInv(s)
    ensures var next := SyncHandle(s);
            && Exposed(next.store, s.g.outcomes, None, next.g.exposure)
            && Exposed(next.store, s.g.outcomes, s.w.handle, next.g.exposure)
            && LeftByFailure(s.g.outcomes, next.g.exposure)
  {
    hide LeftByFailure, Exposed, Accurate, InPlace;
    if s.w.handle.Some? {
      ExposedSync(s.store, s.g.outcomes, s.w.handle.value, s.g.exposure);
      SameLeftBehind(s.g.outcomes, s.g.exposure, s.g.exposure.Synced());
    }
  }

  lemma SameLeftBehind(outcomes: seq<Outcome>, e: Exposure, next: Exposure)
    requires LeftByFailure(outcomes, e) && next.LeftBehind() <= e.LeftBehind()
    ensures LeftByFailure(outcomes, next)
  {
  }

  lemma EvidenceSyncForRotation(s: System, ok: bool)
    requires StoreInv(s) && EvidenceInv(s) && s.w.pc == Syncing
    ensures EvidenceInv(ApplySyncForRotation(s, ok))
  {
    hide Exposed, LeftByFailure, ConfirmedAre;
    EvidenceSync(s);
  }

  lemma EvidenceFinishBatch(s: System, ok: bool)
    requires StoreInv(s) && EvidenceInv(s) && s.w.pc == Finishing && s.g.taken > 0
    ensures EvidenceInv(ApplyFinishBatch(s, ok))
  {
    hide Exposed, LeftByFailure, ConfirmedAre;
    EvidenceSync(s);
  }

  lemma EvidenceExternalAppend(s: System, bytes: Bytes)
    requires StoreInv(s) && EvidenceInv(s)
    ensures EvidenceInv(ApplyExternalAppend(s, bytes))
  {
    hide LeftByFailure, ConfirmedAre;
    EveryStepGrows(s, ExternalAppend(bytes));
    ExposedFrame(s.store, s.store.AppendToActive(bytes), s.g.outcomes, s.w.handle, s.g.exposure);
  }

  lemma EvidenceClearSlot(s: System, ok: bool)
    requires StoreInv(s) && EvidenceInv(s) && s.w.pc.Removing?
    ensures EvidenceInv(ApplyClearSlot(s, ok))
  {
    hide LeftByFailure, ConfirmedAre;
    if s.g.exposure.loose != {} { LooseIsActive(s); }
    ExposedFrame(s.store, ApplyClearSlot(s, ok).store, s.g.outcomes, s.w.handle, s.g.exposure);
  }

  lemma LooseIsActive(s: System)
    requires EvidenceInv(s) && s.g.exposure.loose != {}
    ensures 0 in s.store.names && s.w.handle.None?
  {
    var k :| k in s.g.exposure.loose;
  }

  lemma EvidenceRenameUp(s: System, ok: bool)
    requires StoreInv(s) && EvidenceInv(s) && s.w.pc.Renaming?
    ensures EvidenceInv(ApplyRenameUp(s, ok))
  {
    hide LeftByFailure, ConfirmedAre;
    var index := s.w.pc.index;
    if ok && index == 1 {
      ExposedRetire(s.store, s.g.outcomes, s.g.exposure);
      SameLeftBehind(s.g.outcomes, s.g.exposure, s.g.exposure.Retired());
    } else {
      if s.g.exposure.loose != {} { LooseIsActive(s); }
      ExposedFrame(s.store, ApplyRenameUp(s, ok).store, s.g.outcomes, s.w.handle, s.g.exposure);
    }
  }

  lemma EvidenceOpenFailed(s: System)
    requires EvidenceInv(s) && s.w.pc == Opening && s.w.todo != []
    ensures EvidenceInv(Resolve(s.(errors := s.errors + 1), OpenFailed(s.w.todo[0])))
  {
    hide Exposed, LeftByFailure, BatchInv;
    var o := OpenFailed(s.w.todo[0]);
    ExposedNotWritten(s.store, s.g.outcomes, s.w.handle, s.g.exposure, o);
    LeftByFailureNext(s.g.outcomes, s.g.exposure, s.g.exposure, o);
    BatchNext(s.(errors := s.errors + 1), s, o);
  }

  lemma EvidenceOpened(s: System, statOk: bool)
    requires StoreInv(s) && EvidenceInv(s) && s.w.pc == Opening && s.w.todo != [] && s.w.handle.None?
    ensures EvidenceInv(ApplyOpen(s, true, statOk))
  {
    hide LeftByFailure, ConfirmedAre;
    ExposedFrame(s.store, s.store.OpenActive(), s.g.outcomes, s.w.handle, s.g.exposure);
    ExposedOpen(s.store.OpenActive(), s.g.outcomes, s.g.exposure);
    SameLeftBehind(s.g.outcomes, s.g.exposure, s.g.exposure.Opened());
  }

  lemma EvidenceOpen(s: System, ok: bool, statOk: bool)
    requires StoreInv(s) && EvidenceInv(s) && s.w.pc == Opening && s.w.todo != []
    ensures EvidenceInv(ApplyOpen(s, ok, statOk))
  {
    hide Exposed, LeftByFailure, ConfirmedAre;
    if s.w.handle.None? {
      if ok { EvidenceOpened(s, statOk); } else { EvidenceOpenFailed(s); }
    }
  }

  /** Bytes appended through the handle, whole line or torn prefix. */
  lemma ExposedAppend(s: System, more: Bytes)
    requires StoreInv(s) && EvidenceInv(s) && s.w.handle.Some?
    ensures Exposed(s.store.Append(s.w.handle.value, more), s.g.outcomes, s.w.handle, s.g.exposure)
  {
    hide LeftByFailure, ConfirmedAre;
    ExposedFrame(s.store, s.store.Append(s.w.handle.value, more), s.g.outcomes, s.w.handle, s.g.exposure);
  }

  lemma EvidenceTorn(s: System, k: nat)
    requires StoreInv(s) && EvidenceInv(s) && Enabled(s, WriteAll(Some(k)))
    ensures EvidenceInv(ApplyWriteAll(s, Some(k)))
  {
    hide IsSuffix, ShiftInv, Retained, Accurate, InPlace, LeftByFailure, BatchInv;
    var line, f, o := s.w.todo[0].line, s.w.handle.value, WriteFailed(s.w.todo[0]);
    var after, e := s.store.Append(f, line[..k]), s.g.exposure.Closed();
    ExposedAppend(s, line[..k]);
    ExposedClose(after, s.g.outcomes, s.g.exposure);
    ExposedNotWritten(after, s.g.outcomes, None, e, o);
    LeftByThisFailure(s.store, s.g.outcomes, s.g.exposure, o);
    var torn := s.(store := after, errors := s.errors + 1, w := s.w.(handle := None),
                   g := s.g.(log := s.g.log + line[..k], exposure := e));
    BatchNext(torn, s, o);
  }

  /** A line just appended is in its file, whole and unsynced. */
  lemma AppendedIsThere(st: Store, f: nat, record: Record, at: nat)
    requires st.Valid() && f < |st.files|
    ensures var o := Written(record, f, |st.files[f].bytes|, at);
            InFile(st.Append(f, record.line), o) && (Unsynced(st.Append(f, record.line), o) <==> record.line != [])
  {
    assert st.Append(f, record.line).files[f].bytes[|st.files[f].bytes|..] == record.line;
  }

  lemma EvidenceWritten(s: System)
    requires StoreInv(s) && EvidenceInv(s) && Enabled(s, WriteAll(None))
    ensures EvidenceInv(ApplyWriteAll(s, None))
  {
    hide IsSuffix, ShiftInv, Retained, Exposed, LeftByFailure, BatchInv, InFile, Unsynced;
    var record, f := s.w.todo[0], s.w.handle.value;
    var o := Written(record, f, |s.store.files[f].bytes|, |s.g.log|);
    var after := s.store.Append(f, record.line);
    var e := if record.line != [] then s.g.exposure.Wrote(|s.g.outcomes|) else s.g.exposure;
    ExposedAppend(s, record.line);
    AppendedIsThere(s.store, f, record, |s.g.log|);
    ExposedWritten(after, s.g.outcomes, f, s.g.exposure, o);
    LeftByFailureNext(s.g.outcomes, s.g.exposure, e, o);
    var written := s.(store := after,
                      w := s.w.(approxLen := s.w.approxLen + |record.line|, linesSinceStat := s.w.linesSinceStat + 1),
                      g := s.g.(log := s.g.log + record.line, exposure := e));
    BatchNext(written, s, o);
  }

  lemma EvidenceChannelStep(s: System, step: Step)
    requires StoreInv(s) && EvidenceInv(s) && Enabled(s, step)
    requires IsChannelStep(step)
    ensures EvidenceInv(Apply(s, step))
  {
    hide Exposed, LeftByFailure, Retained, IsSuffix;
    var next := Apply(s, step);
    assert next.store == s.store && next.g.outcomes == s.g.outcomes && next.w.handle == s.w.handle;
    assert next.g.exposure == s.g.exposure;
    assert next.w.pc == s.w.pc || (next.g.mark == |next.g.outcomes| && next.w.confirmed == {});
  }

  lemma EvidenceControlStep(s: System, step: Step)
    requires StoreInv(s) && EvidenceInv(s) && Enabled(s, step)
    requires step.ExporterLock? || step.ExporterRead? || step.ExporterUnlock?
             || step.Enter? || step.LockDirectory? || step.Scan? || step.EndRotation?
    ensures EvidenceInv(Apply(s, step))
  {
    hide Exposed, LeftByFailure, Retained, IsSuffix, ConfirmedAre;
    var next := Apply(s, step);
    assert next.store == s.store && next.w.handle == s.w.handle && next.g.outcomes == s.g.outcomes
           && next.g.mark == s.g.mark && next.g.exposure == s.g.exposure;
  }

  lemma EvidenceStep(s: System, step: Step)
    requires StoreInv(s) && EvidenceInv(s) && Enabled(s, step)
    ensures EvidenceInv(Apply(s, step))
  {
    match step
    case Submit(_, _) => EvidenceChannelStep(s, step);
    case SendOnce(_, _) => EvidenceChannelStep(s, step);
    case Receive => EvidenceChannelStep(s, step);
    case ExternalAppend(bytes) => EvidenceExternalAppend(s, bytes);
    case SyncForRotation(ok) => EvidenceSyncForRotation(s, ok);
    case ClearSlot(ok) => EvidenceClearSlot(s, ok);
    case RenameUp(ok) => EvidenceRenameUp(s, ok);
    case Open(ok, statOk) => EvidenceOpen(s, ok, statOk);
    case WriteAll(torn) =>
      if torn.None? { EvidenceWritten(s); } else { EvidenceTorn(s, torn.value); }
    case FinishBatch(ok) => EvidenceFinishBatch(s, ok);
    case _ => EvidenceControlStep(s, step);
  }

  lemma {:induction false} EvidenceAlways(states: seq<System>, steps: seq<Step>, i: nat)
    requires IsRun(states, steps) && i < |states|
    ensures EvidenceInv(states[i])
  {
    if i > 0 {
      EvidenceAlways(states, steps, i - 1);
      StoreAlways(states, steps, i - 1);
      assert Next(states[i - 1], steps[i - 1], states[i - 1 + 1]);
      EvidenceStep(states[i - 1], steps[i - 1]);
    }
  }
}
