/**
 The promise of an evidence receipt over whole runs: exactly when it is kept, and for how long
 what was confirmed stays in the directory.
 */
module LogReceipts {
  import opened Prelude
  import opened LogStore
  import opened LogProtocol
  import opened LogStoreInvariant
  import opened LogRetention
  import opened LogEvidence
  import opened LogLocation

  /** The answer to a batch whose last sync reports success. */
  function AnswerOf(s: System): Answer
    requires s.g.taken > 0
  {
    Answer(s.g.taken - 1, Receipt(true, s.w.confirmed), s.g.mark, |s.g.outcomes|)
  }

  /** No sync can have reached the lines left behind, and every other written line is synced. */
  lemma SyncedMeans(before: Exposure, st: Store, outcomes: seq<Outcome>, after: Exposure)
    requires Exposed(st, outcomes, None, after) && after.LeftBehind() == before.LeftBehind()
    ensures forall k :: 0 <= k < |outcomes| && outcomes[k].Written? ==>
              (SyncedInFile(st, outcomes[k]) <==> k !in before.LeftBehind())
  {
    forall k | 0 <= k < |outcomes| && outcomes[k].Written?
      ensures SyncedInFile(st, outcomes[k]) <==> k !in before.LeftBehind()
    {
      assert InFile(st, outcomes[k]);
      assert k !in after.held;
      assert Unsynced(st, outcomes[k]) <==> k in after.held + after.loose + after.stranded;
    }
  }

  /**
   When the last sync of a batch reports success, a written line, of this batch or an earlier
   one, has been synced in its file if and only if it was not left behind by a failed `write_all`:
   neither waiting in the active file with the handle still closed (loose), nor in a file that was
   rotated away while the handle was closed (stranded). `Step.FinishBatch` and the rotation take
   the same branch of `sync_open_generation`, the one that reports success without a handle.
   */
  lemma LineIsSyncedExactlyWhen(states: seq<System>, steps: seq<Step>, i: nat)
    requires IsRun(states, steps) && i < |steps|
    requires steps[i].FinishBatch? && SyncPasses(states[i], steps[i].ok)
    ensures var s, next := states[i], states[i + 1];
            && next.g.outcomes == s.g.outcomes && next.g.log == s.g.log && next.cfg == s.cfg
            && Retained(next.store, next.cfg.generations) == Retained(s.store, s.cfg.generations)
            && next.g.answers == s.g.answers + [AnswerOf(s)]
            && forall k :: 0 <= k < |s.g.outcomes| && s.g.outcomes[k].Written? ==>
                 (SyncedInFile(next.store, s.g.outcomes[k]) <==> k !in s.g.exposure.LeftBehind())
  {
    var s, next := states[i], states[i + 1];
    StoreAlways(states, steps, i);
    EvidenceAlways(states, steps, i);
    assert Next(s, steps[i], next);
    hide Exposed, SyncedInFile, StoreInv, EvidenceInv, Retained;
    EvidenceSync(s);
    StoreSync(s);
    assert next.store == SyncHandle(s).store;
    SyncedMeans(s.g.exposure, next.store, s.g.outcomes, SyncHandle(s).g.exposure);
  }

  /**
   After a receipt that reports success a line is durable, that is in the directory and synced
   there, if and only if neither of two things happened to it: left behind by a failed `write_all`,
   or deleted with its generation by a rotation, also by one that the batch itself made necessary.
   */
  lemma AnsweredLineIsDurableExactlyWhen(states: seq<System>, steps: seq<Step>, i: nat, k: nat)
    requires IsRun(states, steps) && i < |steps|
    requires steps[i].FinishBatch? && SyncPasses(states[i], steps[i].ok)
    requires k < |states[i].g.outcomes| && states[i].g.outcomes[k].Written?
    ensures var s, next, o := states[i], states[i + 1], states[i].g.outcomes[k];
            Durable(next.store, next.cfg.generations, o) <==> k !in s.g.exposure.LeftBehind() && StillRetained(s, o)
  {
    hide StoreInv, Retained, Located, Named, Unsynced, InFile;
    LineIsSyncedExactlyWhen(states, steps, i);
    LinesAreAtTheirPlaces(states, steps, i + 1, k);
    var next, o := states[i + 1], states[i].g.outcomes[k];
    EvidenceInFile(states, steps, i + 1, k);
    if o.record.line != [] {
      NamedExactlyWhen(next.store, next.cfg.generations, o, |next.g.log| - o.at);
    }
  }

  lemma EvidenceInFile(states: seq<System>, steps: seq<Step>, i: nat, k: nat)
    requires IsRun(states, steps) && i < |states| && k < |states[i].g.outcomes|
    ensures InFile(states[i].store, states[i].g.outcomes[k])
  {
    EvidenceAlways(states, steps, i);
  }

  /** Every record of the batch that was reported written is durable in `st`. */
  ghost predicate BatchDurable(st: Store, n: nat, outcomes: seq<Outcome>, first: nat) {
    forall k :: first <= k < |outcomes| && outcomes[k].Written? ==> Durable(st, n, outcomes[k])
  }

  /** Hence all written lines of the batch are durable if and only if none was left behind or deleted. */
  lemma SyncedReceiptIsRightExactlyWhen(states: seq<System>, steps: seq<Step>, i: nat)
    requires IsRun(states, steps) && i < |steps|
    requires steps[i].FinishBatch? && SyncPasses(states[i], steps[i].ok)
    ensures var s, next := states[i], states[i + 1];
            BatchDurable(next.store, next.cfg.generations, next.g.outcomes, s.g.mark)
            <==> forall k :: s.g.mark <= k < |s.g.outcomes| && s.g.outcomes[k].Written? ==>
                   k !in s.g.exposure.LeftBehind() && StillRetained(s, s.g.outcomes[k])
  {
    hide Durable, SyncedInFile, StillRetained, Retained;
    LineIsSyncedExactlyWhen(states, steps, i);
    var s := states[i];
    forall k | s.g.mark <= k < |s.g.outcomes| && s.g.outcomes[k].Written?
      ensures Durable(states[i + 1].store, states[i + 1].cfg.generations, s.g.outcomes[k])
              <==> k !in s.g.exposure.LeftBehind() && StillRetained(s, s.g.outcomes[k])
    {
      AnsweredLineIsDurableExactlyWhen(states, steps, i, k);
    }
  }

  /** Some record of the batch with this id is durable: what a receipt promises of an id it confirms. */
  ghost predicate SomeDurable(st: Store, n: nat, id: string, outcomes: seq<Outcome>, first: nat) {
    exists k :: IsWrittenAs(outcomes, first, k, id) && Durable(st, n, outcomes[k])
  }

  /** Some record of the current batch with this id was written, not left behind and not deleted. */
  ghost predicate SomeReached(s: System, id: string) {
    exists k :: IsWrittenAs(s.g.outcomes, s.g.mark, k, id)
                && k !in s.g.exposure.LeftBehind() && StillRetained(s, s.g.outcomes[k])
  }

  predicate IsWrittenAs(outcomes: seq<Outcome>, first: nat, k: int, id: string) {
    first <= k < |outcomes| && outcomes[k].Written? && outcomes[k].record.id == id
  }

  /**
   A receipt that reports success keeps its promise for an id if and only if some record of the
   batch with that id was written, not left behind and not deleted, however often the id occurs.
   */
  lemma ReceiptKeepsPromiseExactlyWhen(states: seq<System>, steps: seq<Step>, i: nat, id: string)
    requires IsRun(states, steps) && i < |steps|
    requires steps[i].FinishBatch? && SyncPasses(states[i], steps[i].ok)
    ensures var s, next := states[i], states[i + 1];
            SomeDurable(next.store, next.cfg.generations, id, next.g.outcomes, s.g.mark) <==> SomeReached(s, id)
  {
    hide Durable, SyncedInFile, StillRetained, Retained;
    LineIsSyncedExactlyWhen(states, steps, i);
    var s, next := states[i], states[i + 1];
    var n := next.cfg.generations;
    if SomeDurable(next.store, n, id, next.g.outcomes, s.g.mark) {
      var k: nat :| IsWrittenAs(s.g.outcomes, s.g.mark, k, id) && Durable(next.store, n, s.g.outcomes[k]);
      AnsweredLineIsDurableExactlyWhen(states, steps, i, k);
    }
    if SomeReached(s, id) {
      var k: nat :| IsWrittenAs(s.g.outcomes, s.g.mark, k, id)
                    && k !in s.g.exposure.LeftBehind() && StillRetained(s, s.g.outcomes[k]);
      AnsweredLineIsDurableExactlyWhen(states, steps, i, k);
    }
  }

  /** A failed `write_all` in the batch is the only way to leave a line of it behind. */
  lemma UnexposedWithoutWriteFailure(states: seq<System>, steps: seq<Step>, i: nat, k: nat)
    requires IsRun(states, steps) && i < |states|
    requires NoWriteFailed(states[i].g.outcomes, states[i].g.mark) && k >= states[i].g.mark
    ensures k !in states[i].g.exposure.LeftBehind()
  {
    EvidenceAlways(states, steps, i);
    var s := states[i];
    if k in s.g.exposure.LeftBehind() {
      assert false;
    }
  }

  // ----- how long it lasts -----

  /** No step takes a synced byte from a file; whether the file has a name is another matter. */
  lemma {:induction false} SyncedStays(states: seq<System>, steps: seq<Step>, i: nat, j: nat, o: Outcome)
    requires IsRun(states, steps) && i <= j < |states| && SyncedInFile(states[i].store, o)
    ensures SyncedInFile(states[j].store, o)
    decreases j
  {
    hide StoreInv, Apply, Enabled, Grown;
    if i < j {
      SyncedStays(states, steps, i, j - 1, o);
      StoreAlways(states, steps, j - 1);
      assert Next(states[j - 1], steps[j - 1], states[j - 1 + 1]);
      EveryStepGrows(states[j - 1], steps[j - 1]);
      InFileGrows(states[j - 1].store, states[j].store, o);
    }
  }

  /** Until generations * maxBytes bytes have been appended from its start on, a line is retained. */
  lemma RecentLineIsRetained(states: seq<System>, steps: seq<Step>, j: nat, far: int)
    requires IsRun(states, steps) && j < |states| && WellKept(states[0]) && !states[j].g.gapLeft
    requires far <= |states[j].g.log| && far <= states[j].cfg.generations * states[j].cfg.maxBytes
    ensures far <= |Retained(states[j].store, states[j].cfg.generations)|
  {
    hide IsRun, WellKept, Retained;
    RecentBytesAreOnDisk(states, steps, j);
  }

  /**
   A receipt that confirms an id, for a batch in which no `write_all` failed: some record of the
   batch has that id, and each written one has been synced and stays so. At any later moment it is
   in the directory exactly as long as the retained bytes reach back to it, and that is so at least
   until generations * maxBytes bytes have been appended from its start on, however many
   rotations there are, unless a failed rename leaves a gap.
   */
  lemma ConfirmedEvidenceIsDurable(states: seq<System>, steps: seq<Step>, i: nat, j: nat, id: string)
    requires IsRun(states, steps) && i < |steps| && steps[i].FinishBatch? && i < j < |states|
    requires NoWriteFailed(states[i].g.outcomes, states[i].g.mark)
    requires |states[i + 1].g.answers| > 0
    requires states[i + 1].g.answers[|states[i + 1].g.answers| - 1].receipt.Confirms(id)
    ensures exists k :: IsWrittenAs(states[i].g.outcomes, states[i].g.mark, k, id)
    ensures forall k :: IsWrittenAs(states[i].g.outcomes, states[i].g.mark, k, id) ==>
              StaysDurable(states[0], states[j], states[i].g.outcomes[k])
  {
    hide StaysDurable, StoreInv, Retained, Exposed, LeftByFailure;
    var s, next := states[i], states[i + 1];
    assert Next(s, steps[i], next);
    assert next.g.answers[|next.g.answers| - 1].receipt == Receipt(SyncPasses(s, steps[i].ok), s.w.confirmed);
    EvidenceAlways(states, steps, i);
    var w :| s.g.mark <= w < |s.g.outcomes| && s.g.outcomes[w].Written? && s.g.outcomes[w].record.id == id;
    assert IsWrittenAs(s.g.outcomes, s.g.mark, w, id);
    forall k: nat | IsWrittenAs(s.g.outcomes, s.g.mark, k, id)
      ensures StaysDurable(states[0], states[j], s.g.outcomes[k])
    {
      ConfirmedLineStays(states, steps, i, j, k);
    }
  }

  /** What is known at `s` of a line confirmed before, in a run that started in `start`. */
  ghost predicate StaysDurable(start: System, s: System, o: Outcome) {
    && o.Written? && SyncedInFile(s.store, o)
    && (Durable(s.store, s.cfg.generations, o) <==> StillRetained(s, o))
    && (WellKept(start) && !s.g.gapLeft && |s.g.log| - o.at <= s.cfg.generations * s.cfg.maxBytes ==>
          Durable(s.store, s.cfg.generations, o))
  }

  lemma ConfirmedLineStays(states: seq<System>, steps: seq<Step>, i: nat, j: nat, k: nat)
    requires IsRun(states, steps) && i < |steps| && i < j < |states|
    requires steps[i].FinishBatch? && SyncPasses(states[i], steps[i].ok)
    requires NoWriteFailed(states[i].g.outcomes, states[i].g.mark)
    requires states[i].g.mark <= k < |states[i].g.outcomes| && states[i].g.outcomes[k].Written?
    ensures StaysDurable(states[0], states[j], states[i].g.outcomes[k])
  {
    hide StoreInv, Retained, Located, Named, Unsynced, InFile, IsRun, WellKept, NoWriteFailed;
    var o, s := states[i].g.outcomes[k], states[j];
    LineIsSyncedExactlyWhen(states, steps, i);
    UnexposedWithoutWriteFailure(states, steps, i, k);
    SyncedStays(states, steps, i + 1, j, o);
    LinesAreAtTheirPlaces(states, steps, i + 1, k);
    LocatedStays(states, steps, i + 1, j, o, |states[i + 1].g.log| - o.at);
    if o.record.line != [] {
      NamedExactlyWhen(s.store, s.cfg.generations, o, |s.g.log| - o.at);
      if WellKept(states[0]) && !s.g.gapLeft && |s.g.log| - o.at <= s.cfg.generations * s.cfg.maxBytes {
        RecentLineIsRetained(states, steps, j, |s.g.log| - o.at);
      }
    }
  }
}
