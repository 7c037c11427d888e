/**
 A failed rename that leaves a gap can cost bytes: a run over three generations of four bytes in
 which the rename of the active file fails once, and the next rotation deletes the oldest
 generation although a younger one is missing.
 */
module LogRetentionGap {
  import opened Prelude
  import opened LogStore
  import opened LogProtocol
  import opened LogRetention
  import opened LogRuns

  const FULL: Bytes := [97, 97, 97, 10]
  const ONE := Record("", [10])
  const LIMITS := Config(0, 4, 3, true)

  /** The active file and generations 1 and 2 are full; the channel is a rendezvous. */
  const FULL_STORE := Store(map[0 := 0, 1 := 1, 2 := 2], [File(FULL, 4), File(FULL, 4), File(FULL, 4)])

  const LOG := FULL + FULL + FULL

  const START :=
    System(LIMITS, FULL_STORE, Free, Writer(Ready, None, 0, 0, [], false, {}), [], 0, 0, map[], [],
           Ledger(LOG, [], [], 0, 0, 0, 0, [], [], 0, UNEXPOSED, false, NEW_ACTIVE.(inherited := 4)))

  const BATCH := Persist([ONE, ONE, ONE])

  const STORE_A := FULL_STORE.(files := [File(FULL + [10], 4), File(FULL, 4), File(FULL, 4)])

  const BEGUN := START.(
    w := Writer(Opening, None, 0, 0, [ONE, ONE, ONE], true, {}),
    g := START.g.(accepted := [BATCH], taken := 1))

  const WROTE_ONE := BEGUN.(
    store := STORE_A,
    w := Writer(Entry, Some(0), 5, 1, [ONE, ONE], true, {""}),
    g := BEGUN.g.(log := LOG + [10], outcomes := [Written(ONE, 0, 4, 12)], exposure := Exposure({0}, {}, {})))

  const STORE_S := FULL_STORE.(files := [File(FULL + [10], 5), File(FULL, 4), File(FULL, 4)])

  /** Synced and closed for the first rotation. */
  const SHIFTING := WROTE_ONE.(
    store := STORE_S, lock := HeldByWriter,
    w := Writer(Scanning(3), None, 5, 1, [ONE, ONE], true, {""}),
    g := WROTE_ONE.g.(exposure := UNEXPOSED))

  const MOVED := SHIFTING.(
    store := STORE_S.(names := map[0 := 0, 1 := 1, 3 := 2]),
    w := SHIFTING.w.(pc := Scanning(2)))

  const MOVED_TWICE := SHIFTING.(
    store := STORE_S.(names := map[0 := 0, 2 := 1, 3 := 2]),
    w := SHIFTING.w.(pc := Scanning(1)))

  /** The active file could not be renamed: slot 1 stays empty below 2 and 3. */
  const GAP := MOVED_TWICE.(
    w := SHIFTING.w.(pc := Aborted),
    g := SHIFTING.g.(gapLeft := true))

  const RECOVERED := GAP.(
    lock := Free, errors := 1,
    w := GAP.w.(pc := Opening, approxLen := 0, linesSinceStat := 0),
    g := GAP.g.(rotationErrors := 1))

  const STORE_B := MOVED_TWICE.store.(files := [File(FULL + [10, 10], 5), File(FULL, 4), File(FULL, 4)])

  const WROTE_TWO := RECOVERED.(
    store := STORE_B,
    w := Writer(Entry, Some(0), 6, 1, [ONE], true, {""}),
    g := RECOVERED.g.(log := LOG + [10, 10], outcomes := [Written(ONE, 0, 4, 12), Written(ONE, 0, 5, 13)],
                      exposure := Exposure({1}, {}, {})))

  /** Synced and closed for the second rotation. */
  const SHIFTING_AGAIN := WROTE_TWO.(
    store := STORE_B.(files := [File(FULL + [10, 10], 6), File(FULL, 4), File(FULL, 4)]),
    lock := HeldByWriter,
    w := Writer(Scanning(3), None, 6, 1, [ONE], true, {""}),
    g := WROTE_TWO.g.(exposure := UNEXPOSED))

  /** Generation 3 is deleted for generation 2, with nothing in slot 1. */
  const CUT := SHIFTING_AGAIN.(
    store := SHIFTING_AGAIN.store.(names := map[0 := 0, 2 := 1]),
    w := SHIFTING_AGAIN.w.(pc := Renaming(3)))

  const FAIL_TO_MOVE: seq<Step> := [Scan, ClearSlot(true), RenameUp(false)]

  lemma Begins()
    ensures Leads(START, [SendOnce(BATCH, true), Enter(true)], BEGUN)
  {
    var a := Apply(START, SendOnce(BATCH, true));
    LeadsTwo(START, SendOnce(BATCH, true), a, Enter(true), BEGUN);
  }

  lemma WritesOne()
    ensures Leads(BEGUN, WRITE, WROTE_ONE)
  {
    Writes(BEGUN);
    var c := ApplyWriteAll(ApplyOpen(BEGUN, true, true), None);
    assert c.w.todo == [ONE, ONE] && c.w.confirmed == {""} && c.g.exposure == Exposure({0}, {}, {});
    assert c.g == WROTE_ONE.g && c.store == WROTE_ONE.store;
  }

  lemma StartsToShift()
    ensures Leads(WROTE_ONE, RETIRE, SHIFTING)
  {
    Retires(WROTE_ONE);
    assert WROTE_ONE.store.Sync(0) == STORE_S && WROTE_ONE.g.exposure.Synced() == UNEXPOSED;
  }

  lemma MovesOldest()
    ensures Leads(SHIFTING, MOVE_UP, MOVED)
  {
    MovesUp(SHIFTING);
    assert STORE_S.Rename(2, 3) == MOVED.store;
  }

  lemma MovesNext()
    ensures Leads(MOVED, MOVE_UP, MOVED_TWICE)
  {
    MovesUp(MOVED);
    assert MOVED.store.Rename(1, 2) == MOVED_TWICE.store;
  }

  lemma LeavesTheGap()
    ensures Leads(MOVED_TWICE, FAIL_TO_MOVE, GAP)
  {
    var a := Apply(MOVED_TWICE, Scan);
    var b := Apply(a, ClearSlot(true));
    LeadsThree(MOVED_TWICE, Scan, a, ClearSlot(true), b, RenameUp(false), GAP);
  }

  lemma EndsRotation()
    ensures Leads(GAP, [EndRotation], RECOVERED)
  {
    LeadsOne(GAP, EndRotation, RECOVERED);
  }

  const REOPENED := RECOVERED.(w := RECOVERED.w.(pc := Appending, handle := Some(0), approxLen := 5))

  lemma OpensAgain()
    ensures ApplyOpen(RECOVERED, true, true) == REOPENED
  {
  }

  lemma AppendsTwo()
    ensures ApplyWriteAll(REOPENED, None) == WROTE_TWO
  {
    var c := ApplyWriteAll(REOPENED, None);
    assert (FULL + [10]) + [10] == FULL + [10, 10] && (LOG + [10]) + [10] == LOG + [10, 10];
    assert c.w.todo == [ONE] && c.w.confirmed == {""} && c.g.exposure == Exposure({1}, {}, {});
  }

  lemma WritesTwo()
    ensures Leads(RECOVERED, WRITE, WROTE_TWO)
  {
    hide Leads, ApplyOpen, ApplyWriteAll;
    Writes(RECOVERED);
    OpensAgain();
    AppendsTwo();
  }

  lemma StartsToShiftAgain()
    ensures Leads(WROTE_TWO, RETIRE, SHIFTING_AGAIN)
  {
    Retires(WROTE_TWO);
    assert WROTE_TWO.store.Sync(0) == SHIFTING_AGAIN.store && WROTE_TWO.g.exposure.Synced() == UNEXPOSED;
  }

  lemma CutsTheOldest()
    ensures Leads(SHIFTING_AGAIN, [Scan, ClearSlot(true)], CUT)
  {
    var a := Apply(SHIFTING_AGAIN, Scan);
    assert SHIFTING_AGAIN.store.Remove(3) == CUT.store;
    LeadsTwo(SHIFTING_AGAIN, Scan, a, ClearSlot(true), CUT);
  }

  const BEGIN: seq<Step> := [SendOnce(BATCH, true), Enter(true)]
  const UP_TO_SHIFT: seq<Step> := BEGIN + WRITE + RETIRE
  const UP_TO_GAP: seq<Step> := UP_TO_SHIFT + MOVE_UP + MOVE_UP + FAIL_TO_MOVE
  const UP_TO_CUT: seq<Step> := UP_TO_GAP + [EndRotation] + WRITE + RETIRE + [Scan, ClearSlot(true)]

  lemma ReachesShift()
    ensures Leads(START, UP_TO_SHIFT, SHIFTING)
  {
    hide Leads, Apply, Enabled, Next;
    Begins();
    WritesOne();
    StartsToShift();
    LeadsOn(START, BEGIN, BEGUN, WRITE, WROTE_ONE);
    LeadsOn(START, BEGIN + WRITE, WROTE_ONE, RETIRE, SHIFTING);
  }

  lemma ReachesGap()
    ensures Leads(START, UP_TO_GAP, GAP)
  {
    hide Leads, Apply, Enabled, Next;
    ReachesShift();
    MovesOldest();
    MovesNext();
    LeavesTheGap();
    LeadsOn(START, UP_TO_SHIFT, SHIFTING, MOVE_UP, MOVED);
    LeadsOn(START, UP_TO_SHIFT + MOVE_UP, MOVED, MOVE_UP, MOVED_TWICE);
    LeadsOn(START, UP_TO_SHIFT + MOVE_UP + MOVE_UP, MOVED_TWICE, FAIL_TO_MOVE, GAP);
  }

  lemma ReachesCut()
    ensures Leads(START, UP_TO_CUT, CUT)
  {
    hide Leads, Apply, Enabled, Next;
    ReachesGap();
    WritesTwo();
    StartsToShiftAgain();
    CutsTheOldest();
    EndsRotation();
    LeadsOn(START, UP_TO_GAP, GAP, [EndRotation], RECOVERED);
    LeadsOn(START, UP_TO_GAP + [EndRotation], RECOVERED, WRITE, WROTE_TWO);
    LeadsOn(START, UP_TO_GAP + [EndRotation] + WRITE, WROTE_TWO, RETIRE, SHIFTING_AGAIN);
    LeadsOn(START, UP_TO_GAP + [EndRotation] + WRITE + RETIRE, SHIFTING_AGAIN, [Scan, ClearSlot(true)], CUT);
  }

  lemma ThreeGenerations(st: Store, a: Bytes)
    requires st.ContentAt(0) == st.ContentAt(1) == st.ContentAt(2) == a && st.ContentAt(3) == []
    ensures Retained(st, 3) == a + a + a
  {
    hide Store.ContentAt;
    assert Older(st, 1) == a + Older(st, 0) == a;
    assert Older(st, 3) == [] + Older(st, 2) == a + a;
  }

  lemma StartIsInitial()
    ensures Init(START)
  {
    hide Older;
    ThreeGenerations(FULL_STORE, FULL);
  }

  lemma StartIsWellKept()
    ensures WellKept(START)
  {
  }

  lemma RetainedAtCut()
    ensures |Retained(CUT.store, 3)| == 10
  {
    assert Older(CUT.store, 0) == [] && Older(CUT.store, 1) == [] && Older(CUT.store, 2) == FULL;
  }

  /**
   The run: at its end 14 bytes have been appended and 10 are on disk, less than the 12 that
   three generations of four bytes are to keep.
   */
  lemma GapCostsBytes() returns (states: seq<System>)
    ensures IsRun(states, UP_TO_CUT) && WellKept(states[0])
    ensures var end := states[|UP_TO_CUT|];
            && end.g.gapLeft
            && |end.g.log| == 14 && end.cfg.generations * end.cfg.maxBytes == 12
            && |Retained(end.store, end.cfg.generations)| == 10
  {
    hide Leads, Init, WellKept, Retained, UP_TO_CUT;
    ReachesCut();
    StartIsInitial();
    StartIsWellKept();
    RetainedAtCut();
    states := RunOf(START, UP_TO_CUT, CUT);
  }
}
