/**
 Two runs whose receipt confirms a record that is not durable: one because a write failed, one
 without any failure because the batch was longer than what is retained.
 */
module LogReceiptRuns {
  import opened Prelude
  import opened LogStore
  import opened LogProtocol
  import opened LogEvidence
  import opened LogRuns

  const FIRST := Record("a", [97, 10])
  const SECOND := Record("b", [98, 10])
  const THIRD := Record("c", [99, 10])

  /** A writer starting on an empty directory. */
  function Fresh(maxBytes: nat, generations: nat): System {
    System(Config(1, maxBytes, generations, true), Store(map[], []), Free,
           Writer(Ready, None, 0, 0, [], false, {}), [], 0, 0, map[], [],
           Ledger([], [], [], 0, 0, 0, 0, [], [], 0, UNEXPOSED, false, NEW_ACTIVE))
  }

  lemma {:induction false} NothingRetained(n: nat)
    ensures Older(Store(map[], []), n) == []
  {
    if n > 0 {
      NothingRetained(n - 1);
    }
  }

  lemma FreshIsInitial(maxBytes: nat, generations: nat)
    ensures Init(Fresh(maxBytes, generations))
  {
    hide Older;
    NothingRetained(generations);
  }

  /** The batch has been received and the writer has looked at its first record. */
  function Entered(s: System, records: seq<Record>): System {
    s.(w := s.w.(pc := Opening, todo := records, batch := true),
       g := s.g.(accepted := [Persist(records)], taken := 1))
  }

  function BeginSteps(records: seq<Record>): seq<Step> {
    [SendOnce(Persist(records), false), Receive, Enter(true)]
  }

  lemma BatchBegins(maxBytes: nat, generations: nat, records: seq<Record>)
    requires records != [] && maxBytes > 0
    ensures Leads(Fresh(maxBytes, generations), BeginSteps(records), Entered(Fresh(maxBytes, generations), records))
  {
    hide Leads;
    var s := Fresh(maxBytes, generations);
    var a := Apply(s, SendOnce(Persist(records), false));
    var b := Apply(a, Receive);
    assert b.w.todo == records && b.queue == [];
    LeadsThree(s, SendOnce(Persist(records), false), a, Receive, b, Enter(true), Entered(s, records));
  }

  // ----- a failed write -----

  const ENTERED := Entered(Fresh(1000, 3), [FIRST, SECOND])

  const OPENED := ENTERED.(
    store := Store(map[0 := 0], [File([], 0)]),
    w := ENTERED.w.(pc := Appending, handle := Some(0), approxLen := 0))

  /** The first record is in the active file. */
  const WRITTEN := ENTERED.(
    store := Store(map[0 := 0], [File(FIRST.line, 0)]),
    w := Writer(Entry, Some(0), 2, 1, [SECOND], true, {"a"}),
    g := ENTERED.g.(log := FIRST.line, outcomes := [Written(FIRST, 0, 0, 0)],
                    exposure := Exposure({0}, {}, {})))

  const HALF_WRITTEN := WRITTEN.(w := WRITTEN.w.(pc := Opening))

  const REOPENED := WRITTEN.(w := WRITTEN.w.(pc := Appending))

  const TORN := WRITTEN.(
    errors := 1,
    w := Writer(Finishing, None, 2, 1, [], true, {"a"}),
    g := WRITTEN.g.(outcomes := [Written(FIRST, 0, 0, 0), WriteFailed(SECOND)],
                    exposure := Exposure({}, {0}, {})))

  const ANSWERED := TORN.(
    w := TORN.w.(pc := Ready, batch := false),
    g := TORN.g.(answers := [Answer(0, Receipt(true, {"a"}), 0, 2)]))

  lemma FirstIsOpened()
    ensures ApplyOpen(ENTERED, true, true) == OPENED
  {
  }

  lemma FirstIsWritten()
    ensures ApplyWriteAll(OPENED, None) == WRITTEN
  {
    var b := ApplyWriteAll(OPENED, None);
    assert b.store.files == [File([] + FIRST.line, 0)] && [] + FIRST.line == FIRST.line;
    assert b.g.log == FIRST.line && b.w.confirmed == {"a"} && b.g.exposure == Exposure({0}, {}, {});
  }

  lemma WritesFirst()
    ensures Leads(ENTERED, WRITE, WRITTEN)
  {
    hide Leads, ApplyOpen, ApplyWriteAll;
    Writes(ENTERED);
    FirstIsOpened();
    FirstIsWritten();
  }

  lemma EntersSecond()
    ensures Leads(WRITTEN, [Enter(true)], HALF_WRITTEN)
  {
    hide Leads;
    LeadsOne(WRITTEN, Enter(true), HALF_WRITTEN);
  }

  lemma SecondIsTorn()
    ensures Next(REOPENED, WriteAll(Some(0)), TORN)
  {
    var b := Apply(REOPENED, WriteAll(Some(0)));
    assert b.store.files == [File(FIRST.line + [], 0)] && b.g.log == FIRST.line && b.w.todo == [];
    assert b.g.exposure == Exposure({}, {0}, {});
  }

  const TEAR: seq<Step> := [Open(true, true), WriteAll(Some(0)), FinishBatch(true)]
  const TORN_BATCH: seq<Step> := BeginSteps([FIRST, SECOND]) + WRITE + [Enter(true)] + TEAR

  lemma TearsSecond()
    ensures Leads(HALF_WRITTEN, TEAR, ANSWERED)
  {
    hide Leads;
    SecondIsTorn();
    LeadsThree(HALF_WRITTEN, Open(true, true), REOPENED, WriteAll(Some(0)), TORN, FinishBatch(true), ANSWERED);
  }

  lemma TornBatchLeads()
    ensures Leads(Fresh(1000, 3), TORN_BATCH, ANSWERED)
  {
    hide Leads, Fresh, Entered, Begin;
    var records, start := [FIRST, SECOND], Fresh(1000, 3);
    BatchBegins(1000, 3, records);
    WritesFirst();
    LeadsOn(start, BeginSteps(records), ENTERED, WRITE, WRITTEN);
    EntersSecond();
    LeadsOn(start, BeginSteps(records) + WRITE, WRITTEN, [Enter(true)], HALF_WRITTEN);
    TearsSecond();
    LeadsOn(start, BeginSteps(records) + WRITE + [Enter(true)], HALF_WRITTEN, TEAR, ANSWERED);
  }

  /** The receipt confirms the first record although nothing was ever synced. */
  lemma ReceiptCanBeWrong() returns (states: seq<System>)
    ensures IsRun(states, TORN_BATCH)
    ensures var end := states[|TORN_BATCH|];
            && |end.g.answers| == 1 && end.g.answers[0].receipt.Confirms("a")
            && |end.g.outcomes| == 2 && end.g.outcomes[0].Written? && end.g.outcomes[0].record == FIRST
            && Present(end.store, end.cfg.generations, end.g.outcomes[0])
            && !Durable(end.store, end.cfg.generations, end.g.outcomes[0])
  {
    hide Leads, Init, TORN_BATCH;
    TornBatchLeads();
    FreshIsInitial(1000, 3);
    states := RunOf(Fresh(1000, 3), TORN_BATCH, ANSWERED);
    assert ANSWERED.store.names[0] == 0;
  }

  // ----- a batch longer than what is retained -----

  const ALL := [FIRST, SECOND, THIRD]

  /** One rotated generation of two bytes; the writer in the middle of the batch. */
  function During(lock: Lock, store: Store, w: Writer, log: Bytes, outcomes: seq<Outcome>, e: Exposure): System {
    var s := Entered(Fresh(2, 1), ALL);
    s.(lock := lock, store := store, w := w, g := s.g.(log := log, outcomes := outcomes, exposure := e))
  }

  const A := FIRST.line
  const B := SECOND.line
  const C := THIRD.line

  const ONE_LINE := [Written(FIRST, 0, 0, 0)]
  const TWO_LINES := [Written(FIRST, 0, 0, 0), Written(SECOND, 1, 0, 2)]
  const THREE_LINES := [Written(FIRST, 0, 0, 0), Written(SECOND, 1, 0, 2), Written(THIRD, 2, 0, 4)]

  const WROTE_A := During(
    Free, Store(map[0 := 0], [File(A, 0)]),
    Writer(Entry, Some(0), 2, 1, [SECOND, THIRD], true, {"a"}), A, ONE_LINE, Exposure({0}, {}, {}))

  const RETIRING_A := During(
    HeldByWriter, Store(map[0 := 0], [File(A, 2)]),
    Writer(Scanning(1), None, 2, 1, [SECOND, THIRD], true, {"a"}), A, ONE_LINE, UNEXPOSED)

  const RETIRED_A := During(
    HeldByWriter, Store(map[1 := 0], [File(A, 2)]),
    Writer(Scanning(0), None, 2, 1, [SECOND, THIRD], true, {"a"}), A, ONE_LINE, UNEXPOSED)

  const ROTATED_A := During(
    Free, Store(map[1 := 0], [File(A, 2)]),
    Writer(Opening, None, 0, 0, [SECOND, THIRD], true, {"a"}), A, ONE_LINE, UNEXPOSED)

  const WROTE_B := During(
    Free, Store(map[0 := 1, 1 := 0], [File(A, 2), File(B, 0)]),
    Writer(Entry, Some(1), 2, 1, [THIRD], true, {"a", "b"}), A + B, TWO_LINES, Exposure({1}, {}, {}))

  const RETIRING_B := During(
    HeldByWriter, Store(map[0 := 1, 1 := 0], [File(A, 2), File(B, 2)]),
    Writer(Scanning(1), None, 2, 1, [THIRD], true, {"a", "b"}), A + B, TWO_LINES, UNEXPOSED)

  /** Generation 1 was deleted to make room, and "a" with it. */
  const RETIRED_B := During(
    HeldByWriter, Store(map[1 := 1], [File(A, 2), File(B, 2)]),
    Writer(Scanning(0), None, 2, 1, [THIRD], true, {"a", "b"}), A + B, TWO_LINES, UNEXPOSED)

  const ROTATED_B := During(
    Free, Store(map[1 := 1], [File(A, 2), File(B, 2)]),
    Writer(Opening, None, 0, 0, [THIRD], true, {"a", "b"}), A + B, TWO_LINES, UNEXPOSED)

  const WROTE_C := During(
    Free, Store(map[0 := 2, 1 := 1], [File(A, 2), File(B, 2), File(C, 0)]),
    Writer(Finishing, Some(2), 2, 1, [], true, {"a", "b", "c"}), A + B + C, THREE_LINES, Exposure({2}, {}, {}))

  const CONFIRMED := During(
    Free, Store(map[0 := 2, 1 := 1], [File(A, 2), File(B, 2), File(C, 2)]),
    Writer(Ready, Some(2), 2, 1, [], false, {"a", "b", "c"}), A + B + C, THREE_LINES, UNEXPOSED)

  const EVICTED := CONFIRMED.(g := CONFIRMED.g.(answers := [Answer(0, Receipt(true, {"a", "b", "c"}), 0, 3)]))

  const ROTATE: seq<Step> := RETIRE + MOVE_UP + [EndRotation]
  const UP_TO_ROTATED: seq<Step> := BeginSteps(ALL) + WRITE + ROTATE
  const LONG_BATCH: seq<Step> := UP_TO_ROTATED + WRITE + ROTATE + WRITE + [FinishBatch(true)]

  lemma WritesA()
    ensures Leads(Entered(Fresh(2, 1), ALL), WRITE, WROTE_A)
  {
    hide Leads;
    var s := Entered(Fresh(2, 1), ALL);
    Writes(s);
    var c := ApplyWriteAll(ApplyOpen(s, true, true), None);
    assert c.store.files == [File([] + A, 0)] && [] + A == A;
    assert c.w == WROTE_A.w && c.g.log == A && c.g.exposure == Exposure({0}, {}, {});
    assert c == WROTE_A;
  }

  lemma RetiresA()
    ensures Leads(WROTE_A, ROTATE, ROTATED_A)
  {
    hide Leads;
    Retires(WROTE_A);
    assert WROTE_A.store.Sync(0) == RETIRING_A.store && WROTE_A.g.exposure.Synced() == UNEXPOSED;
    MovesUp(RETIRING_A);
    assert RETIRING_A.store.Rename(0, 1) == RETIRED_A.store && UNEXPOSED.Retired() == UNEXPOSED;
    LeadsOne(RETIRED_A, EndRotation, ROTATED_A);
    LeadsOn(WROTE_A, RETIRE, RETIRING_A, MOVE_UP, RETIRED_A);
    LeadsOn(WROTE_A, RETIRE + MOVE_UP, RETIRED_A, [EndRotation], ROTATED_A);
  }

  lemma WritesB()
    ensures Leads(ROTATED_A, WRITE, WROTE_B)
  {
    hide Leads;
    Writes(ROTATED_A);
    var c := ApplyWriteAll(ApplyOpen(ROTATED_A, true, true), None);
    assert c.store.files == [File(A, 2), File([] + B, 0)] && [] + B == B;
    assert c.store == WROTE_B.store;
    assert c.w == WROTE_B.w && c.g.outcomes == TWO_LINES && c.g.exposure == Exposure({1}, {}, {});
    assert c == WROTE_B;
  }

  lemma RetiresB()
    ensures Leads(WROTE_B, ROTATE, ROTATED_B)
  {
    hide Leads;
    Retires(WROTE_B);
    assert WROTE_B.store.Sync(1) == RETIRING_B.store && WROTE_B.g.exposure.Synced() == UNEXPOSED;
    MovesUp(RETIRING_B);
    assert RETIRING_B.store.Remove(1).Rename(0, 1) == RETIRED_B.store && UNEXPOSED.Retired() == UNEXPOSED;
    LeadsOne(RETIRED_B, EndRotation, ROTATED_B);
    LeadsOn(WROTE_B, RETIRE, RETIRING_B, MOVE_UP, RETIRED_B);
    LeadsOn(WROTE_B, RETIRE + MOVE_UP, RETIRED_B, [EndRotation], ROTATED_B);
  }

  lemma WritesC()
    ensures Leads(ROTATED_B, WRITE, WROTE_C)
  {
    hide Leads;
    Writes(ROTATED_B);
    var c := ApplyWriteAll(ApplyOpen(ROTATED_B, true, true), None);
    assert c.store.files == [File(A, 2), File(B, 2), File([] + C, 0)] && [] + C == C;
    assert c.store == WROTE_C.store;
    assert c.w == WROTE_C.w && c.g.outcomes == THREE_LINES && c.g.exposure == Exposure({2}, {}, {});
    assert c == WROTE_C;
  }

  lemma Answers()
    ensures Leads(WROTE_C, [FinishBatch(true)], EVICTED)
  {
    hide Leads;
    assert WROTE_C.store.Sync(2) == CONFIRMED.store && WROTE_C.g.exposure.Synced() == UNEXPOSED;
    LeadsOne(WROTE_C, FinishBatch(true), EVICTED);
  }

  lemma FirstRotation()
    ensures Leads(Fresh(2, 1), UP_TO_ROTATED, ROTATED_A)
  {
    hide Leads, Fresh, Entered, Begin, During;
    var start := Fresh(2, 1);
    BatchBegins(2, 1, ALL);
    WritesA();
    RetiresA();
    LeadsOn(start, BeginSteps(ALL), Entered(start, ALL), WRITE, WROTE_A);
    LeadsOn(start, BeginSteps(ALL) + WRITE, WROTE_A, ROTATE, ROTATED_A);
  }

  lemma LongBatchLeads()
    ensures Leads(Fresh(2, 1), LONG_BATCH, EVICTED)
  {
    hide Leads, Fresh, Entered, Begin, During, UP_TO_ROTATED;
    var start := Fresh(2, 1);
    FirstRotation();
    WritesB();
    RetiresB();
    WritesC();
    Answers();
    LeadsOn(start, UP_TO_ROTATED, ROTATED_A, WRITE, WROTE_B);
    LeadsOn(start, UP_TO_ROTATED + WRITE, WROTE_B, ROTATE, ROTATED_B);
    LeadsOn(start, UP_TO_ROTATED + WRITE + ROTATE, ROTATED_B, WRITE, WROTE_C);
    LeadsOn(start, UP_TO_ROTATED + WRITE + ROTATE + WRITE, WROTE_C, [FinishBatch(true)], EVICTED);
  }

  lemma EvictedRetains()
    ensures Retained(EVICTED.store, 1) == B + C
  {
    assert Older(EVICTED.store, 1) == B + Older(EVICTED.store, 0) == B;
  }

  /**
   No step fails and no line is left behind, yet the receipt confirms a record that is in no
   generation any more: the rotations of the batch itself have deleted it.
   */
  lemma ReceiptCanConfirmDeleted() returns (states: seq<System>)
    ensures IsRun(states, LONG_BATCH)
    ensures var end := states[|LONG_BATCH|];
            && |end.g.answers| == 1 && end.g.answers[0].receipt.Confirms("a")
            && |end.g.outcomes| == 3 && end.g.outcomes[0].Written? && end.g.outcomes[0].record == FIRST
            && end.errors == 0 && NoWriteFailed(end.g.outcomes, 0) && end.g.exposure.LeftBehind() == {}
            && Retained(end.store, end.cfg.generations) == B + C
            && SyncedInFile(end.store, end.g.outcomes[0])
            && !Durable(end.store, end.cfg.generations, end.g.outcomes[0])
  {
    hide Leads, Init, LONG_BATCH, Retained;
    LongBatchLeads();
    FreshIsInitial(2, 1);
    EvictedRetains();
    states := RunOf(Fresh(2, 1), LONG_BATCH, EVICTED);
  }
}
