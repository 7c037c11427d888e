/**
 The logging protocol as a step system: producers, the single writer thread with each I/O
 call of a write and of a rotation as its own step, processes appending to the active path,
 and exporters that read generations under the directory lock. Any I/O step may fail.
 */
module LogProtocol {
  import opened Prelude
  import opened LogStore

  const REFRESH_LEN_EVERY_LINES: nat := 128

  datatype Config = Config(capacity: nat, maxBytes: nat, generations: nat, writerAlive: bool)

  datatype Record = Record(id: string, line: Bytes)

  datatype Command =
    | Line(line: Bytes)
    | Evidence(record: Record)
    | Flush
    | Persist(records: seq<Record>)

  /** The lines a command asks the writer to write, in order. */
  function Work(command: Command): seq<Record> {
    match command
    case Line(line) => [Record("", line)]
    case Evidence(record) => [record]
    case Flush => []
    case Persist(records) => records
  }

  /** Where the writer thread is; each value names the I/O call it will make next. */
  datatype Pc =
    | Ready                    // waiting for a command
    | Entry                    // about to re-stat if it is time
    | Locking                  // waiting for the directory lock
    | Syncing                  // lock held, about to sync the open generation
    | Scanning(index: nat)     // about to test whether generation index-1 exists
    | Removing(index: nat)     // about to clear the slot `index`
    | Renaming(index: nat)     // about to rename index-1 to index
    | Aborted                  // rotation stopped on an I/O error
    | Opening
    | Appending
    | Finishing                // batch written, about to sync and answer

  datatype Writer = Writer(
    pc: Pc,
    handle: Option<nat>,       // the file behind the open handle
    approxLen: nat,
    linesSinceStat: nat,
    todo: seq<Record>,         // records of the current command, the current one first
    batch: bool,               // the current command is Persist
    confirmed: set<string>
  )

  datatype Lock = Free | HeldByWriter | HeldByExporter(id: nat)

  /** `at` is the position in the log of all bytes ever appended; `offset` the one in the file. */
  datatype Outcome =
    | Written(record: Record, file: nat, offset: nat, at: nat)
    | OpenFailed(record: Record)
    | WriteFailed(record: Record)

  /**
   Where the unsynced written lines are, by their index in `outcomes`, as far as I/O results
   alone can tell: in the file behind the open handle; in the active file after a failed write
   closed the handle; or in a file renamed away while the handle was closed.
   */
  datatype Exposure = Exposure(held: set<nat>, loose: set<nat>, stranded: set<nat>) {

    /** A line was written through the handle. */
    function Wrote(k: nat): Exposure { this.(held := held + {k}) }

    /** A sync through the handle succeeded. */
    function Synced(): Exposure { this.(held := {}) }

    /** A failed write closed the handle. */
    function Closed(): Exposure { this.(held := {}, loose := loose + held) }

    /** The active path was opened. */
    function Opened(): Exposure { this.(held := held + loose, loose := {}) }

    /** The active file was renamed away. */
    function Retired(): Exposure { this.(loose := {}, stranded := stranded + loose) }

    /** The lines no sync through the present handle can reach. */
    ghost function LeftBehind(): set<nat> { loose + stranded }
  }

  const UNEXPOSED: Exposure := Exposure({}, {}, {})

  /** What the active file holds beside what the writer itself has counted. */
  datatype Active = Active(
    inherited: nat,            // its length when the process started; 0 for a later active file
    appended: nat,             // bytes others appended since it is the active file
    unseen: nat,               // those of them since the writer last read the length
    missed: nat)               // its length when it was opened, if that could not be read
  {
    /** Another process appended. */
    function Grown(more: nat): Active { this.(appended := appended + more, unseen := unseen + more) }

    /** The writer read the length. */
    function Looked(): Active { this.(unseen := 0, missed := 0) }

    /** The writer opened the file but could not read its length. */
    function Blind(length: nat): Active { this.(unseen := 0, missed := length) }
  }

  const NEW_ACTIVE: Active := Active(0, 0, 0, 0)

  datatype Ack = Ack(position: nat, resolved: nat)

  datatype Receipt = Receipt(synced: bool, confirmed: set<string>) {
    predicate Confirms(id: string) { synced && id in confirmed }
  }

  /** A receipt with the command it answers and the outcomes of its batch. */
  datatype Answer = Answer(position: nat, receipt: Receipt, first: nat, last: nat)

  /** What has happened so far; nothing in the program reads it. */
  datatype Ledger = Ledger(
    log: Bytes,                // every byte ever appended to the active path
    outcomes: seq<Outcome>,    // one per record taken up, in order
    accepted: seq<Command>,    // every command the channel took, in order
    taken: nat,                // how many of those the writer has received
    offered: nat,              // calls of submit_line and submit_evidence
    disconnected: nat,         // those that found no writer thread
    rotationErrors: nat,       // counted errors that are not a failed line
    acks: seq<Ack>,
    answers: seq<Answer>,
    mark: nat,                 // |outcomes| when the current command was received
    exposure: Exposure,
    gapLeft: bool,             // a failed rename left a slot empty below an occupied one
    active: Active
  )

  datatype System = System(
    cfg: Config,
    store: Store,
    lock: Lock,
    w: Writer,
    queue: seq<Command>,
    dropped: nat,
    errors: nat,
    seen: map<nat, Bytes>,     // generations read by the exporter holding the lock
    instant: Bytes,            // the retained log when it read the active file
    g: Ledger
  )

  datatype Step =
    | Submit(command: Command, parked: bool)
    | SendOnce(command: Command, parked: bool)
    | ExternalAppend(bytes: Bytes)
    | ExporterLock(id: nat)
    | ExporterRead(index: nat)
    | ExporterUnlock
    | Receive
    | Enter(statOk: bool)
    | LockDirectory(ok: bool)
    | SyncForRotation(ok: bool)
    | Scan
    | ClearSlot(ok: bool)
    | RenameUp(ok: bool)
    | EndRotation
    | Open(ok: bool, statOk: bool)
    | WriteAll(torn: Option<nat>)
    | FinishBatch(ok: bool)

  // ----- producers -----

  /** The writer takes up `command`, the last one counted by `taken`. */
  function Begin(s: System, command: Command): System {
    var work := Work(command);
    var pc := if work != [] then Entry else if command.Persist? then Finishing else Ready;
    var acks := if command.Flush? then s.g.acks + [Ack(s.g.taken, |s.g.outcomes|)] else s.g.acks;
    s.(w := s.w.(pc := pc, todo := work, batch := command.Persist?, confirmed := {}),
       g := s.g.(taken := s.g.taken + 1, acks := acks, mark := |s.g.outcomes|))
  }

  /** `try_send`: a rendezvous channel (capacity 0) only accepts while the receiver is parked. */
  predicate Accepts(s: System, parked: bool) {
    s.cfg.writerAlive && (|s.queue| < s.cfg.capacity || (s.cfg.capacity == 0 && parked && s.w.pc == Ready))
  }

  function Accept(s: System, command: Command): System {
    var logged := s.(g := s.g.(accepted := s.g.accepted + [command]));
    if s.cfg.capacity == 0 then Begin(logged, command) else logged.(queue := s.queue + [command])
  }

  function ApplySubmit(s: System, command: Command, parked: bool): System {
    var counted := s.(g := s.g.(offered := s.g.offered + 1));
    if Accepts(s, parked) then Accept(counted, command)
    else if s.cfg.writerAlive then counted.(dropped := s.dropped + 1)
    else counted.(errors := s.errors + 1, g := counted.g.(disconnected := s.g.disconnected + 1))
  }

  /** One attempt of `send_until`; a full or closed channel changes nothing. */
  function ApplySendOnce(s: System, command: Command, parked: bool): System {
    if Accepts(s, parked) then Accept(s, command) else s
  }

  // ----- other processes -----

  function ApplyExternalAppend(s: System, bytes: Bytes): System {
    s.(store := s.store.AppendToActive(bytes),
       g := s.g.(log := s.g.log + bytes, active := s.g.active.Grown(|bytes|)))
  }

  function ApplyExporterLock(s: System, id: nat): System {
    s.(lock := HeldByExporter(id), seen := map[], instant := [])
  }

  function ApplyExporterRead(s: System, index: nat): System {
    var read := s.(seen := s.seen[index := s.store.ContentAt(index)]);
    if index == 0 then read.(instant := Retained(s.store, s.cfg.generations)) else read
  }

  // ----- the writer thread -----

  function ApplyReceive(s: System): System
    requires s.queue != []
  {
    Begin(s.(queue := s.queue[1..]), s.queue[0])
  }

  function ApplyEnter(s: System, statOk: bool): System {
    var due := s.w.linesSinceStat >= REFRESH_LEN_EVERY_LINES;
    var looks := due && statOk && 0 in s.store.names;
    var length := if looks then |s.store.ContentAt(0)| else s.w.approxLen;
    var lines := if due then 0 else s.w.linesSinceStat;
    var pc := if length >= s.cfg.maxBytes then Locking else Opening;
    s.(w := s.w.(pc := pc, approxLen := length, linesSinceStat := lines),
       g := s.g.(active := if looks then s.g.active.Looked() else s.g.active))
  }

  function ApplyLockDirectory(s: System, ok: bool): System {
    if ok then s.(lock := HeldByWriter, w := s.w.(pc := Syncing))
    else s.(errors := s.errors + 1, w := s.w.(pc := Opening), g := s.g.(rotationErrors := s.g.rotationErrors + 1))
  }

  /** `sync_open_generation`: with no open handle it reports success without syncing anything. */
  predicate SyncPasses(s: System, ok: bool) {
    s.w.handle.None? || ok
  }

  function SyncHandle(s: System): System {
    match s.w.handle
    case None => s
    case Some(f) =>
      s.(store := s.store.Sync(f), g := s.g.(exposure := s.g.exposure.Synced()))
  }

  function ApplySyncForRotation(s: System, ok: bool): System {
    if SyncPasses(s, ok) then
      var synced := SyncHandle(s);
      synced.(w := s.w.(handle := None, pc := Scanning(s.cfg.generations)))
    else
      s.(errors := s.errors + 1, lock := Free, w := s.w.(pc := Opening),
         g := s.g.(rotationErrors := s.g.rotationErrors + 1))
  }

  function ApplyScan(s: System): System
    requires s.w.pc.Scanning? && s.w.pc.index > 0
  {
    var index := s.w.pc.index;
    s.(w := s.w.(pc := if index - 1 in s.store.names then Removing(index) else Scanning(index - 1)))
  }

  function ApplyClearSlot(s: System, ok: bool): System
    requires s.w.pc.Removing?
  {
    var index := s.w.pc.index;
    if index !in s.store.names then s.(w := s.w.(pc := Renaming(index)))
    else if ok then s.(store := s.store.Remove(index), w := s.w.(pc := Renaming(index)))
    else s.(w := s.w.(pc := Aborted))
  }

  /** The slot `index` stays empty although the one above it, not the oldest, is occupied. */
  predicate LeavesGap(s: System, index: nat) {
    index + 1 < s.cfg.generations && index + 1 in s.store.names
  }

  function ApplyRenameUp(s: System, ok: bool): System
    requires s.w.pc.Renaming? && s.w.pc.index > 0
  {
    var index := s.w.pc.index;
    if ok then
      s.(store := s.store.Rename(index - 1, index), w := s.w.(pc := Scanning(index - 1)),
         g := s.g.(exposure := if index == 1 then s.g.exposure.Retired() else s.g.exposure,
                   active := if index == 1 then NEW_ACTIVE else s.g.active))
    else s.(w := s.w.(pc := Aborted), g := s.g.(gapLeft := s.g.gapLeft || LeavesGap(s, index)))
  }

  /** The tail of `rotate`: counters reset, an error of the shift counted, the guard dropped. */
  function ApplyEndRotation(s: System): System {
    var failed := if s.w.pc == Aborted then 1 else 0;
    s.(lock := Free, errors := s.errors + failed,
       w := s.w.(pc := Opening, approxLen := 0, linesSinceStat := 0),
       g := s.g.(rotationErrors := s.g.rotationErrors + failed))
  }

  /** The current record is finished with; the writer turns to the next one. */
  function Resolve(s: System, outcome: Outcome): System
    requires s.w.todo != []
  {
    var rest := s.w.todo[1..];
    var confirmed :=
      if s.w.batch && outcome.Written? then s.w.confirmed + {s.w.todo[0].id} else s.w.confirmed;
    var pc := if rest != [] then Entry else if s.w.batch then Finishing else Ready;
    s.(w := s.w.(pc := pc, todo := rest, confirmed := confirmed),
       g := s.g.(outcomes := s.g.outcomes + [outcome]))
  }

  function ApplyOpen(s: System, ok: bool, statOk: bool): System
    requires s.w.todo != []
  {
    if s.w.handle.Some? then s.(w := s.w.(pc := Appending))
    else if ok then
      var store := s.store.OpenActive();
      s.(store := store,
         w := s.w.(pc := Appending, handle := Some(store.names[0]), linesSinceStat := 0,
                   approxLen := if statOk then |store.ContentAt(0)| else 0),
         g := s.g.(exposure := s.g.exposure.Opened(),
                   active := if statOk then s.g.active.Looked() else s.g.active.Blind(|store.ContentAt(0)|)))
    else Resolve(s.(errors := s.errors + 1), OpenFailed(s.w.todo[0]))
  }

  /** `write_all`: whole, or a proper prefix of the line and an error. */
  function ApplyWriteAll(s: System, torn: Option<nat>): System
    requires s.w.todo != [] && s.w.handle.Some? && s.w.handle.value < |s.store.files|
    requires torn.Some? ==> torn.value < |s.w.todo[0].line|
  {
    var f := s.w.handle.value;
    var line := s.w.todo[0].line;
    match torn
    case None =>
      var exposure := if line != [] then s.g.exposure.Wrote(|s.g.outcomes|) else s.g.exposure;
      Resolve(
        s.(store := s.store.Append(f, line),
           w := s.w.(approxLen := s.w.approxLen + |line|, linesSinceStat := s.w.linesSinceStat + 1),
           g := s.g.(log := s.g.log + line, exposure := exposure)),
        Written(s.w.todo[0], f, |s.store.files[f].bytes|, |s.g.log|))
    case Some(k) =>
      Resolve(
        s.(store := s.store.Append(f, line[..k]), errors := s.errors + 1, w := s.w.(handle := None),
           g := s.g.(log := s.g.log + line[..k],
                     exposure := s.g.exposure.Closed())),
        WriteFailed(s.w.todo[0]))
  }

  function ApplyFinishBatch(s: System, ok: bool): System
    requires s.g.taken > 0
  {
    var passes := SyncPasses(s, ok);
    var synced := if passes then SyncHandle(s) else s;
    var failed := if passes then 0 else 1;
    var answer := Answer(s.g.taken - 1, Receipt(passes, s.w.confirmed), s.g.mark, |s.g.outcomes|);
    synced.(w := s.w.(pc := Ready, batch := false), errors := s.errors + failed,
            g := synced.g.(answers := s.g.answers + [answer], rotationErrors := s.g.rotationErrors + failed))
  }

  // ----- runs -----

  predicate Enabled(s: System, step: Step) {
    match step
    case Submit(command, _) => command.Line? || command.Evidence?
    case SendOnce(command, _) => command.Flush? || command.Persist?
    case ExternalAppend(_) => true
    case ExporterLock(_) => s.lock == Free
    case ExporterRead(index) => s.lock.HeldByExporter? && index <= s.cfg.generations
    case ExporterUnlock => s.lock.HeldByExporter?
    case Receive => s.cfg.writerAlive && s.w.pc == Ready && s.queue != []
    case Enter(_) => s.w.pc == Entry
    case LockDirectory(ok) => s.w.pc == Locking && (ok ==> s.lock == Free)
    case SyncForRotation(_) => s.w.pc == Syncing
    case Scan => s.w.pc.Scanning? && s.w.pc.index > 0
    case ClearSlot(_) => s.w.pc.Removing?
    case RenameUp(_) => s.w.pc.Renaming? && s.w.pc.index > 0
    case EndRotation => s.w.pc == Scanning(0) || s.w.pc == Aborted
    case Open(_, _) => s.w.pc == Opening && s.w.todo != []
    case WriteAll(torn) =>
      && s.w.pc == Appending && s.w.todo != []
      && s.w.handle.Some? && s.w.handle.value < |s.store.files|
      && (torn.Some? ==> torn.value < |s.w.todo[0].line|)
    case FinishBatch(_) => s.w.pc == Finishing && s.g.taken > 0
  }

  function Apply(s: System, step: Step): System
    requires Enabled(s, step)
  {
    match step
    case Submit(command, parked) => ApplySubmit(s, command, parked)
    case SendOnce(command, parked) => ApplySendOnce(s, command, parked)
    case ExternalAppend(bytes) => ApplyExternalAppend(s, bytes)
    case ExporterLock(id) => ApplyExporterLock(s, id)
    case ExporterRead(index) => ApplyExporterRead(s, index)
    case ExporterUnlock => s.(lock := Free)
    case Receive => ApplyReceive(s)
    case Enter(statOk) => ApplyEnter(s, statOk)
    case LockDirectory(ok) => ApplyLockDirectory(s, ok)
    case SyncForRotation(ok) => ApplySyncForRotation(s, ok)
    case Scan => ApplyScan(s)
    case ClearSlot(ok) => ApplyClearSlot(s, ok)
    case RenameUp(ok) => ApplyRenameUp(s, ok)
    case EndRotation => ApplyEndRotation(s)
    case Open(ok, statOk) => ApplyOpen(s, ok, statOk)
    case WriteAll(torn) => ApplyWriteAll(s, torn)
    case FinishBatch(ok) => ApplyFinishBatch(s, ok)
  }

  /** A process start: any directory left by earlier runs, an idle writer, an empty channel. */
  ghost predicate Init(s: System) {
    && s.store.Valid()
    && s.lock == Free
    && s.w == Writer(Ready, None, 0, 0, [], false, {})
    && s.queue == [] && s.dropped == 0 && s.errors == 0 && s.seen == map[]
    && s.g == Ledger(Retained(s.store, s.cfg.generations), [], [], 0, 0, 0, 0, [], [], 0, UNEXPOSED, false,
                     NEW_ACTIVE.(inherited := |s.store.ContentAt(0)|))
  }

  ghost predicate Next(s: System, step: Step, next: System) {
    Enabled(s, step) && next == Apply(s, step)
  }

  /** A run: the states passed through, with the steps between them. */
  ghost predicate IsRun(states: seq<System>, steps: seq<Step>) {
    && |states| == |steps| + 1
    && Init(states[0])
    && (forall i :: 0 <= i < |steps| ==> Next(states[i], steps[i], states[i + 1]))
  }
}
