/**
 Accounting over all runs: every submission is queued, dropped, in hand, written whole in
 order, or failed with a counted error, and an acknowledged flush means that everything
 accepted before it is resolved.
 */
module LogLedger {
  import opened Prelude
  import opened LogProtocol
  import opened LogStore
  import opened LogStoreInvariant

  /** The records of `commands` in order. */
  function Flatten(commands: seq<Command>): seq<Record> {
    if commands == [] then [] else Flatten(commands[..|commands| - 1]) + Work(commands[|commands| - 1])
  }

  function Records(outcomes: seq<Outcome>): seq<Record> {
    if outcomes == [] then [] else Records(outcomes[..|outcomes| - 1]) + [outcomes[|outcomes| - 1].record]
  }

  function CountFailed(outcomes: seq<Outcome>): nat {
    if outcomes == [] then 0
    else CountFailed(outcomes[..|outcomes| - 1]) + if outcomes[|outcomes| - 1].Written? then 0 else 1
  }

  /** Commands that came in through `submit_line` or `submit_evidence`. */
  function CountSubmitted(commands: seq<Command>): nat {
    if commands == [] then 0
    else
      var last := commands[|commands| - 1];
      CountSubmitted(commands[..|commands| - 1]) + if last.Line? || last.Evidence? then 1 else 0
  }

  lemma SnocCommand(commands: seq<Command>, c: Command)
    ensures Flatten(commands + [c]) == Flatten(commands) + Work(c)
    ensures CountSubmitted(commands + [c]) == CountSubmitted(commands) + if c.Line? || c.Evidence? then 1 else 0
  {
    assert (commands + [c])[..|commands|] == commands;
  }

  lemma SnocOutcome(outcomes: seq<Outcome>, o: Outcome)
    ensures Records(outcomes + [o]) == Records(outcomes) + [o.record]
    ensures CountFailed(outcomes + [o]) == CountFailed(outcomes) + if o.Written? then 0 else 1
  {
    assert (outcomes + [o])[..|outcomes|] == outcomes;
  }

  lemma FlattenNothing()
    ensures Flatten([]) == []
  {
  }

  lemma {:induction false} FlattenConcat(a: seq<Command>, b: seq<Command>)
    ensures Flatten(a + b) == Flatten(a) + Flatten(b)
  {
    hide Flatten, Work;
    FlattenNothing();
    if b == [] {
      assert a + b == a;
    } else {
      var init, last := b[..|b| - 1], b[|b| - 1];
      FlattenConcat(a, init);
      assert a + b == (a + init) + [last];
      SnocCommand(a + init, last);
      SnocCommand(init, last);
      assert b == init + [last];
      assert (Flatten(a) + Flatten(init)) + Work(last) == Flatten(a) + (Flatten(init) + Work(last));
    }
  }

  lemma {:induction false} RecordsLength(outcomes: seq<Outcome>)
    ensures |Records(outcomes)| == |outcomes|
  {
    if outcomes != [] { RecordsLength(outcomes[..|outcomes| - 1]); }
  }

  // ----- the channel -----

  /** The queue is bounded and holds the accepted commands not yet received, in order. */
  ghost predicate QueueInv(s: System) {
    && |s.queue| <= s.cfg.capacity
    && s.g.taken <= |s.g.accepted| && s.g.accepted[s.g.taken..] == s.queue
  }

  ghost predicate ChannelInv(s: System) {
    && QueueInv(s)
    && s.g.offered == CountSubmitted(s.g.accepted) + s.dropped + s.g.disconnected
    && (s.w.pc != Ready ==> s.g.taken > 0)
    && (!s.cfg.writerAlive ==> s.g.accepted == [])
  }

  lemma QueueTail(accepted: seq<Command>, taken: nat, queue: seq<Command>, c: Command)
    requires taken <= |accepted| && accepted[taken..] == queue
    ensures (accepted + [c])[taken..] == queue + [c]
    ensures queue == [] ==> (accepted + [c])[taken + 1..] == []
  {
  }

  lemma QueueAccept(s: System, command: Command, parked: bool)
    requires QueueInv(s) && Accepts(s, parked)
    ensures QueueInv(Accept(s, command))
  {
    hide Work;
    QueueTail(s.g.accepted, s.g.taken, s.queue, command);
  }

  /** What accepting a command does to the counts. */
  lemma AcceptCounts(s: System, command: Command)
    ensures var next := Accept(s, command);
            && next.g.accepted == s.g.accepted + [command] && next.g.offered == s.g.offered
            && next.dropped == s.dropped && next.g.disconnected == s.g.disconnected && next.cfg == s.cfg
            && next.g.taken >= s.g.taken && (next.w.pc == s.w.pc || next.g.taken > 0)
  {
    hide Work;
  }

  lemma ChannelAccept(s: System, command: Command, parked: bool)
    requires ChannelInv(s) && Accepts(s, parked)
    requires !command.Line? && !command.Evidence?
    ensures ChannelInv(Accept(s, command))
  {
    hide Flatten, CountSubmitted, Accept, QueueInv;
    SnocCommand(s.g.accepted, command);
    QueueAccept(s, command, parked);
    AcceptCounts(s, command);
  }

  /** A submission that is accepted, dropped or refused counts once. */
  lemma SubmitCounts(s: System, command: Command, parked: bool)
    ensures var next := ApplySubmit(s, command, parked);
            && next.cfg == s.cfg && next.g.offered == s.g.offered + 1
            && (Accepts(s, parked) ==> next.dropped == s.dropped && next.g.disconnected == s.g.disconnected)
            && (!Accepts(s, parked) ==>
                  && next.dropped + next.g.disconnected == s.dropped + s.g.disconnected + 1
                  && next.g.accepted == s.g.accepted && next.queue == s.queue
                  && next.g.taken == s.g.taken && next.w == s.w)
  {
    hide Accept, Accepts;
    AcceptCounts(s.(g := s.g.(offered := s.g.offered + 1)), command);
  }

  lemma ChannelSubmitAccepted(s: System, command: Command, parked: bool)
    requires ChannelInv(s) && Accepts(s, parked) && (command.Line? || command.Evidence?)
    ensures ChannelInv(ApplySubmit(s, command, parked))
  {
    hide Flatten, CountSubmitted, Accept, Accepts, QueueInv;
    var counted := s.(g := s.g.(offered := s.g.offered + 1));
    SameQueue(s, counted);
    SameChannelAccepts(s, counted, parked);
    SnocCommand(s.g.accepted, command);
    QueueAccept(counted, command, parked);
    AcceptCounts(counted, command);
    AcceptsMeansAlive(s, parked);
  }

  lemma SameChannelAccepts(s: System, next: System, parked: bool)
    requires next.cfg == s.cfg && next.queue == s.queue && next.w == s.w
    ensures Accepts(next, parked) <==> Accepts(s, parked)
  {
  }

  lemma AcceptsMeansAlive(s: System, parked: bool)
    requires Accepts(s, parked)
    ensures s.cfg.writerAlive
  {
  }

  lemma ChannelSubmit(s: System, command: Command, parked: bool)
    requires ChannelInv(s) && Enabled(s, Submit(command, parked))
    ensures ChannelInv(ApplySubmit(s, command, parked))
  {
    hide CountSubmitted, Accepts, ApplySubmit, QueueInv;
    if Accepts(s, parked) {
      ChannelSubmitAccepted(s, command, parked);
    } else {
      SubmitCounts(s, command, parked);
      SameQueue(s, ApplySubmit(s, command, parked));
    }
  }

  lemma SameQueue(s: System, next: System)
    requires QueueInv(s) && next.queue == s.queue && next.cfg == s.cfg
    requires next.g.taken == s.g.taken && next.g.accepted == s.g.accepted
    ensures QueueInv(next)
  {
  }

  lemma ChannelReceive(s: System)
    requires ChannelInv(s) && Enabled(s, Step.Receive)
    ensures ChannelInv(ApplyReceive(s))
  {
    hide Flatten, CountSubmitted, Work;
  }

  /** The channel and its counts are as before, and an idle writer is still idle. */
  ghost predicate SameChannel(s: System, next: System) {
    && next.queue == s.queue && next.cfg == s.cfg && next.dropped == s.dropped
    && next.g.offered == s.g.offered && next.g.disconnected == s.g.disconnected
    && (next.w.pc != Ready ==> s.w.pc != Ready)
  }

  lemma ResolvingKeepsChannel(s: System, step: Step)
    requires Enabled(s, step) && (step.Open? || step.WriteAll?)
    ensures SameChannel(s, Apply(s, step))
  {
    hide Store.ContentAt, Store.Append, Store.OpenActive;
  }

  lemma OthersKeepChannel(s: System, step: Step)
    requires Enabled(s, step) && !IsChannelStep(step) && !step.Open? && !step.WriteAll?
    ensures SameChannel(s, Apply(s, step))
  {
    hide Retained, Store.ContentAt, Store.Sync, Store.AppendToActive, Store.Remove, Store.Rename;
  }

  lemma ChannelOther(s: System, step: Step)
    requires ChannelInv(s) && Enabled(s, step) && !IsChannelStep(step)
    ensures ChannelInv(Apply(s, step))
  {
    hide CountSubmitted, Apply, Enabled, QueueInv;
    if step.Open? || step.WriteAll? {
      ResolvingKeepsChannel(s, step);
    } else {
      OthersKeepChannel(s, step);
    }
    LedgerOnlyGrows(s, step);
    SameQueue(s, Apply(s, step));
  }

  lemma ChannelStep(s: System, step: Step)
    requires ChannelInv(s) && Enabled(s, step)
    ensures ChannelInv(Apply(s, step))
  {
    hide ChannelInv, Accept, Accepts;
    match step
    case Submit(command, parked) => ChannelSubmit(s, command, parked);
    case SendOnce(command, parked) =>
      if Accepts(s, parked) { ChannelAccept(s, command, parked); }
    case Receive => ChannelReceive(s);
    case _ => ChannelOther(s, step);
  }

  // ----- the records in hand -----

  ghost predicate WorkInv(s: System) {
    && s.g.taken <= |s.g.accepted|
    && Flatten(s.g.accepted[..s.g.taken]) == Records(s.g.outcomes) + s.w.todo
    && (s.w.todo == [] <==> s.w.pc == Ready || s.w.pc == Finishing)
    && s.errors == CountFailed(s.g.outcomes) + s.g.rotationErrors + s.g.disconnected
  }

  lemma WorkBegin(s: System, command: Command)
    requires WorkInv(s) && s.w.pc == Ready && s.g.taken < |s.g.accepted| && s.g.accepted[s.g.taken] == command
    ensures WorkInv(Begin(s, command))
  {
    var before := s.g.accepted[..s.g.taken];
    assert s.g.accepted[..s.g.taken + 1] == before + [command];
    SnocCommand(before, command);
    assert Flatten(before) == Records(s.g.outcomes) + [] == Records(s.g.outcomes);
  }

  lemma WorkAccept(s: System, command: Command, parked: bool)
    requires WorkInv(s) && QueueInv(s) && Accepts(s, parked)
    ensures WorkInv(Accept(s, command))
  {
    hide Flatten, Records, CountFailed;
    var logged := s.(g := s.g.(accepted := s.g.accepted + [command]));
    assert logged.g.accepted[..s.g.taken] == s.g.accepted[..s.g.taken];
    if s.cfg.capacity == 0 { WorkBegin(logged, command); }
  }

  lemma WorkResolve(s: System, outcome: Outcome, errors: nat)
    requires WorkInv(s) && s.w.todo != [] && outcome.record == s.w.todo[0]
    requires errors == s.errors + if outcome.Written? then 0 else 1
    ensures WorkInv(Resolve(s.(errors := errors), outcome))
  {
    SnocOutcome(s.g.outcomes, outcome);
    assert Records(s.g.outcomes) + s.w.todo == (Records(s.g.outcomes) + [s.w.todo[0]]) + s.w.todo[1..];
  }

  lemma WorkSubmit(s: System, command: Command, parked: bool)
    requires WorkInv(s) && ChannelInv(s)
    ensures WorkInv(ApplySubmit(s, command, parked))
  {
    hide Flatten, Records, CountFailed, CountSubmitted, Accept, Work;
    if Accepts(s, parked) {
      WorkAccept(s.(g := s.g.(offered := s.g.offered + 1)), command, parked);
    }
  }

  lemma WorkReceive(s: System)
    requires WorkInv(s) && ChannelInv(s) && Enabled(s, Step.Receive)
    ensures WorkInv(ApplyReceive(s))
  {
    hide Flatten, Records, CountFailed, CountSubmitted, Begin, Work;
    assert s.g.accepted[s.g.taken] == s.g.accepted[s.g.taken..][0];
    WorkBegin(s.(queue := s.queue[1..]), s.queue[0]);
  }

  lemma WorkChannelStep(s: System, step: Step)
    requires WorkInv(s) && ChannelInv(s) && Enabled(s, step)
    requires IsChannelStep(step)
    ensures WorkInv(Apply(s, step))
  {
    hide WorkInv, QueueInv, Flatten, Records, CountFailed, CountSubmitted, Accept, Begin;
    match step
    case Submit(command, parked) => WorkSubmit(s, command, parked);
    case SendOnce(command, parked) =>
      if Accepts(s, parked) { WorkAccept(s, command, parked); }
    case Receive => WorkReceive(s);
  }

  lemma WorkOpen(s: System, ok: bool, statOk: bool)
    requires WorkInv(s) && Enabled(s, Open(ok, statOk))
    ensures WorkInv(ApplyOpen(s, ok, statOk))
  {
    if s.w.handle.None? && !ok { WorkResolve(s, OpenFailed(s.w.todo[0]), s.errors + 1); }
  }

  lemma WorkWriteAll(s: System, torn: Option<nat>)
    requires WorkInv(s) && Enabled(s, WriteAll(torn))
    ensures WorkInv(ApplyWriteAll(s, torn))
  {
    var f := s.w.handle.value;
    if torn.None? {
      WorkResolve(s, Written(s.w.todo[0], f, |s.store.files[f].bytes|, |s.g.log|), s.errors);
    } else {
      WorkResolve(s, WriteFailed(s.w.todo[0]), s.errors + 1);
    }
  }

  lemma WorkOtherStep(s: System, step: Step)
    requires WorkInv(s) && Enabled(s, step)
    requires !IsChannelStep(step) && !step.Open? && !step.WriteAll?
    ensures WorkInv(Apply(s, step))
  {
    hide Flatten, Records, CountFailed, Retained, Store.ContentAt, Store.Append, Store.Sync, Store.OpenActive,
        Store.AppendToActive, Store.Remove, Store.Rename;
  }

  lemma WorkStep(s: System, step: Step)
    requires WorkInv(s) && ChannelInv(s) && Enabled(s, step)
    ensures WorkInv(Apply(s, step))
  {
    match step
    case Submit(_, _) => WorkChannelStep(s, step);
    case SendOnce(_, _) => WorkChannelStep(s, step);
    case Receive => WorkChannelStep(s, step);
    case Open(ok, statOk) => WorkOpen(s, ok, statOk);
    case WriteAll(torn) => WorkWriteAll(s, torn);
    case _ => WorkOtherStep(s, step);
  }

  // ----- lines that were written -----

  /** A written line is whole in the log, after every line written before it. */
  ghost predicate PlacedInv(log: Bytes, outcomes: seq<Outcome>) {
    && (forall k :: 0 <= k < |outcomes| && outcomes[k].Written? ==>
          var end := outcomes[k].at + |outcomes[k].record.line|;
          end <= |log| && log[outcomes[k].at..end] == outcomes[k].record.line)
    && (forall j, k :: 0 <= j < k < |outcomes| && outcomes[j].Written? && outcomes[k].Written? ==>
          outcomes[j].at + |outcomes[j].record.line| <= outcomes[k].at)
  }

  lemma PlacedGrowth(log: Bytes, more: Bytes, outcomes: seq<Outcome>)
    requires PlacedInv(log, outcomes)
    ensures PlacedInv(log + more, outcomes)
  {
    forall k | 0 <= k < |outcomes| && outcomes[k].Written?
      ensures var end := outcomes[k].at + |outcomes[k].record.line|;
              end <= |log + more| && (log + more)[outcomes[k].at..end] == outcomes[k].record.line
    {
      var end := outcomes[k].at + |outcomes[k].record.line|;
      assert (log + more)[outcomes[k].at..end] == log[outcomes[k].at..end];
    }
  }

  lemma PlacedNext(log: Bytes, outcomes: seq<Outcome>, o: Outcome)
    requires PlacedInv(log, outcomes)
    ensures !o.Written? ==> PlacedInv(log, outcomes + [o])
    ensures o.Written? && o.at == |log| ==> PlacedInv(log + o.record.line, outcomes + [o])
  {
    PlacedGrowth(log, o.record.line, outcomes);
    assert (log + o.record.line)[|log|..] == o.record.line;
  }

  lemma PlacedWriteAll(s: System, torn: Option<nat>)
    requires PlacedInv(s.g.log, s.g.outcomes) && Enabled(s, WriteAll(torn))
    ensures PlacedInv(ApplyWriteAll(s, torn).g.log, ApplyWriteAll(s, torn).g.outcomes)
  {
    var record, f := s.w.todo[0], s.w.handle.value;
    if torn.None? {
      PlacedNext(s.g.log, s.g.outcomes, Written(record, f, |s.store.files[f].bytes|, |s.g.log|));
    } else {
      PlacedGrowth(s.g.log, record.line[..torn.value], s.g.outcomes);
      PlacedNext(s.g.log + record.line[..torn.value], s.g.outcomes, WriteFailed(record));
    }
  }

  lemma PlacedStep(s: System, step: Step)
    requires PlacedInv(s.g.log, s.g.outcomes) && Enabled(s, step)
    ensures PlacedInv(Apply(s, step).g.log, Apply(s, step).g.outcomes)
  {
    match step
    case ExternalAppend(bytes) => PlacedGrowth(s.g.log, bytes, s.g.outcomes);
    case Open(_, _) => PlacedNext(s.g.log, s.g.outcomes, OpenFailed(s.w.todo[0]));
    case WriteAll(torn) => PlacedWriteAll(s, torn);
    case _ =>
  }

  // ----- flushes -----

  /** Everything accepted before an acknowledged flush had its outcome by then. */
  ghost predicate AckInv(s: System) {
    forall k :: 0 <= k < |s.g.acks| ==>
      var ack := s.g.acks[k];
      && ack.position < s.g.taken <= |s.g.accepted| && s.g.accepted[ack.position].Flush?
      && ack.resolved <= |s.g.outcomes|
      && Records(s.g.outcomes[..ack.resolved]) == Flatten(s.g.accepted[..ack.position])
  }

  /** Acknowledgements stay true as more commands are accepted and more outcomes follow. */
  lemma AckGrowth(s: System, next: System)
    requires AckInv(s)
    requires next.g.acks == s.g.acks && s.g.taken <= next.g.taken <= |next.g.accepted|
    requires s.g.accepted <= next.g.accepted && s.g.outcomes <= next.g.outcomes
    ensures AckInv(next)
  {
    forall k | 0 <= k < |s.g.acks|
      ensures var ack := s.g.acks[k];
              next.g.outcomes[..ack.resolved] == s.g.outcomes[..ack.resolved]
              && next.g.accepted[..ack.position] == s.g.accepted[..ack.position]
    {
    }
  }

  lemma AckBegin(s: System, command: Command)
    requires AckInv(s) && WorkInv(s) && s.w.pc == Ready
    requires s.g.taken < |s.g.accepted| && s.g.accepted[s.g.taken] == command
    ensures AckInv(Begin(s, command))
  {
    var next := Begin(s, command);
    AckGrowth(s, next.(g := next.g.(acks := s.g.acks)));
    if command.Flush? {
      assert s.g.outcomes[..|s.g.outcomes|] == s.g.outcomes;
    }
  }

  lemma AckAccept(s: System, command: Command, parked: bool)
    requires AckInv(s) && WorkInv(s) && QueueInv(s) && Accepts(s, parked)
    ensures AckInv(Accept(s, command))
  {
    var logged := s.(g := s.g.(accepted := s.g.accepted + [command]));
    AckGrowth(s, logged);
    assert logged.g.accepted[..s.g.taken] == s.g.accepted[..s.g.taken];
    if s.cfg.capacity == 0 { AckBegin(logged, command); }
  }

  lemma AckSubmit(s: System, command: Command, parked: bool)
    requires AckInv(s) && WorkInv(s) && ChannelInv(s)
    ensures AckInv(ApplySubmit(s, command, parked))
  {
    hide Flatten, Records, CountFailed, CountSubmitted, Accept, Work;
    if Accepts(s, parked) {
      AckAccept(s.(g := s.g.(offered := s.g.offered + 1)), command, parked);
    }
  }

  lemma AckReceive(s: System)
    requires AckInv(s) && WorkInv(s) && ChannelInv(s) && Enabled(s, Step.Receive)
    ensures AckInv(ApplyReceive(s))
  {
    hide Flatten, Records, CountFailed, CountSubmitted, Begin, Work;
    assert s.g.accepted[s.g.taken] == s.g.accepted[s.g.taken..][0];
    AckBegin(s.(queue := s.queue[1..]), s.queue[0]);
  }

  lemma AckChannelStep(s: System, step: Step)
    requires AckInv(s) && WorkInv(s) && ChannelInv(s) && Enabled(s, step)
    requires IsChannelStep(step)
    ensures AckInv(Apply(s, step))
  {
    hide AckInv, WorkInv, QueueInv, Accept, Begin;
    match step
    case Submit(command, parked) => AckSubmit(s, command, parked);
    case SendOnce(command, parked) =>
      if Accepts(s, parked) { AckAccept(s, command, parked); }
    case Receive => AckReceive(s);
  }

  lemma AckOtherStep(s: System, step: Step)
    requires AckInv(s) && WorkInv(s) && Enabled(s, step)
    requires !IsChannelStep(step)
    ensures AckInv(Apply(s, step))
  {
    hide Flatten, Records, CountFailed, Apply, Enabled, AckInv;
    LedgerOnlyGrows(s, step);
    AckGrowth(s, Apply(s, step));
  }

  lemma AckStep(s: System, step: Step)
    requires AckInv(s) && WorkInv(s) && ChannelInv(s) && Enabled(s, step)
    ensures AckInv(Apply(s, step))
  {
    if IsChannelStep(step) {
      AckChannelStep(s, step);
    } else {
      AckOtherStep(s, step);
    }
  }

  // ----- all of it -----

  ghost predicate LedgerInv(s: System) {
    ChannelInv(s) && WorkInv(s) && PlacedInv(s.g.log, s.g.outcomes) && AckInv(s)
  }

  lemma {:induction false} LedgerAlways(states: seq<System>, steps: seq<Step>, i: nat)
    requires IsRun(states, steps) && i < |states|
    ensures LedgerInv(states[i])
  {
    if i > 0 {
      LedgerAlways(states, steps, i - 1);
      var s, step := states[i - 1], steps[i - 1];
      assert Next(s, step, states[i - 1 + 1]);
      ChannelStep(s, step);
      WorkStep(s, step);
      PlacedStep(s, step);
      AckStep(s, step);
    }
  }

  /**
   No submission is lost without a count: what was accepted is, in order, what was resolved,
   what the writer has in hand and what is queued; each call of `submit_line` or
   `submit_evidence` was accepted, dropped and counted once, or refused and counted once; and
   each failed line is one counted write error.
   */
  lemma EverySubmissionIsAccountedFor(states: seq<System>, steps: seq<Step>, i: nat)
    requires IsRun(states, steps) && i < |states|
    ensures var s := states[i];
            && |s.queue| <= s.cfg.capacity
            && Flatten(s.g.accepted) == Records(s.g.outcomes) + s.w.todo + Flatten(s.queue)
            && s.g.offered == CountSubmitted(s.g.accepted) + s.dropped + s.g.disconnected
            && s.errors == CountFailed(s.g.outcomes) + s.g.rotationErrors + s.g.disconnected
            && PlacedInv(s.g.log, s.g.outcomes)
  {
    hide Flatten, Records, CountFailed, CountSubmitted, Work, AckInv, PlacedInv;
    LedgerAlways(states, steps, i);
    var g := states[i].g;
    FlattenConcat(g.accepted[..g.taken], g.accepted[g.taken..]);
    assert g.accepted == g.accepted[..g.taken] + g.accepted[g.taken..];
  }

  /**
   When a flush is acknowledged, every record accepted before it has its outcome, in order,
   and the written ones are in the log; this is still so at every later state.
   */
  lemma FlushedMeansResolved(states: seq<System>, steps: seq<Step>, i: nat, k: nat)
    requires IsRun(states, steps) && i < |states| && k < |states[i].g.acks|
    ensures var g, ack := states[i].g, states[i].g.acks[k];
            && ack.position < |g.accepted| && g.accepted[ack.position] == Flush
            && ack.resolved == |Flatten(g.accepted[..ack.position])| <= |g.outcomes|
            && Flatten(g.accepted[..ack.position]) == Records(g.outcomes[..ack.resolved])
            && PlacedInv(g.log, g.outcomes[..ack.resolved])
  {
    LedgerAlways(states, steps, i);
    RecordsLength(states[i].g.outcomes[..states[i].g.acks[k].resolved]);
  }
}
