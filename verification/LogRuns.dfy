/** Building concrete runs out of short stretches. */
module LogRuns {
  import opened Prelude
  import opened LogStore
  import opened LogProtocol

  /** From `a` the steps are possible one after the other, and they end in `b`. */
  ghost predicate Leads(a: System, steps: seq<Step>, b: System)
    decreases |steps|
  {
    if steps == [] then a == b
    else Enabled(a, steps[0]) && Leads(Apply(a, steps[0]), steps[1..], b)
  }

  lemma LeadsOne(a: System, step: Step, b: System)
    requires Next(a, step, b)
    ensures Leads(a, [step], b)
  {
    hide Apply, Enabled;
    assert [step][1..] == [];
    assert Leads(b, [], b);
  }

  lemma LeadsTwo(a: System, x: Step, b: System, y: Step, c: System)
    requires Next(a, x, b) && Next(b, y, c)
    ensures Leads(a, [x, y], c)
  {
    hide Apply, Enabled;
    LeadsOne(b, y, c);
    assert [x, y][1..] == [y];
  }

  lemma LeadsThree(a: System, x: Step, b: System, y: Step, c: System, z: Step, d: System)
    requires Next(a, x, b) && Next(b, y, c) && Next(c, z, d)
    ensures Leads(a, [x, y, z], d)
  {
    hide Apply, Enabled;
    LeadsTwo(b, y, c, z, d);
    assert [x, y, z][1..] == [y, z];
  }

  lemma {:induction false} LeadsOn(a: System, xs: seq<Step>, b: System, ys: seq<Step>, c: System)
    requires Leads(a, xs, b) && Leads(b, ys, c)
    ensures Leads(a, xs + ys, c)
    decreases |xs|
  {
    hide Apply, Enabled;
    if xs == [] {
      assert xs + ys == ys;
    } else {
      LeadsOn(Apply(a, xs[0]), xs[1..], b, ys, c);
      assert (xs + ys)[1..] == xs[1..] + ys;
    }
  }

  /** Steps that follow one another from an initial state make a run. */
  lemma RunOf(a: System, steps: seq<Step>, b: System) returns (states: seq<System>)
    requires Init(a) && Leads(a, steps, b)
    ensures IsRun(states, steps) && states[0] == a && states[|steps|] == b
  {
    hide Apply, Enabled, Init;
    states := StatesOf(a, steps, b);
  }

  lemma {:induction false} StatesOf(a: System, steps: seq<Step>, b: System) returns (states: seq<System>)
    requires Leads(a, steps, b)
    ensures |states| == |steps| + 1 && states[0] == a && states[|steps|] == b
    ensures forall i :: 0 <= i < |steps| ==> Next(states[i], steps[i], states[i + 1])
    decreases |steps|
  {
    hide Apply, Enabled;
    if steps == [] {
      states := [a];
    } else {
      var rest := StatesOf(Apply(a, steps[0]), steps[1..], b);
      states := [a] + rest;
      forall i | 0 <= i < |steps| ensures Next(states[i], steps[i], states[i + 1]) {
        if i > 0 {
          assert Next(rest[i - 1], steps[1..][i - 1], rest[i - 1 + 1]);
        }
      }
    }
  }

  // ----- stretches that every rotation and every write go through -----

  const RETIRE: seq<Step> := [Enter(true), LockDirectory(true), SyncForRotation(true)]
  const MOVE_UP: seq<Step> := [Scan, ClearSlot(true), RenameUp(true)]
  const WRITE: seq<Step> := [Open(true, true), WriteAll(None)]

  /** The active file has grown to the limit: it is synced under the lock and its handle closed. */
  lemma Retires(s: System)
    requires s.w.pc == Entry && s.w.linesSinceStat < REFRESH_LEN_EVERY_LINES && s.w.approxLen >= s.cfg.maxBytes
    requires s.lock == Free && s.w.handle.Some?
    ensures Leads(s, RETIRE, s.(store := s.store.Sync(s.w.handle.value), lock := HeldByWriter,
                                w := s.w.(pc := Scanning(s.cfg.generations), handle := None),
                                g := s.g.(exposure := s.g.exposure.Synced())))
  {
    hide Leads, Retained, Store.ContentAt, Store.Sync;
    var a := s.(w := s.w.(pc := Locking));
    var b := a.(lock := HeldByWriter, w := s.w.(pc := Syncing));
    LeadsThree(s, Enter(true), a, LockDirectory(true), b, SyncForRotation(true), Apply(b, SyncForRotation(true)));
  }

  /** The slot the shift has reached, cleared for the generation below it. */
  function Cleared(st: Store, index: nat): Store {
    if index in st.names then st.Remove(index) else st
  }

  lemma MovesUp(s: System)
    requires s.w.pc.Scanning? && s.w.pc.index > 0 && s.w.pc.index - 1 in s.store.names
    ensures var index := s.w.pc.index;
            Leads(s, MOVE_UP, s.(store := Cleared(s.store, index).Rename(index - 1, index),
                                 w := s.w.(pc := Scanning(index - 1)),
                                 g := s.g.(exposure := if index == 1 then s.g.exposure.Retired() else s.g.exposure,
                                           active := if index == 1 then NEW_ACTIVE else s.g.active)))
  {
    hide Leads, Retained, Store.ContentAt, Store.Remove, Store.Rename;
    var index := s.w.pc.index;
    var a := s.(w := s.w.(pc := Removing(index)));
    var b := s.(store := Cleared(s.store, index), w := s.w.(pc := Renaming(index)));
    LeadsThree(s, Scan, a, ClearSlot(true), b, RenameUp(true), Apply(b, RenameUp(true)));
  }

  /** With the handle closed: the active file is opened and the record written whole. */
  lemma Writes(s: System)
    requires s.w.pc == Opening && s.w.todo != [] && s.w.handle.None?
    requires s.store.OpenActive().names[0] < |s.store.OpenActive().files|
    ensures Leads(s, WRITE, ApplyWriteAll(ApplyOpen(s, true, true), None))
  {
    hide Leads, Retained, Store.ContentAt, Store.Append;
    var a := ApplyOpen(s, true, true);
    LeadsTwo(s, Open(true, true), a, WriteAll(None), ApplyWriteAll(a, None));
  }
}
