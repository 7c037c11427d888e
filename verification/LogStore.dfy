/**
 The log directory as the file system sees it: names of generations bound to files.
 Generation 0 is the active path, generation i is the path with extension `i.log`.
 A file keeps its identity when it is renamed, so an open handle can be told apart
 from the name it was opened under.
 */
module LogStore {
  import opened Prelude

  /** `synced` is the length known to have reached stable storage. */
  datatype File = File(bytes: Bytes, synced: nat)

  datatype Store = Store(names: map<nat, nat>, files: seq<File>) {

    ghost predicate Valid() {
      && (forall i :: i in names ==> names[i] < |files|)
      && (forall i, j :: i in names && j in names && names[i] == names[j] ==> i == j)
      && (forall f :: 0 <= f < |files| ==> files[f].synced <= |files[f].bytes|)
    }

    function ContentAt(i: nat): Bytes {
      if i in names && names[i] < |files| then files[names[i]].bytes else []
    }

    /** Appends through an open handle. */
    function Append(f: nat, more: Bytes): Store {
      if f < |files|
      then this.(files := files[f := files[f].(bytes := files[f].bytes + more)])
      else this
    }

    /** `sync_data` on an open handle. */
    function Sync(f: nat): Store {
      if f < |files|
      then this.(files := files[f := files[f].(synced := |files[f].bytes|)])
      else this
    }

    /** Opens the active path, creating it when it is missing. */
    function OpenActive(): Store {
      if 0 in names then this else Store(names[0 := |files|], files + [File([], 0)])
    }

    /** Another process opens the active path, appends and closes it. */
    function AppendToActive(more: Bytes): Store {
      var present := OpenActive();
      present.Append(present.names[0], more)
    }

    function Remove(i: nat): Store {
      this.(names := names - {i})
    }

    function Rename(from: nat, to: nat): Store {
      if from in names then this.(names := (names - {from})[to := names[from]]) else this
    }
  }

  /** Generations n, n-1, ..., 1 concatenated oldest first. */
  function Older(st: Store, n: nat): Bytes {
    if n == 0 then [] else st.ContentAt(n) + Older(st, n - 1)
  }

  /** The whole retained log, oldest byte first. */
  function Retained(st: Store, n: nat): Bytes {
    Older(st, n) + st.ContentAt(0)
  }

  lemma {:induction false} OlderFrame(a: Store, b: Store, n: nat)
    requires forall i :: 1 <= i <= n ==> a.ContentAt(i) == b.ContentAt(i)
    ensures Older(a, n) == Older(b, n)
  {
    if n > 0 {
      OlderFrame(a, b, n - 1);
    }
  }

  lemma AppendReachesOne(st: Store, more: Bytes)
    requires st.Valid() && 0 in st.names
    ensures var after := st.Append(st.names[0], more);
            && after.Valid()
            && after.ContentAt(0) == st.ContentAt(0) + more
            && forall i :: i > 0 ==> after.ContentAt(i) == st.ContentAt(i)
  {
    assert forall i :: i > 0 && i in st.names ==> st.names[i] != st.names[0];
  }

  /** Writing through a handle on the active file extends the retained log at its end only. */
  lemma AppendExtendsRetained(st: Store, more: Bytes, n: nat)
    requires st.Valid() && 0 in st.names
    ensures var after := st.Append(st.names[0], more);
            && after.Valid()
            && after.ContentAt(0) == st.ContentAt(0) + more
            && (forall i :: i > 0 ==> after.ContentAt(i) == st.ContentAt(i))
            && Older(after, n) == Older(st, n)
            && Retained(after, n) == Retained(st, n) + more
  {
    hide Older, Store.Append, Store.ContentAt, Store.Valid;
    var after := st.Append(st.names[0], more);
    AppendReachesOne(st, more);
    OlderFrame(after, st, n);
    assert (Older(st, n) + st.ContentAt(0)) + more == Older(st, n) + (st.ContentAt(0) + more);
  }

  lemma OpenKeepsRetained(st: Store, n: nat)
    requires st.Valid()
    ensures var after := st.OpenActive();
            && after.Valid() && 0 in after.names
            && (forall i :: after.ContentAt(i) == st.ContentAt(i))
            && Older(after, n) == Older(st, n)
            && Retained(after, n) == Retained(st, n)
  {
    OlderFrame(st.OpenActive(), st, n);
  }

  lemma ExternalAppendExtendsRetained(st: Store, more: Bytes, n: nat)
    requires st.Valid()
    ensures var after := st.AppendToActive(more);
            && after.Valid() && 0 in after.names
            && after.ContentAt(0) == st.ContentAt(0) + more
            && (forall i :: i > 0 ==> after.ContentAt(i) == st.ContentAt(i))
            && Older(after, n) == Older(st, n)
            && Retained(after, n) == Retained(st, n) + more
  {
    OpenKeepsRetained(st, n);
    AppendExtendsRetained(st.OpenActive(), more, n);
  }

  lemma SyncKeepsRetained(st: Store, f: nat, n: nat)
    requires st.Valid()
    ensures var after := st.Sync(f);
            && after.Valid() && after.names == st.names
            && (forall i :: after.ContentAt(i) == st.ContentAt(i))
            && Older(after, n) == Older(st, n)
            && Retained(after, n) == Retained(st, n)
  {
    OlderFrame(st.Sync(f), st, n);
  }

  /** A rename into the free slot above moves the content with the name. */
  lemma RenameMoves(st: Store, i: nat)
    requires st.Valid() && i in st.names && i + 1 !in st.names
    ensures var after := st.Rename(i, i + 1);
            && after.Valid() && st.ContentAt(i + 1) == [] == after.ContentAt(i)
               && after.ContentAt(i + 1) == st.ContentAt(i)
            && forall j :: j != i && j != i + 1 ==> after.ContentAt(j) == st.ContentAt(j)
  {
  }

  /** Moving a generation into the free slot above it leaves the retained log as it was. */
  lemma {:induction false} RenameKeepsOlder(st: Store, i: nat, n: nat)
    requires st.Valid() && i in st.names && i + 1 !in st.names && 0 < i < n
    ensures Older(st.Rename(i, i + 1), n) == Older(st, n)
  {
    hide Store.Rename, Store.ContentAt, Store.Valid;
    var after := st.Rename(i, i + 1);
    RenameMoves(st, i);
    if n == i + 1 {
      OlderFrame(after, st, i - 1);
      assert Older(after, n) == after.ContentAt(i + 1) + (after.ContentAt(i) + Older(after, i - 1));
    } else {
      RenameKeepsOlder(st, i, n - 1);
    }
  }

  lemma {:induction false} RenameActiveKeepsRetained(st: Store, n: nat)
    requires st.Valid() && 0 in st.names && 1 !in st.names && 0 < n
    ensures Older(st.Rename(0, 1), n) == Older(st, n) + st.ContentAt(0)
  {
    hide Store.Rename, Store.ContentAt, Store.Valid;
    RenameMoves(st, 0);
    if n > 1 {
      RenameActiveKeepsRetained(st, n - 1);
    }
  }

  lemma RenameKeepsRetained(st: Store, i: nat, n: nat)
    requires st.Valid() && i in st.names && i + 1 !in st.names && i < n
    ensures st.Rename(i, i + 1).Valid()
    ensures Retained(st.Rename(i, i + 1), n) == Retained(st, n)
  {
    hide Store.Rename, Store.ContentAt, Store.Valid, Older;
    RenameMoves(st, i);
    if i == 0 {
      RenameActiveKeepsRetained(st, n);
    } else {
      RenameKeepsOlder(st, i, n);
    }
  }

  lemma RemoveTakesOne(st: Store, i: nat)
    requires st.Valid()
    ensures var after := st.Remove(i);
            && after.Valid() && after.ContentAt(i) == []
            && forall j :: j != i ==> after.ContentAt(j) == st.ContentAt(j)
  {
  }

  /** Deleting the oldest generation cuts exactly its bytes from the front. */
  lemma RemoveOldestCutsPrefix(st: Store, n: nat)
    requires st.Valid() && 0 < n
    ensures st.Remove(n).Valid()
    ensures Retained(st, n) == st.ContentAt(n) + Retained(st, n - 1)
    ensures Retained(st.Remove(n), n) == Retained(st, n - 1)
  {
    hide Store.Remove, Store.ContentAt, Store.Valid;
    var after := st.Remove(n);
    RemoveTakesOne(st, n);
    var oldest, middle, active := st.ContentAt(n), Older(st, n - 1), st.ContentAt(0);
    assert (oldest + middle) + active == oldest + (middle + active);
    OlderFrame(after, st, n - 1);
    assert Older(after, n) == [] + middle == middle;
  }
}
