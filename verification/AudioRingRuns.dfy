/**
 Whole runs of the audio ring: what a reader gets is a contiguous stretch of what was
 written, however the writes were cut into chunks, and no byte goes unaccounted for.
 */
module AudioRingRuns {
  import opened Prelude
  import opened AudioRing

  datatype Operation = Write(data: Bytes) | Read(byteCount: nat) | Reset

  /**
   `stream` is everything written since the last reset, `read` everything ever handed to readers;
   `discarded` counts bytes reset away.
   */
  datatype Ring =
    Ring(held: Bytes, stream: Bytes, read: Bytes, written: nat, delivered: nat, dropped: nat, discarded: nat)

  const EMPTY := Ring([], [], [], 0, 0, 0, 0)

  function Do(r: Ring, op: Operation, max: nat): Ring {
    match op
    case Write(data) =>
      var held := Newest(r.held + data, max);
      r.(held := held, stream := r.stream + data, written := r.written + |data|,
         dropped := r.dropped + |r.held + data| - |held|)
    case Read(byteCount) =>
      var n := Min(byteCount, |r.held|);
      r.(held := r.held[n..], read := r.read + r.held[..n], delivered := r.delivered + n)
    case Reset => r.(held := [], stream := [], discarded := r.discarded + |r.held|)
  }

  function Replay(ops: seq<Operation>, max: nat): Ring {
    if ops == [] then EMPTY else Do(Replay(ops[..|ops| - 1], max), ops[|ops| - 1], max)
  }

  /** The ring holds the end of the stream, and every byte written has gone exactly one way. */
  ghost predicate Accounted(r: Ring, max: nat) {
    && |r.held| <= max
    && IsSuffix(r.held, r.stream)
    && r.written == r.delivered + r.dropped + |r.held| + r.discarded
    && r.delivered == |r.read|
  }

  lemma SuffixTransitive<T>(tail: seq<T>, middle: seq<T>, whole: seq<T>)
    requires IsSuffix(tail, middle) && IsSuffix(middle, whole)
    ensures IsSuffix(tail, whole)
  {
    assert middle == middle[..|middle| - |tail|] + tail;
    SuffixOfSuffix(middle[..|middle| - |tail|], tail, whole);
  }

  lemma NewestIsSuffix<T>(x: seq<T>, max: nat)
    ensures IsSuffix(Newest(x, max), x) && |Newest(x, max)| == Min(|x|, max)
  {
  }

  lemma RestIsSuffix<T>(x: seq<T>, n: nat)
    requires n <= |x|
    ensures IsSuffix(x[n..], x)
  {
  }

  lemma DoKeepsAccounts(r: Ring, op: Operation, max: nat)
    requires Accounted(r, max)
    ensures Accounted(Do(r, op, max), max)
  {
    hide IsSuffix, Newest;
    match op
    case Write(data) =>
      SuffixOfExtension(r.held, r.stream, data);
      NewestIsSuffix(r.held + data, max);
      SuffixTransitive(Newest(r.held + data, max), r.held + data, r.stream + data);
    case Read(byteCount) =>
      RestIsSuffix(r.held, Min(byteCount, |r.held|));
      SuffixTransitive(r.held[Min(byteCount, |r.held|)..], r.held, r.stream);
    case Reset =>
      var nothing: Bytes := [];
      RestIsSuffix(nothing, 0);
      assert nothing[0..] == nothing;
  }

  lemma {:induction false} RunKeepsAccounts(ops: seq<Operation>, max: nat)
    ensures Accounted(Replay(ops, max), max)
  {
    if ops != [] {
      RunKeepsAccounts(ops[..|ops| - 1], max);
      DoKeepsAccounts(Replay(ops[..|ops| - 1], max), ops[|ops| - 1], max);
    }
  }

  /**
   After any run, a read of n bytes returns the oldest bytes held, which are the stretch of
   the stream since the last reset that ends exactly where the bytes still held begin.
   */
  lemma ReadIsAStretchOfTheStream(ops: seq<Operation>, max: nat, byteCount: nat)
    ensures var r := Replay(ops, max);
            var next := Do(r, Read(byteCount), max);
            var n := Min(byteCount, |r.held|);
            var end := |r.stream| - |next.held|;
            && n <= end <= |r.stream|
            && r.held[..n] == r.stream[end - n..end] && next.held == r.stream[end..]
  {
    hide Replay, IsSuffix;
    RunKeepsAccounts(ops, max);
    var r := Replay(ops, max);
    SuffixSplits(r.held, r.stream, Min(byteCount, |r.held|));
  }

  /** The first n elements of a suffix end where its rest begins. */
  lemma SuffixSplits<T>(tail: seq<T>, whole: seq<T>, n: nat)
    requires IsSuffix(tail, whole) && n <= |tail|
    ensures var end := |whole| - (|tail| - n); n <= end && tail[..n] == whole[end - n..end] && tail[n..] == whole[end..]
  {
    var start := |whole| - |tail|;
    assert whole[start..][..n] == whole[start..start + n];
    assert whole[start..][n..] == whole[start + n..];
  }

  /** Keeping the newest bytes early makes no difference later. */
  lemma NewestOfNewest(x: Bytes, more: Bytes, max: nat)
    ensures |Newest(x, max)| == Min(|x|, max)
    ensures Newest(Newest(x, max) + more, max) == Newest(x + more, max)
  {
    var k := |x| - |Newest(x, max)|;
    assert Newest(x, max) + more == (x + more)[k..];
  }

  /** Cutting a write in two changes neither what is held nor any count. */
  lemma WritesMayBeCut(r: Ring, a: Bytes, b: Bytes, max: nat)
    ensures Do(Do(r, Write(a), max), Write(b), max) == Do(r, Write(a + b), max)
  {
    hide Newest;
    NewestOfNewest(r.held + a, b, max);
    assert (r.held + a) + b == r.held + (a + b) && (r.stream + a) + b == r.stream + (a + b);
  }

  /** The ring object shows what a state of the replay predicts. */
  ghost predicate Shows(ring: RingBuffer, r: Ring)
    requires ring.Valid()
    reads ring, ring.storage
  {
    ring.Contents() == r.held && ring.deliveredBytes == r.delivered && ring.droppedBytes == r.dropped
  }

  predicate FitsWidth(op: Operation) {
    match op
    case Write(data) => |data| < 0x1_0000_0000
    case Read(byteCount) => byteCount < 0x1_0000_0000
    case Reset => true
  }

  /** One operation at the object, with the bytes it hands out. */
  method Perform(ring: RingBuffer, op: Operation, ghost r: Ring) returns (read: Bytes)
    requires ring.Valid() && FitsWidth(op) && Shows(ring, r)
    modifies ring, ring.storage
    ensures ring.Valid() && ring.storage == old(ring.storage) && ring.maxBuffered == old(ring.maxBuffered)
    ensures Shows(ring, Do(r, op, ring.maxBuffered as nat))
    ensures r.read + read == Do(r, op, ring.maxBuffered as nat).read
  {
    read := [];
    match op {
      case Write(data) => var _ := ring.Write(data);
      case Read(byteCount) =>
        var buffer := new byte[byteCount];
        var copied, _ := ring.Read(buffer, byteCount as uint32);
        read := buffer[..copied];
      case Reset => ring.Reset();
    }
  }

  /** The ring object, driven through any operations, holds and hands out what the replay predicts. */
  method Drive(ring: RingBuffer, ops: seq<Operation>) returns (read: Bytes)
    requires ring.Valid() && ring.Contents() == []
    requires ring.deliveredBytes == 0 && ring.droppedBytes == 0
    requires forall op :: op in ops ==> FitsWidth(op)
    modifies ring, ring.storage
    ensures ring.Valid() && Shows(ring, Replay(ops, ring.maxBuffered as nat))
    ensures read == Replay(ops, ring.maxBuffered as nat).read
  {
    hide Do, FitsWidth;
    ghost var max := ring.maxBuffered as nat;
    read := [];
    for k := 0 to |ops|
      invariant ring.Valid() && ring.storage == old(ring.storage) && ring.maxBuffered as nat == max
      invariant Shows(ring, Replay(ops[..k], max))
      invariant read == Replay(ops[..k], max).read
    {
      assert ops[..k + 1][..k] == ops[..k] && ops[k] in ops;
      var more := Perform(ring, ops[k], Replay(ops[..k], max));
      read := read + more;
    }
    assert ops[..|ops|] == ops;
  }
}
