/**
 The kernel audio ring: a fixed-capacity, overwrite-oldest circular buffer over caller-owned
 storage. The offsets and lengths are 32-bit as in the driver; the byte counters are taken
 as unbounded.
 */
module AudioRing {
  import opened Prelude

  newtype uint32 = x: int | 0 <= x < 0x1_0000_0000

  /** Largest capacity for which offset arithmetic stays within 32 bits. */
  const MAX_CAPACITY: uint32 := 0x8000_0000

  /** The position `x` of a circle of `size` slots, for x short of two turns. */
  function Wrap(x: nat, size: nat): nat
    requires size > 0
  {
    if x < size then x else x - size
  }

  /** `len` bytes of the circular `store` from `start` on. */
  ghost function Window(store: Bytes, start: nat, len: nat): (w: Bytes)
    requires start < |store| && len <= |store|
    ensures |w| == len && forall i :: 0 <= i < len ==> w[i] == store[Wrap(start + i, |store|)]
  {
    seq(len, i requires 0 <= i < len => store[Wrap(start + i, |store|)])
  }

  /** The newest `n` elements. */
  function Newest<T>(s: seq<T>, n: nat): seq<T> {
    if |s| <= n then s else s[|s| - n..]
  }

  lemma WindowSkip(store: Bytes, start: nat, len: nat, n: nat)
    requires start < |store| && n <= len <= |store|
    ensures Window(store, Wrap(start + n, |store|), len - n) == Window(store, start, len)[n..]
  {
    var short, long := Window(store, Wrap(start + n, |store|), len - n), Window(store, start, len);
    forall i | 0 <= i < len - n ensures short[i] == long[n..][i] {
      assert long[n..][i] == long[n + i];
    }
  }

  /** Bytes stored right after the window, without passing the end of the storage, extend it. */
  lemma WindowExtend(store: Bytes, after: Bytes, start: nat, len: nat, data: Bytes)
    requires start < |store| == |after| && len + |data| <= |store|
    requires var w := Wrap(start + len, |store|);
             && w + |data| <= |store|
             && after[..w] == store[..w] && after[w..w + |data|] == data && after[w + |data|..] == store[w + |data|..]
    ensures Window(after, start, len + |data|) == Window(store, start, len) + data
  {
    var w, held, longer := Wrap(start + len, |store|), Window(store, start, len), Window(after, start, len + |data|);
    forall i | 0 <= i < len + |data| ensures longer[i] == (held + data)[i] {
      var p := Wrap(start + i, |store|);
      if i < len {
        assert p < w || p >= w + |data|;
        assert p < w ==> after[p] == after[..w][p] == store[..w][p];
        assert p >= w + |data| ==> after[p] == after[w + |data|..][p - (w + |data|)];
      } else {
        assert p == w + (i - len);
        assert after[p] == after[w..w + |data|][i - len];
      }
    }
  }

  /** A window that does not pass the end of the storage is a plain slice. */
  lemma WindowSlice(store: Bytes, start: nat, len: nat, run: nat)
    requires start < |store| && run <= len <= |store| && start + run <= |store|
    ensures Window(store, start, len)[..run] == store[start..start + run]
  {
    var long := Window(store, start, len);
    assert forall i :: 0 <= i < run ==> long[i] == store[start + i];
  }

  /** Cutting the excess of `data` first and then of `held` leaves the newest `n` of both. */
  lemma NewestOfBoth<T>(held: seq<T>, data: seq<T>, n: nat, skip: nat, dropped: nat)
    requires |held| <= n
    requires skip == if |data| > n then |data| - n else 0
    requires dropped == if |data| - skip > n - |held| then (|data| - skip) - (n - |held|) else 0
    ensures dropped <= |held| && held[dropped..] + data[skip..] == Newest(held + data, n)
  {
    var cut := skip + dropped;
    if skip > 0 {
      assert (held + data)[cut..] == data[skip..] && held[dropped..] == [];
    } else {
      assert (held + data)[dropped..] == held[dropped..] + data;
    }
  }

  /** `s` with `data` written over it from position `at` on. */
  function Splice<T>(s: seq<T>, at: nat, data: seq<T>): seq<T>
    requires at + |data| <= |s|
  {
    s[..at] + data + s[at + |data|..]
  }

  lemma SpliceMeans<T>(s: seq<T>, t: seq<T>, size: nat, at: nat, data: seq<T>)
    requires at + |data| <= size <= |s| && t == Splice(s, at, data)
    ensures |t| == |s|
    ensures t[..size][..at] == s[..size][..at] && t[..size][at..at + |data|] == data
    ensures t[..size][at + |data|..] == s[..size][at + |data|..]
  {
    assert forall i :: 0 <= i < at ==> t[i] == s[i];
    assert forall i :: at <= i < at + |data| ==> t[i] == data[i - at];
    assert forall i :: at + |data| <= i < |s| ==> t[i] == s[i];
  }

  /** Splicing the next stretch of `source` moves the border between source and old contents. */
  lemma SpliceNext<T>(s: seq<T>, source: seq<T>, at: nat, run: nat)
    requires at + run <= |s| && at + run <= |source|
    ensures Splice(source[..at] + s[at..], at, source[at..][..run]) == source[..at + run] + s[at + run..]
    ensures source[at..][run..] == source[at + run..]
  {
    var before := source[..at] + s[at..];
    assert before[..at] == source[..at] && before[at + run..] == s[at + run..];
    assert source[..at + run] == source[..at] + source[at..][..run];
  }

  lemma ModWithinTwoTurns(x: nat, size: nat)
    requires 0 < size && x < 2 * size
    ensures x % size == Wrap(x, size)
  {
    if x < size {
      assert x / size == 0;
    } else {
      assert x / size == 1;
    }
  }

  /** An offset moved on by `n`; the 32-bit sum does not overflow. */
  function Advance(offset: uint32, n: uint32, capacity: uint32): (moved: uint32)
    requires offset < capacity <= MAX_CAPACITY && n <= capacity
    ensures moved < capacity && moved as nat == Wrap(offset as nat + n as nat, capacity as nat)
  {
    ModWithinTwoTurns(offset as nat + n as nat, capacity as nat);
    (offset + n) % capacity
  }

  /** `memcpy` of `data` to `target` from position `at` on. */
  method MemCopy(target: array<byte>, at: nat, data: Bytes)
    requires at + |data| <= target.Length
    modifies target
    ensures target[..] == Splice(old(target[..]), at, data)
  {
    forall i | 0 <= i < |data| {
      target[at + i] := data[i];
    }
  }

  class RingBuffer {
    var storage: array<byte>
    var capacity: uint32
    var maxBuffered: uint32
    var readOffset: uint32
    var writeOffset: uint32
    var bufferedBytes: uint32
    var capturedBytes: nat
    var deliveredBytes: nat
    var droppedBytes: nat

    ghost predicate Valid()
      reads this
    {
      && 0 < maxBuffered <= capacity <= MAX_CAPACITY
      && capacity as int <= storage.Length
      && readOffset < capacity && writeOffset < capacity
      && bufferedBytes <= maxBuffered
      && writeOffset as nat == Wrap(readOffset as nat + bufferedBytes as nat, capacity as nat)
    }

    /** What the ring holds, oldest byte first. */
    ghost function Contents(): Bytes
      reads this, storage
      requires Valid()
    {
      Window(storage[..capacity], readOffset as nat, bufferedBytes as nat)
    }

    constructor Initialize(storage: array<byte>, capacity: uint32, maxBuffered: uint32)
      requires 0 < maxBuffered <= capacity <= MAX_CAPACITY && capacity as int <= storage.Length
      ensures Valid() && Contents() == [] && this.storage == storage
      ensures this.capacity == capacity && this.maxBuffered == maxBuffered
      ensures capturedBytes == deliveredBytes == droppedBytes == 0
    {
      this.storage := storage;
      this.capacity := capacity;
      this.maxBuffered := maxBuffered;
      readOffset, writeOffset, bufferedBytes := 0, 0, 0;
      capturedBytes, deliveredBytes, droppedBytes := 0, 0, 0;
    }

    /** Forgets the buffered bytes; the counters stay. */
    method Reset()
      requires Valid()
      modifies this`readOffset, this`writeOffset, this`bufferedBytes
      ensures Valid() && Contents() == []
    {
      readOffset, writeOffset, bufferedBytes := 0, 0, 0;
    }

    method ResetAll()
      requires Valid()
      modifies this`readOffset, this`writeOffset, this`bufferedBytes,
               this`capturedBytes, this`deliveredBytes, this`droppedBytes
      ensures Valid() && Contents() == []
      ensures capturedBytes == deliveredBytes == droppedBytes == 0
    {
      Reset();
      capturedBytes, deliveredBytes, droppedBytes := 0, 0, 0;
    }

    /** Gives up the oldest `dropped` bytes. */
    method DropOldest(dropped: uint32)
      requires Valid() && dropped <= bufferedBytes
      modifies this`readOffset, this`bufferedBytes, this`droppedBytes
      ensures Valid() && Contents() == old(Contents())[dropped..]
      ensures droppedBytes == old(droppedBytes) + dropped as nat
    {
      WindowSkip(storage[..capacity], readOffset as nat, bufferedBytes as nat, dropped as nat);
      readOffset := Advance(readOffset, dropped, capacity);
      bufferedBytes := bufferedBytes - dropped;
      droppedBytes := droppedBytes + dropped as nat;
    }

    /** One `memcpy` into the ring; the bytes do not pass the end of the storage. */
    method CopyRun(data: Bytes)
      requires Valid() && 0 < |data| <= (maxBuffered - bufferedBytes) as int
      requires writeOffset as int + |data| <= capacity as int
      modifies this`writeOffset, this`bufferedBytes, storage
      ensures Valid() && Contents() == old(Contents()) + data
      ensures bufferedBytes as int == old(bufferedBytes) as int + |data|
      ensures writeOffset as int == if old(writeOffset) as int + |data| == capacity as int then 0
                                    else old(writeOffset) as int + |data|
    {
      ghost var before := storage[..capacity];
      var w, run := writeOffset as int, |data|;
      MemCopy(storage, w, data);
      SpliceMeans(old(storage[..]), storage[..], capacity as nat, w, data);
      WindowExtend(before, storage[..capacity], readOffset as nat, bufferedBytes as nat, data);
      writeOffset := Advance(writeOffset, run as uint32, capacity);
      bufferedBytes := bufferedBytes + run as uint32;
    }

    /** The two guards at the head of a write: how much of the data to skip, and what to give up. */
    method MakeRoom(data: Bytes) returns (skipped: uint32)
      requires Valid() && |data| < 0x1_0000_0000
      modifies this`readOffset, this`bufferedBytes, this`droppedBytes
      ensures Valid() && skipped as int <= |data|
      ensures Contents() + data[skipped..] == Newest(old(Contents()) + data, maxBuffered as nat)
      ensures droppedBytes == old(droppedBytes) + (|old(Contents()) + data| - |Contents() + data[skipped..]|)
    {
      ghost var held := Contents();
      var remaining := |data| as uint32;
      skipped := 0;
      if remaining > maxBuffered {
        skipped := remaining - maxBuffered;
        remaining := remaining - skipped;
        droppedBytes := droppedBytes + skipped as nat;
      }
      var dropped: uint32 := 0;
      if remaining > maxBuffered - bufferedBytes {
        dropped := remaining - (maxBuffered - bufferedBytes);
        DropOldest(dropped);
      }
      NewestOfBoth(held, data, maxBuffered as nat, skipped as nat, dropped as nat);
    }

    /** The copy loop of a write, for data that fits; it runs at most twice. */
    method CopyIn(data: Bytes) returns (ghost rounds: nat)
      requires Valid() && |data| <= (maxBuffered - bufferedBytes) as int
      modifies this`writeOffset, this`bufferedBytes, storage
      ensures Valid() && Contents() == old(Contents()) + data
      ensures rounds <= 2
    {
      ghost var kept := Contents();
      var cursor, remaining := 0, |data| as uint32;
      rounds := 0;
      while remaining > 0
        invariant Valid() && 0 <= cursor <= |data| && remaining as int == |data| - cursor
        invariant remaining <= maxBuffered - bufferedBytes
        invariant Contents() == kept + data[..cursor]
        invariant rounds == 0 || (rounds == 1 && (remaining == 0 || writeOffset == 0))
                  || (rounds == 2 && remaining == 0)
      {
        var run := if remaining < capacity - writeOffset then remaining else capacity - writeOffset;
        CopyRun(data[cursor..cursor + run as int]);
        assert data[..cursor + run as int] == data[..cursor] + data[cursor..cursor + run as int];
        cursor := cursor + run as int;
        remaining := remaining - run;
        rounds := rounds + 1;
      }
    }

    /**
     Appends `data` and keeps the newest maxBuffered bytes; what is pushed out, of old or of
     new bytes, is counted as dropped. The copy loop runs at most twice.
     */
    method Write(data: Bytes) returns (ghost rounds: nat)
      requires Valid() && |data| < 0x1_0000_0000
      modifies this`readOffset, this`writeOffset, this`bufferedBytes, this`droppedBytes, storage
      ensures Valid()
      ensures Contents() == Newest(old(Contents()) + data, maxBuffered as nat)
      ensures droppedBytes == old(droppedBytes) + (|old(Contents()) + data| - |Contents()|)
      ensures rounds <= 2
    {
      var skipped := MakeRoom(data);
      rounds := CopyIn(data[skipped..]);
    }

    /** One `memcpy` out of the ring, to `buffer` from position `at` on. */
    method CopyOut(buffer: array<byte>, at: nat, run: uint32)
      requires Valid() && buffer != storage && at + run as int <= buffer.Length
      requires run <= bufferedBytes && readOffset as int + run as int <= capacity as int
      modifies this`readOffset, this`bufferedBytes, buffer
      ensures Valid() && Contents() == old(Contents())[run..]
      ensures bufferedBytes == old(bufferedBytes) - run
      ensures readOffset as int == if old(readOffset) as int + run as int == capacity as int then 0
                                   else old(readOffset) as int + run as int
      ensures buffer[..] == Splice(old(buffer[..]), at, old(Contents())[..run])
    {
      hide Window, Splice;
      var r := readOffset as int;
      WindowSlice(storage[..capacity], readOffset as nat, bufferedBytes as nat, run as nat);
      WindowSkip(storage[..capacity], readOffset as nat, bufferedBytes as nat, run as nat);
      assert storage[r..r + run as int] == storage[..capacity][r..r + run as int];
      MemCopy(buffer, at, storage[r..r + run as int]);
      readOffset := Advance(readOffset, run, capacity);
      bufferedBytes := bufferedBytes - run;
    }

    /** One turn of the copy loop: the next run up to the end of the array. */
    method CopyNext(buffer: array<byte>, copied: uint32, remaining: uint32, ghost all: Bytes, ghost before: Bytes)
      returns (run: uint32)
      requires Valid() && buffer != storage && 0 < remaining <= bufferedBytes
      requires copied as int + remaining as int <= |all| && copied as int + remaining as int <= buffer.Length
      requires Contents() == all[copied..] && |before| == buffer.Length
               && buffer[..] == all[..copied] + before[copied..]
      modifies this`readOffset, this`bufferedBytes, buffer
      ensures Valid() && 0 < run <= remaining && bufferedBytes == old(bufferedBytes) - run
      ensures run == remaining || readOffset == 0
      ensures old(readOffset) == 0 ==> run == remaining
      ensures Contents() == all[copied as int + run as int..]
      ensures buffer[..] == all[..copied as int + run as int] + before[copied as int + run as int..]
    {
      run := if remaining < capacity - readOffset then remaining else capacity - readOffset;
      SpliceNext(before, all, copied as nat, run as nat);
      CopyOut(buffer, copied as int, run);
    }

    /** The copy loop of a read of `count` buffered bytes; it runs at most twice. */
    method CopyAll(buffer: array<byte>, count: uint32) returns (ghost rounds: nat)
      requires Valid() && buffer != storage && count <= bufferedBytes && count as int <= buffer.Length
      modifies this`readOffset, this`bufferedBytes, buffer
      ensures Valid() && Contents() == old(Contents())[count..]
      ensures buffer[..] == old(Contents())[..count] + old(buffer[..])[count..]
      ensures rounds <= 2
    {
      var copied: uint32, remaining := 0, count;
      ghost var all, before := Contents(), buffer[..];
      rounds := 0;
      while remaining > 0
        invariant Valid() && remaining <= bufferedBytes && copied as int + remaining as int == count as int <= |all|
        invariant Contents() == all[copied..]
        invariant buffer[..] == all[..copied] + before[copied..]
        invariant rounds == 0 || (rounds == 1 && (remaining == 0 || readOffset == 0)) || (rounds == 2 && remaining == 0)
      {
        var run := CopyNext(buffer, copied, remaining, all, before);
        copied := copied + run;
        remaining := remaining - run;
        rounds := rounds + 1;
      }
    }

    /** Moves the oldest bytes, at most byteCount, into `buffer`. The copy loop runs at most twice. */
    method Read(buffer: array<byte>, byteCount: uint32) returns (copied: uint32, ghost rounds: nat)
      requires Valid() && buffer != storage && byteCount as int <= buffer.Length
      modifies this`readOffset, this`bufferedBytes, this`deliveredBytes, buffer
      ensures Valid()
      ensures copied as int == Min(byteCount as int, |old(Contents())|)
      ensures buffer[..] == old(Contents())[..copied] + old(buffer[..])[copied..]
      ensures Contents() == old(Contents())[copied..]
      ensures deliveredBytes == old(deliveredBytes) + copied as nat
      ensures rounds <= 2
    {
      copied := if byteCount < bufferedBytes then byteCount else bufferedBytes;
      rounds := CopyAll(buffer, copied);
      deliveredBytes := deliveredBytes + copied as nat;
    }

    /** Counts bytes captured from the audio engine; the ring is not touched. */
    method RecordCapture(byteCount: uint32)
      modifies this`capturedBytes
      ensures capturedBytes == old(capturedBytes) + byteCount as nat
    {
      capturedBytes := capturedBytes + byteCount as nat;
    }
  }
}
