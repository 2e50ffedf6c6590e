/** `DiskReaderWriter`: a disk read and written through a shared stream offset, and what
    sequences of byte-addressed calls add up to. */
module ReaderWriter {
  import opened Bytes
  import opened Layout
  import opened Device
  import opened DiskHandle

  const SEEK_START: int := 0
  const SEEK_CURRENT: int := 1
  const SEEK_END: int := 2

  class DiskReaderWriter {
    const diskHandle: DiskConnectHandle
    const mutex: Mutex
    var offset: int

    ghost predicate Valid()
      reads this, diskHandle.dev
    {
      diskHandle.Valid() && mutex != diskHandle.mutex && offset >= 0
    }

    ghost predicate Unlocked()
      reads mutex, diskHandle.mutex
    {
      !mutex.held && !diskHandle.mutex.held
    }

    constructor (diskHandle: DiskConnectHandle)
      requires diskHandle.Valid() && !diskHandle.mutex.held
      ensures Valid() && Unlocked() && this.diskHandle == diskHandle && offset == 0
    {
      this.diskHandle := diskHandle;
      this.offset := 0;
      this.mutex := new Mutex();
    }

    method Read(p: array<byte>) returns (n: nat, err: IoError)
      requires Valid() && Unlocked()
      requires offset < diskHandle.Capacity() ==> ClampLen(p.Length, offset, diskHandle.Capacity()) >= 0
      modifies p, this`offset, mutex, diskHandle.mutex, diskHandle.dev`trace, diskHandle.dev`faults, diskHandle.dev`lastFault
      ensures Valid() && Unlocked() && mutex.taken == old(mutex.taken) + 1
      ensures ReadOutcome(diskHandle.dev.store, old(offset), old(p[..]), p[..], n, err)
      ensures old(offset) >= diskHandle.Capacity() ==> diskHandle.dev.faults == old(diskHandle.dev.faults)
      ensures old(offset) < diskHandle.Capacity() ==>
        && diskHandle.dev.faults == old(diskHandle.dev.faults) + (if err == NoError then 0 else 1)
        && (err != NoError ==> err == if diskHandle.dev.lastFault == 16007 then EOF else Vddk(diskHandle.dev.lastFault))
      ensures offset == old(offset) + n
    {
      mutex.Lock();
      n, err := diskHandle.ReadAt(p, offset);
      offset := offset + n;
      mutex.Unlock();
    }

    method Write(p: array<byte>) returns (n: nat, err: IoError)
      requires Valid() && Unlocked()
      modifies this`offset, mutex, diskHandle.mutex, diskHandle.dev
      ensures Valid() && Unlocked() && mutex.taken == old(mutex.taken) + 1
      ensures WriteOutcome(old(diskHandle.dev.store), diskHandle.dev.store, old(offset), p[..], n, err)
      ensures diskHandle.dev.faults == old(diskHandle.dev.faults) + if err == NoError || err == ShortWrite then 0 else 1
      ensures err != NoError && err != ShortWrite ==>
        && diskHandle.dev.trace != []
        && err == if n == BodyLen(old(offset), p.Length) < p.Length && diskHandle.dev.trace[|diskHandle.dev.trace| - 1].write
                  then Wrapped(diskHandle.dev.lastFault)
                  else if diskHandle.dev.lastFault == 16007 then EOF else Vddk(diskHandle.dev.lastFault)
      ensures offset == old(offset) + n
    {
      mutex.Lock();
      n, err := diskHandle.WriteAt(p, offset);
      offset := offset + n;
      mutex.Unlock();
    }

    /** A negative target and `SEEK_END` are refused and leave the offset where it was; any other
        unknown `whence` reports the offset. */
    method Seek(delta: int, whence: int) returns (result: int, ok: bool)
      requires Valid() && Unlocked()
      modifies this`offset, mutex
      ensures Valid() && Unlocked() && mutex.taken == old(mutex.taken) + 1
      ensures whence == 0 ==> (ok <==> delta >= 0) && (ok ==> offset == delta)
      ensures whence == 1 ==> (ok <==> old(offset) + delta >= 0) && (ok ==> offset == old(offset) + delta)
      ensures whence == 2 ==> !ok
      ensures whence < 0 || whence > 2 ==> ok && offset == old(offset)
      ensures !ok ==> offset == old(offset)
      ensures result == if ok || whence == 2 then offset else 0
    {
      mutex.Lock();
      var desiredOffset := offset;
      if whence == SEEK_START {
        desiredOffset := delta;
      } else if whence == SEEK_CURRENT {
        desiredOffset := desiredOffset + delta;
      } else if whence == SEEK_END {
        mutex.Unlock();
        return offset, false;
      }
      if desiredOffset < 0 {
        mutex.Unlock();
        return 0, false;
      }
      offset := desiredOffset;
      mutex.Unlock();
      return offset, true;
    }
  }

  /** What a successful write stored is what a successful read of the same range returns. */
  lemma ReadAfterWrite(d0: seq<byte>, d1: seq<byte>, off: nat, p: seq<byte>, q0: seq<byte>, q1: seq<byte>, n: nat, m: nat)
    requires WriteOutcome(d0, d1, off, p, n, NoError)
    requires ReadOutcome(d1, off, q0, q1, m, NoError) && |q0| == |p|
    ensures q1 == p
    ensures m == ReadCount(off, |p|)
  {
    assert p[..n] == p;
    SpliceAll(q0, d1[off..off + |p|]);
  }

  /** Two writes, each of which may have stopped at any device call: every byte holds what the
      later write stored there, else what the earlier one stored, else what it held before. */
  lemma LaterWriteWins(d0: seq<byte>, d1: seq<byte>, d2: seq<byte>, o1: nat, p1: seq<byte>, n1: nat, e1: IoError,
                       o2: nat, p2: seq<byte>, n2: nat, e2: IoError, i: nat)
    requires WriteOutcome(d0, d1, o1, p1, n1, e1) && WriteOutcome(d1, d2, o2, p2, n2, e2)
    requires i < |d0|
    ensures |d2| == |d0|
    ensures d2[i] ==
      if o2 <= i < o2 + n2 then p2[i - o2]
      else if o1 <= i < o1 + n1 then p1[i - o1]
      else d0[i]
  {
  }

  /** Writes whose byte ranges are disjoint reach the same disk in either order, whichever device
      calls failed and even when the ranges share a sector. */
  lemma DisjointWritesCommute(d0: seq<byte>, a1: seq<byte>, a2: seq<byte>, b1: seq<byte>, b2: seq<byte>,
                              o1: nat, p1: seq<byte>, n1: nat, o2: nat, p2: seq<byte>, n2: nat,
                              e1: IoError, e2: IoError, f1: IoError, f2: IoError)
    requires WriteOutcome(d0, a1, o1, p1, n1, e1) && WriteOutcome(a1, a2, o2, p2, n2, e2)
    requires WriteOutcome(d0, b1, o2, p2, n2, f2) && WriteOutcome(b1, b2, o1, p1, n1, f1)
    requires o1 + |p1| <= o2 || o2 + |p2| <= o1
    ensures a2 == b2
  {
    if o1 + |p1| <= |d0| && o2 + |p2| <= |d0| {
      SpliceCommutes(d0, o1, p1[..n1], o2, p2[..n2]);
    }
  }

  predicate IsInt64(x: int) {
    -0x8000_0000_0000_0000 <= x < 0x8000_0000_0000_0000
  }

  /** The int64 arithmetic of `Capacity`, `ReadAt` and `WriteAt` is exact on a disk of fewer than
      2^53 sectors with buffers of at most 2^31 bytes; the capacity alone is exact below 2^54. */
  lemma ArithmeticFits(sectors: nat, len: nat, off: nat)
    requires off < sectors * SECTOR && len <= 0x8000_0000
    ensures IsInt64(sectors * SECTOR) <==> sectors < 0x40_0000_0000_0000
    ensures sectors < 0x20_0000_0000_0000 ==>
      IsInt64(off + len) && ClampLen(len, off, sectors * SECTOR) == Min(len, sectors * SECTOR - off)
  {
  }
}
