/** `DiskConnectHandle`: byte-addressed reads and writes over a sector device. */
module DiskHandle {
  import opened Bytes
  import opened Layout
  import opened Device

  datatype IoError = NoError | EOF | ShortWrite | Vddk(code: nat) | Wrapped(code: nat)

  function MapError(code: nat): (err: IoError)
    ensures code == 16007 ==> err == EOF
    ensures code != 16007 ==> err == Vddk(code)
  {
    if code == VIX_E_DISK_OUTOFRANGE then EOF else Vddk(code)
  }

  /** Go's conversion of an int64 to int32. */
  function ToInt32(x: int): int {
    (x + 0x8000_0000) % 0x1_0000_0000 - 0x8000_0000
  }

  /** The length `ReadAt` slices its buffer down to. A negative result makes the slice
      expression panic. */
  function ClampLen(len: nat, off: nat, capacity: nat): int
    requires off < capacity
  {
    if off + len > capacity then ToInt32(capacity - off) else len
  }

  /** The clamped length is the part of the range inside the disk exactly when no clamping is
      needed or what is left of the disk fits 31 bits. */
  lemma ClampExact(len: nat, off: nat, capacity: nat)
    requires off < capacity
    ensures ClampLen(len, off, capacity) == Min(len, capacity - off)
      <==> off + len <= capacity || capacity - off < 0x8000_0000
    ensures ClampLen(len, off, capacity) <= Min(len, capacity - off)
  {
  }

  /** A transfer stops between pieces: before the head, after it, or before the tail. */
  ghost predicate Boundary(off: nat, len: nat, n: nat) {
    n == 0 || n == HeadLen(off, len) || n == BodyLen(off, len)
  }

  /** What one `ReadAt` does: `d` is the disk, `p0` and `p1` the buffer before and after. */
  ghost predicate ReadOutcome(d: seq<byte>, off: nat, p0: seq<byte>, p1: seq<byte>, n: nat, err: IoError) {
    if off >= |d| then n == 0 && err == EOF && p1 == p0
    else
      var len := ClampLen(|p0|, off, |d|);
      && 0 <= len <= |p0| && off + len <= |d|
      && !err.ShortWrite? && !err.Wrapped?
      && (err == NoError ==> n == ReadCount(off, len) && p1 == Splice(p0, 0, d[off..off + len]))
      && (err != NoError ==> Boundary(off, len, n) && n <= len && (n < len || len == 0) && p1 == Splice(p0, 0, d[off..off + n]))
  }

  /** What one `WriteAt` does: `d0` and `d1` are the disk before and after. */
  ghost predicate WriteOutcome(d0: seq<byte>, d1: seq<byte>, off: nat, p: seq<byte>, n: nat, err: IoError) {
    if off + |p| > |d0| then n == 0 && err == ShortWrite && d1 == d0
    else
      && !err.ShortWrite?
      && n <= |p| && d1 == Splice(d0, off, p[..n])
      && (err == NoError ==> n == |p|)
      && (err != NoError ==> Boundary(off, |p|, n) && (n < |p| || |p| == 0))
      && (err.Wrapped? ==> n == BodyLen(off, |p|))
  }

  /** The error of a failed `WriteAt` for the library's `code`: only a failed write-back of the tail
      is wrapped instead of mapped. */
  ghost predicate WriteError(off: nat, len: nat, n: nat, trace: seq<Request>, code: nat, err: IoError) {
    && trace != []
    && err == if n == BodyLen(off, len) < len && trace[|trace| - 1].write then Wrapped(code) else MapError(code)
  }

  /** Where the aligned middle lies and what it asks of the device. */
  lemma MiddlePlace(write: bool, off: nat, len: nat, head: nat, start: nat, sectors: int, capacity: nat)
    requires off + len <= capacity * SECTOR && head == HeadLen(off, len) && start == FirstWhole(off) && sectors == (len - head) / SECTOR
    ensures sectors == MidSectors(off, len) && 0 <= sectors && head <= head + sectors * SECTOR == BodyLen(off, len) <= len
    ensures sectors > 0 ==> start * SECTOR == off + head && start + sectors <= capacity && (start + sectors) * SECTOR == off + BodyLen(off, len)
    ensures Requests(write, MidPieces(off, len)) == if sectors > 0 then [Request(write, start, sectors)] else []
  {
    MidRequests(write, off, len);
    PartLengths(off, len);
    hide HeadLen, FirstWhole, Requests, MidPieces;
    if sectors > 0 {
      assert (start + sectors) * SECTOR == off + head + sectors * SECTOR;
    }
  }

  /** Where the tail lies and what it asks of the device. */
  lemma TailPlace(write: bool, off: nat, len: nat, total: nat, start: nat, capacity: nat)
    requires off + len <= capacity * SECTOR && total == BodyLen(off, len) && start == FirstWhole(off) + MidSectors(off, len)
    ensures total <= len < total + SECTOR
    ensures len > total ==> start < capacity && start * SECTOR == off + total
    ensures Requests(write, TailPieces(off, len)) == if len > total then PartialRequests(write, start) else []
  {
    TailRequests(write, off, len);
    hide BodyLen, FirstWhole, MidSectors, Requests, PartialRequests;
    PartLengths(off, len);
  }

  /** Go's built-in copy between two buffers. */
  method Copy(dst: array<byte>, at: nat, src: array<byte>, from: nat, n: nat)
    requires dst != src && at + n <= dst.Length && from + n <= src.Length
    modifies dst
    ensures dst[..] == Splice(old(dst[..]), at, src[from..from + n])
  {
    forall i | 0 <= i < n {
      dst[at + i] := src[from + i];
    }
  }

  class DiskConnectHandle {
    const dev: SectorDevice
    const mutex: Mutex

    ghost predicate Valid()
      reads dev
    {
      dev.Valid()
    }

    constructor (dev: SectorDevice)
      requires dev.Valid()
      ensures Valid() && this.dev == dev && fresh(mutex) && !mutex.held
    {
      this.dev := dev;
      this.mutex := new Mutex();
    }

    function Capacity(): nat {
      dev.capacity * SECTOR
    }

    method ReadAt(p: array<byte>, off: nat) returns (n: nat, err: IoError)
      requires Valid() && !mutex.held
      requires off < Capacity() ==> ClampLen(p.Length, off, Capacity()) >= 0
      modifies p, mutex, dev`trace, dev`faults, dev`lastFault
      ensures !mutex.held
      ensures mutex.taken == old(mutex.taken)
        + if off < Capacity() && (off % 512 != 0 || ClampLen(p.Length, off, Capacity()) % 512 != 0) then 1 else 0
      ensures ReadOutcome(dev.store, off, old(p[..]), p[..], n, err)
      ensures off >= Capacity() ==> dev.trace == old(dev.trace) && dev.faults == old(dev.faults)
      ensures off < Capacity() ==> dev.faults == old(dev.faults) + if err == NoError then 0 else 1
      ensures off < Capacity() && err != NoError ==>
        && (err == EOF <==> dev.lastFault == 16007)
        && (err != EOF ==> err == Vddk(dev.lastFault))
      ensures off < Capacity() ==>
        Asked(old(dev.trace), dev.trace, Requests(false, Pieces(off, ClampLen(p.Length, off, Capacity()))), err == NoError)
    {
      hide Splice, Pieces, ReadCount, Boundary, Requests, Asked, ClampLen;
      var capacity := Capacity();
      if off >= capacity {
        return 0, EOF;
      }
      var len := ClampLen(p.Length, off, capacity);
      ClampExact(p.Length, off, capacity);
      if !Aligned(len, off) {
        mutex.Lock();
      }
      n, err := ReadPieces(p, len, off);
      if !Aligned(len, off) {
        mutex.Unlock();
      }
    }

    /** Reads one sector into a temporary buffer and copies part of it, the disk's bytes from
        `pos` on. */
    method ReadSector(startSector: nat, x: nat, p: array<byte>, at: nat, count: nat, ghost pos: nat)
      returns (code: nat)
      requires Valid() && startSector < dev.capacity && pos == startSector * SECTOR + x
      requires x + count <= SECTOR && at + count <= p.Length
      modifies p, dev`trace, dev`faults, dev`lastFault
      ensures dev.trace == old(dev.trace) + [Request(false, startSector, 1)]
      ensures dev.faults == old(dev.faults) + if code == VIX_OK then 0 else 1
      ensures code != VIX_OK ==> dev.lastFault == code
      ensures p[..] == if code == VIX_OK
        then Splice(old(p[..]), at, dev.store[pos..pos + count])
        else old(p[..])
    {
      hide Splice, Sectors;
      var tmpBuf := new byte[SECTOR];
      ghost var t0, b0 := tmpBuf[..], p[..];
      code := dev.Read(startSector, 1, tmpBuf, 0);
      if code == VIX_OK {
        ghost var sector := Sectors(dev.store, startSector, 1);
        SpliceAll(t0, sector);
        assert tmpBuf[..] == Splice(t0, 0, sector);
        assert tmpBuf[..][x..x + count] == tmpBuf[x..x + count];
        assert tmpBuf[x..x + count] == sector[x..x + count];
        SectorSlice(dev.store, startSector, x, count, pos);
        assert p[..] == b0;
        Copy(p, at, tmpBuf, x, count);
      }
    }

    /** The misaligned head of a read. */
    method ReadHead(p: array<byte>, len: nat, off: nat) returns (total: nat, code: nat)
      requires Valid() && len <= p.Length && off + len <= Capacity() && off < Capacity()
      modifies p, dev`trace, dev`faults, dev`lastFault
      ensures total == if code == VIX_OK then HeadLen(off, len) else 0
      ensures code != VIX_OK ==> off % SECTOR != 0
      ensures p[..] == if code == VIX_OK
        then Splice(old(p[..]), 0, dev.store[off..off + HeadLen(off, len)])
        else old(p[..])
      ensures dev.faults == old(dev.faults) + if code == VIX_OK then 0 else 1
      ensures code != VIX_OK ==> dev.lastFault == code
      ensures Asked(old(dev.trace), dev.trace, Requests(false, HeadPieces(off, len)), code == VIX_OK)
    {
      HeadRequests(false, off, len);
      AskedNothing(dev.trace);
      SpliceNothing(p[..], 0);
      hide Splice, Requests, HeadPieces, Asked;
      total, code := 0, VIX_OK;
      assert HeadLen(off, len) == 0 ==> dev.store[off..off + HeadLen(off, len)] == [];
      if off % SECTOR != 0 {
        var srcOff := off % SECTOR;
        var count := SECTOR - srcOff;
        if count > len {
          count := len;
        }
        ghost var trace := dev.trace;
        ghost var b0, d0 := p[..], dev.store;
        ghost var bytes := d0[off..off + HeadLen(off, len)];
        assert count == HeadLen(off, len);
        code := ReadSector(off / SECTOR, srcOff, p, 0, count, off);
        assert dev.store == d0 && d0[off..off + count] == bytes;
        assert code == VIX_OK ==> p[..] == Splice(b0, 0, bytes);
        AskedOne(trace, dev.trace, Request(false, off / SECTOR, 1), code == VIX_OK);
        if code == VIX_OK {
          total := total + count;
        }
      }
    }

    /** The aligned middle of a read, transferred straight into the caller's buffer. */
    method ReadMiddle(p: array<byte>, len: nat, off: nat, startSector: nat, head: nat) returns (total: nat, code: nat)
      requires Valid() && len <= p.Length && off + len <= Capacity()
      requires head == HeadLen(off, len) && startSector == FirstWhole(off)
      modifies p, dev`trace, dev`faults, dev`lastFault
      ensures head <= total <= len
      ensures total == if code == VIX_OK then BodyLen(off, len) else head
      ensures code != VIX_OK ==> head < len
      ensures p[..] == if code == VIX_OK
        then Splice(old(p[..]), head, dev.store[off + head..off + total])
        else old(p[..])
      ensures dev.faults == old(dev.faults) + if code == VIX_OK then 0 else 1
      ensures code != VIX_OK ==> dev.lastFault == code
      ensures Asked(old(dev.trace), dev.trace, Requests(false, MidPieces(off, len)), code == VIX_OK)
    {
      hide HeadLen, MidSectors, BodyLen, FirstWhole, MidPieces, Splice, Requests, Asked, Sectors;
      var numAlignedSectors := (len - head) / SECTOR;
      MiddlePlace(false, off, len, head, startSector, numAlignedSectors, dev.capacity);
      AskedNothing(dev.trace);
      total, code := head, VIX_OK;
      if numAlignedSectors > 0 {
        ghost var b0, d0, trace := p[..], dev.store, dev.trace;
        ghost var end := head + numAlignedSectors * SECTOR;
        SectorBytes(d0, startSector, numAlignedSectors, off + head, off + end);
        code := dev.Read(startSector, numAlignedSectors, p, total);
        assert dev.store == d0;
        assert code == VIX_OK ==> p[..] == Splice(b0, head, d0[off + head..off + end]);
        AskedOne(trace, dev.trace, Request(false, startSector, numAlignedSectors), code == VIX_OK);
        if code == VIX_OK {
          total := total + numAlignedSectors * SECTOR;
        }
      } else {
        assert dev.store[off + head..off + total] == [];
        SpliceNothing(p[..], head);
      }
    }

    /** The misaligned tail of a read. Its bytes are copied and never added to `total`. */
    method ReadTail(p: array<byte>, len: nat, off: nat, total: nat, startSector: nat) returns (code: nat)
      requires Valid() && len <= p.Length && off + len <= Capacity()
      requires total == BodyLen(off, len) && startSector == FirstWhole(off) + MidSectors(off, len)
      modifies p, dev`trace, dev`faults, dev`lastFault
      ensures p[..] == if code == VIX_OK
        then Splice(old(p[..]), total, dev.store[off + total..off + len])
        else old(p[..])
      ensures code != VIX_OK ==> total < len
      ensures dev.faults == old(dev.faults) + if code == VIX_OK then 0 else 1
      ensures code != VIX_OK ==> dev.lastFault == code
      ensures Asked(old(dev.trace), dev.trace, Requests(false, TailPieces(off, len)), code == VIX_OK)
    {
      hide HeadLen, BodyLen, MidSectors, FirstWhole, TailPieces, Splice, Requests, Asked, Sectors;
      TailPlace(false, off, len, total, startSector, dev.capacity);
      code := VIX_OK;
      if len - total > 0 {
        ghost var b0, d0, trace := p[..], dev.store, dev.trace;
        var count := len - total;
        assert off + total + count == off + len;
        code := ReadSector(startSector, 0, p, total, count, off + total);
        assert dev.store == d0;
        assert code == VIX_OK ==> p[..] == Splice(b0, total, d0[off + total..off + len]);
        AskedOne(trace, dev.trace, Request(false, startSector, 1), code == VIX_OK);
      } else {
        AskedNothing(dev.trace);
        assert dev.store[off + total..off + len] == [];
        SpliceNothing(p[..], total);
      }
    }

    /** The body of `ReadAt` between taking and releasing the mutex. */
    method ReadPieces(p: array<byte>, len: nat, off: nat) returns (n: nat, err: IoError)
      requires Valid() && (Aligned(len, off) || mutex.held)
      requires len <= p.Length && off + len <= Capacity() && off < Capacity()
      modifies p, dev`trace, dev`faults, dev`lastFault
      ensures !err.ShortWrite? && !err.Wrapped?
      ensures err == NoError ==> n == ReadCount(off, len) && p[..] == Splice(old(p[..]), 0, dev.store[off..off + len])
      ensures err != NoError ==>
        && Boundary(off, len, n) && n <= len && (n < len || len == 0)
        && p[..] == Splice(old(p[..]), 0, dev.store[off..off + n])
      ensures dev.faults == old(dev.faults) + if err == NoError then 0 else 1
      ensures err != NoError ==>
        && (err == EOF <==> dev.lastFault == 16007)
        && (err != EOF ==> err == Vddk(dev.lastFault))
      ensures Asked(old(dev.trace), dev.trace, Requests(false, Pieces(off, len)), err == NoError)
    {
      RequestParts(false, off, len);
      PartLengths(off, len);
      hide HeadLen, MidSectors, BodyLen, Pieces, HeadPieces, MidPieces, TailPieces, Splice, Requests, Asked;
      ghost var h, m, t := Requests(false, HeadPieces(off, len)), Requests(false, MidPieces(off, len)), Requests(false, TailPieces(off, len));
      ghost var p0, t0 := p[..], dev.trace;
      var code;
      n, code := ReadHead(p, len, off);
      if code != VIX_OK {
        assert dev.store[off..off + n] == [];
        SpliceNothing(p0, 0);
        AskedNoMore(t0, dev.trace, h, m);
        AskedNoMore(t0, dev.trace, h + m, t);
        return 0, MapError(code);
      }
      ghost var p1, t1 := p[..], dev.trace;
      n, code := ReadMiddle(p, len, off, FirstWhole(off), n);
      ghost var p2, t2 := p[..], dev.trace;
      AskedThen(t0, t1, t2, h, m, code == VIX_OK);
      if code != VIX_OK {
        AskedNoMore(t0, t2, h + m, t);
        return n, MapError(code);
      }
      FillExtends(p0, p1, p2, dev.store, off, HeadLen(off, len), n);
      code := ReadTail(p, len, off, n, FirstWhole(off) + MidSectors(off, len));
      AskedThen(t0, t2, dev.trace, h + m, t, code == VIX_OK);
      if code != VIX_OK {
        return n, MapError(code);
      }
      FillExtends(p0, p2, p[..], dev.store, off, n, len);
      return n, NoError;
    }

    method WriteAt(p: array<byte>, off: nat) returns (n: nat, err: IoError)
      requires Valid() && !mutex.held
      modifies mutex, dev
      ensures Valid() && !mutex.held
      ensures mutex.taken == old(mutex.taken)
        + if off + p.Length <= Capacity() && (off % 512 != 0 || p.Length % 512 != 0) then 1 else 0
      ensures WriteOutcome(old(dev.store), dev.store, off, p[..], n, err)
      ensures err == ShortWrite ==> dev.trace == old(dev.trace) && dev.faults == old(dev.faults)
      ensures err != ShortWrite ==>
        && dev.faults == old(dev.faults) + (if err == NoError then 0 else 1)
        && (err != NoError ==> dev.trace != [])
        && (err != NoError && n == BodyLen(off, p.Length) < p.Length && dev.trace[|dev.trace| - 1].write ==>
              err == Wrapped(dev.lastFault))
        && (err != NoError && !(n == BodyLen(off, p.Length) < p.Length && dev.trace[|dev.trace| - 1].write) ==>
              (err == EOF <==> dev.lastFault == 16007) && (err != EOF ==> err == Vddk(dev.lastFault)))
        && Asked(old(dev.trace), dev.trace, Requests(true, Pieces(off, p.Length)), err == NoError)
    {
      var capacity := Capacity();
      if off > capacity || off + p.Length > capacity {
        return 0, ShortWrite;
      }
      if !Aligned(p.Length, off) {
        mutex.Lock();
      }
      n, err := WritePieces(p, off);
      if !Aligned(p.Length, off) {
        mutex.Unlock();
      }
    }

    /** Read, modify, write: patches part of one sector. */
    method PatchSector(startSector: nat, x: nat, p: array<byte>, from: nat, count: nat, ghost pos: nat)
      returns (code: nat, read: bool)
      requires Valid() && startSector < dev.capacity && mutex.held && pos == startSector * SECTOR + x
      requires x + count <= SECTOR && from + count <= p.Length && count < SECTOR
      modifies dev
      ensures Valid()
      ensures dev.store == if code == VIX_OK
        then Splice(old(dev.store), pos, p[from..from + count])
        else old(dev.store)
      ensures code == VIX_OK ==> read
      ensures dev.trace != [] && (dev.trace[|dev.trace| - 1].write <==> read)
      ensures dev.faults == old(dev.faults) + if code == VIX_OK then 0 else 1
      ensures code != VIX_OK ==> dev.lastFault == code
      ensures Asked(old(dev.trace), dev.trace, PartialRequests(true, startSector), code == VIX_OK)
    {
      hide Asked;
      hide Splice;
      var tmpBuf := new byte[SECTOR];
      ghost var t0 := tmpBuf[..];
      ghost var trace := dev.trace;
      code := dev.Read(startSector, 1, tmpBuf, 0);
      read := code == VIX_OK;
      if read {
        SpliceAll(t0, Sectors(dev.store, startSector, 1));
        Copy(tmpBuf, x, p, from, count);
        PatchWindow(dev.store, startSector * SECTOR, SECTOR, x, p[from..from + count]);
        assert tmpBuf[0..SECTOR] == tmpBuf[..];
        code := dev.Write(startSector, 1, tmpBuf, 0);
      }
      AskedPatch(trace, dev.trace, startSector, read, code == VIX_OK);
    }

    method WriteHead(p: array<byte>, off: nat) returns (total: nat, code: nat)
      requires Valid() && off + p.Length <= Capacity() && (Aligned(p.Length, off) || mutex.held)
      modifies dev
      ensures Valid()
      ensures total == if code == VIX_OK then HeadLen(off, p.Length) else 0
      ensures code != VIX_OK ==> off % SECTOR != 0
      ensures dev.store == Splice(old(dev.store), off, p[..total])
      ensures dev.faults == old(dev.faults) + if code == VIX_OK then 0 else 1
      ensures code != VIX_OK ==> dev.lastFault == code
      ensures Asked(old(dev.trace), dev.trace, Requests(true, HeadPieces(off, p.Length)), code == VIX_OK)
    {
      HeadRequests(true, off, p.Length);
      AskedNothing(dev.trace);
      SpliceNothing(dev.store, off);
      hide Splice, Requests, HeadPieces, Asked;
      total, code := 0, VIX_OK;
      assert p[..0] == [];
      if off % SECTOR != 0 {
        var desOff := off % SECTOR;
        var count := SECTOR - desOff;
        if p.Length < count {
          count := p.Length;
        }
        var read;
        code, read := PatchSector(off / SECTOR, desOff, p, 0, count, off);
        if code == VIX_OK {
          total := total + count;
        }
      }
    }

    /** The aligned middle of a write goes to the device without being read first. */
    method WriteMiddle(p: array<byte>, off: nat, startSector: nat, head: nat) returns (total: nat, code: nat)
      requires Valid() && off + p.Length <= Capacity()
      requires head == HeadLen(off, p.Length) && startSector == FirstWhole(off)
      modifies dev
      ensures Valid()
      ensures head <= total <= p.Length
      ensures total == if code == VIX_OK then BodyLen(off, p.Length) else head
      ensures code != VIX_OK ==> head < BodyLen(off, p.Length) <= p.Length
      ensures dev.store == if code == VIX_OK then Splice(old(dev.store), off + head, p[head..total]) else old(dev.store)
      ensures dev.faults == old(dev.faults) + if code == VIX_OK then 0 else 1
      ensures code != VIX_OK ==> dev.lastFault == code
      ensures Asked(old(dev.trace), dev.trace, Requests(true, MidPieces(off, p.Length)), code == VIX_OK)
    {
      hide HeadLen, MidSectors, BodyLen, FirstWhole, MidPieces, Splice, Requests, Asked;
      var numSector := (p.Length - head) / SECTOR;
      MiddlePlace(true, off, p.Length, head, startSector, numSector, dev.capacity);
      AskedNothing(dev.trace);
      total, code := head, VIX_OK;
      if numSector > 0 {
        ghost var d0, trace := dev.store, dev.trace;
        code := dev.Write(startSector, numSector, p, total);
        assert code == VIX_OK ==> dev.store == Splice(d0, off + head, p[head..head + numSector * SECTOR]);
        AskedOne(trace, dev.trace, Request(true, startSector, numSector), code == VIX_OK);
        if code == VIX_OK {
          total := total + numSector * SECTOR;
        }
      } else {
        assert p[head..total] == [];
        SpliceNothing(dev.store, off + head);
      }
    }

    method WriteTail(p: array<byte>, off: nat) returns (err: IoError)
      requires Valid() && off + p.Length <= Capacity() && (Aligned(p.Length, off) || mutex.held)
      modifies dev
      ensures Valid()
      ensures dev.store == if err == NoError
        then Splice(old(dev.store), off + BodyLen(off, p.Length), p[BodyLen(off, p.Length)..p.Length])
        else old(dev.store)
      ensures !err.ShortWrite?
      ensures err != NoError ==> BodyLen(off, p.Length) < p.Length
      ensures dev.faults == old(dev.faults) + if err == NoError then 0 else 1
      ensures err != NoError ==> WriteError(off, p.Length, BodyLen(off, p.Length), dev.trace, dev.lastFault, err)
      ensures Asked(old(dev.trace), dev.trace, Requests(true, TailPieces(off, p.Length)), err == NoError)
    {
      hide HeadLen, BodyLen, MidSectors, FirstWhole, TailPieces, Splice, Requests, Asked, PartialRequests;
      var total := BodyLen(off, p.Length);
      var startSector := FirstWhole(off) + MidSectors(off, p.Length);
      TailPlace(true, off, p.Length, total, startSector, dev.capacity);
      err := NoError;
      var count := p.Length - total;
      if count > 0 {
        assert total + count == p.Length;
        var code, read := PatchSector(startSector, 0, p, total, count, off + total);
        if code != VIX_OK {
          err := if read then Wrapped(code) else MapError(code);
        }
      } else {
        AskedNothing(dev.trace);
        assert p[total..p.Length] == [];
        SpliceNothing(dev.store, off + total);
      }
    }

    /** Head and middle of a write. */
    method WriteBody(p: array<byte>, off: nat) returns (n: nat, code: nat)
      requires Valid() && off + p.Length <= Capacity() && (Aligned(p.Length, off) || mutex.held)
      modifies dev
      ensures Valid()
      ensures Boundary(off, p.Length, n) && n <= p.Length
      ensures code == VIX_OK ==> n == BodyLen(off, p.Length)
      ensures code != VIX_OK ==> (n < BodyLen(off, p.Length) <= p.Length || p.Length == 0) && dev.trace != []
      ensures dev.store == Splice(old(dev.store), off, p[..][..n])
      ensures dev.faults == old(dev.faults) + if code == VIX_OK then 0 else 1
      ensures code != VIX_OK ==> dev.lastFault == code
      ensures Asked(old(dev.trace), dev.trace,
                    Requests(true, HeadPieces(off, p.Length)) + Requests(true, MidPieces(off, p.Length)), code == VIX_OK)
    {
      PartLengths(off, p.Length);
      hide HeadLen, MidSectors, BodyLen, HeadPieces, MidPieces, Splice, Requests, Asked;
      ghost var h, m := Requests(true, HeadPieces(off, p.Length)), Requests(true, MidPieces(off, p.Length));
      ghost var d0, t0 := dev.store, dev.trace;
      n, code := WriteHead(p, off);
      if code != VIX_OK {
        AskedNoMore(t0, dev.trace, h, m);
        assert p[..][..n] == p[..n];
        return;
      }
      ghost var t1 := dev.trace;
      ghost var head := n;
      n, code := WriteMiddle(p, off, FirstWhole(off), n);
      assert p[..][..head] == p[..head] && p[..][head..n] == p[head..n];
      SpliceExtends(d0, off, p[..], head, n);
      AskedThen(t0, t1, dev.trace, h, m, code == VIX_OK);
    }

    /** The body of `WriteAt` between taking and releasing the mutex. */
    method WritePieces(p: array<byte>, off: nat) returns (n: nat, err: IoError)
      requires Valid() && off + p.Length <= Capacity() && (Aligned(p.Length, off) || mutex.held)
      modifies dev
      ensures Valid()
      ensures WriteOutcome(old(dev.store), dev.store, off, p[..], n, err) && err != ShortWrite
      ensures dev.faults == old(dev.faults) + if err == NoError then 0 else 1
      ensures err != NoError ==> WriteError(off, p.Length, n, dev.trace, dev.lastFault, err)
      ensures err != NoError ==> err == Wrapped(dev.lastFault) || err == (if dev.lastFault == 16007 then EOF else Vddk(dev.lastFault))
      ensures Asked(old(dev.trace), dev.trace, Requests(true, Pieces(off, p.Length)), err == NoError)
    {
      RequestParts(true, off, p.Length);
      hide HeadLen, BodyLen, Pieces, HeadPieces, MidPieces, TailPieces, Splice, Requests, Asked;
      ghost var hm := Requests(true, HeadPieces(off, p.Length)) + Requests(true, MidPieces(off, p.Length));
      ghost var t := Requests(true, TailPieces(off, p.Length));
      ghost var d0, t0 := dev.store, dev.trace;
      var code;
      n, code := WriteBody(p, off);
      if code != VIX_OK {
        AskedNoMore(t0, dev.trace, hm, t);
        return n, MapError(code);
      }
      ghost var t1 := dev.trace;
      err := WriteTail(p, off);
      AskedThen(t0, t1, dev.trace, hm, t, err == NoError);
      if err == NoError {
        assert p[..][n..p.Length] == p[n..p.Length] && p[..][..p.Length] == p[..];
        SpliceExtends(d0, off, p[..], n, p.Length);
        n := p.Length;
      }
    }
  }
}
