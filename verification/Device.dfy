/** The disk library seen through its handle: whole-sector transfers that either act exactly
    or fail and change nothing. */
module Device {
  import opened Bytes
  import opened Layout

  const VIX_OK: nat := 0
  const VIX_E_DISK_OUTOFRANGE: nat := 16007

  /** One call of the disk library, as the library sees it. */
  datatype Request = Request(write: bool, start: nat, num: nat)

  /** The contents of sectors [start, start + num). */
  function Sectors(store: seq<byte>, start: nat, num: nat): (r: seq<byte>)
    requires (start + num) * SECTOR <= |store|
    ensures |r| == num * SECTOR
  {
    store[start * SECTOR..(start + num) * SECTOR]
  }

  lemma SectorBytes(store: seq<byte>, start: nat, num: nat, a: nat, b: nat)
    requires (start + num) * SECTOR <= |store| && a == start * SECTOR && b == (start + num) * SECTOR
    ensures Sectors(store, start, num) == store[a..b]
  {
  }

  lemma SectorSlice(store: seq<byte>, start: nat, x: nat, count: nat, pos: nat)
    requires (start + 1) * SECTOR <= |store| && x + count <= SECTOR && pos == start * SECTOR + x
    ensures Sectors(store, start, 1)[x..x + count] == store[pos..pos + count]
  {
    SliceOfSlice(store, start * SECTOR, (start + 1) * SECTOR, x, x + count);
  }

  class SectorDevice {
    const capacity: nat
    var store: seq<byte>
    /** Every request made so far, in order, how many of them failed, and the code of the last one that did. */
    ghost var trace: seq<Request>
    ghost var faults: nat
    ghost var lastFault: nat

    ghost predicate Valid()
      reads this
    {
      |store| == capacity * SECTOR
    }

    constructor (capacity: nat, store: seq<byte>)
      requires |store| == capacity * SECTOR
      ensures Valid() && this.capacity == capacity && this.store == store
      ensures trace == [] && faults == 0
    {
      this.capacity := capacity;
      this.store := store;
      trace := [];
      faults, lastFault := 0, VIX_OK;
    }

    /** An empty request and one past the end of the disk are answered with an error. */
    predicate Serves(start: nat, num: nat) {
      0 < num && start + num <= capacity
    }

    method Read(start: nat, num: nat, buf: array<byte>, from: nat) returns (code: nat)
      requires Valid() && from + num * SECTOR <= buf.Length
      modifies this`trace, this`faults, this`lastFault, buf
      ensures trace == old(trace) + [Request(false, start, num)]
      ensures faults == old(faults) + if code == VIX_OK then 0 else 1
      ensures code != VIX_OK ==> lastFault == code
      ensures code == VIX_OK ==> Serves(start, num)
      ensures code == VIX_OK ==> buf[..] == Splice(old(buf[..]), from, Sectors(store, start, num))
      ensures code != VIX_OK ==> buf[..] == old(buf[..])
    {
      trace := trace + [Request(false, start, num)];
      var fails := *;
      if fails || !Serves(start, num) {
        faults := faults + 1;
        var failure: int := *;
        code := if failure > VIX_OK then failure else 1;
        lastFault := code;
      } else {
        forall i | 0 <= i < num * SECTOR {
          buf[from + i] := store[start * SECTOR + i];
        }
        code := VIX_OK;
      }
    }

    method Write(start: nat, num: nat, buf: array<byte>, from: nat) returns (code: nat)
      requires Valid() && from + num * SECTOR <= buf.Length
      modifies this
      ensures Valid()
      ensures trace == old(trace) + [Request(true, start, num)]
      ensures faults == old(faults) + if code == VIX_OK then 0 else 1
      ensures code != VIX_OK ==> lastFault == code
      ensures code == VIX_OK ==> Serves(start, num)
      ensures code == VIX_OK ==> store == Splice(old(store), start * SECTOR, buf[from..from + num * SECTOR])
      ensures code != VIX_OK ==> store == old(store)
    {
      trace := trace + [Request(true, start, num)];
      var fails := *;
      if fails || !Serves(start, num) {
        faults := faults + 1;
        var failure: int := *;
        code := if failure > VIX_OK then failure else 1;
        lastFault := code;
      } else {
        store := Splice(store, start * SECTOR, buf[from..from + num * SECTOR]);
        code := VIX_OK;
      }
    }
  }

  /** A mutex. A caller that locks it while it is held waits forever, so `Lock` asks that it is free. */
  class Mutex {
    var held: bool
    /** How often it has been taken. */
    ghost var taken: nat

    constructor ()
      ensures !held && taken == 0
    {
      held := false;
      taken := 0;
    }

    method Lock()
      requires !held
      modifies this
      ensures held && taken == old(taken) + 1
    {
      held := true;
      taken := taken + 1;
    }

    method Unlock()
      requires held
      modifies this
      ensures !held && taken == old(taken)
    {
      held := false;
    }
  }

  /** What the pieces of a transfer ask of the device: a partial piece of a write is read,
      patched and written back. */
  function Requests(write: bool, ps: seq<Piece>): seq<Request> {
    if ps == [] then []
    else
      var p := ps[0];
      (if write && p.Partial() then [Request(false, p.start, p.num)] else [])
      + [Request(write, p.start, p.num)]
      + Requests(write, ps[1..])
  }

  lemma {:induction false} RequestsConcat(write: bool, ps: seq<Piece>, qs: seq<Piece>)
    ensures Requests(write, ps + qs) == Requests(write, ps) + Requests(write, qs)
  {
    if ps == [] {
      assert ps + qs == qs;
    } else {
      assert (ps + qs)[1..] == ps[1..] + qs;
      RequestsConcat(write, ps[1..], qs);
    }
  }

  /** A transfer made the requests `reqs` if it succeeded, and otherwise stopped at one of them. */
  ghost predicate Asked(before: seq<Request>, after: seq<Request>, reqs: seq<Request>, ok: bool) {
    if ok then after == before + reqs else before < after <= before + reqs
  }

  /** A part that made all its requests, followed by one that may have stopped. */
  lemma AskedThen(t0: seq<Request>, t1: seq<Request>, t2: seq<Request>, r1: seq<Request>, r2: seq<Request>, ok: bool)
    requires Asked(t0, t1, r1, true) && Asked(t1, t2, r2, ok)
    ensures Asked(t0, t2, r1 + r2, ok)
  {
    assert t0 + (r1 + r2) == t1 + r2;
  }

  /** A part that stopped, whatever parts would have followed. */
  lemma AskedNoMore(t0: seq<Request>, t1: seq<Request>, r1: seq<Request>, r2: seq<Request>)
    requires Asked(t0, t1, r1, false)
    ensures Asked(t0, t1, r1 + r2, false)
  {
    assert t0 + (r1 + r2) == t0 + r1 + r2;
  }

  /** The requests of a transfer, part by part. */
  lemma RequestParts(write: bool, off: nat, len: nat)
    ensures Requests(write, Pieces(off, len)) ==
      Requests(write, HeadPieces(off, len)) + Requests(write, MidPieces(off, len)) + Requests(write, TailPieces(off, len))
  {
    RequestsConcat(write, HeadPieces(off, len), MidPieces(off, len));
    RequestsConcat(write, HeadPieces(off, len) + MidPieces(off, len), TailPieces(off, len));
  }

  /** What a transfer asks for one sector it only uses part of. */
  function PartialRequests(write: bool, start: nat): seq<Request> {
    if write then [Request(false, start, 1), Request(true, start, 1)] else [Request(false, start, 1)]
  }

  lemma HeadRequests(write: bool, off: nat, len: nat)
    ensures Requests(write, HeadPieces(off, len)) ==
      if off % SECTOR == 0 then [] else PartialRequests(write, off / SECTOR)
  {
  }

  lemma MidRequests(write: bool, off: nat, len: nat)
    ensures Requests(write, MidPieces(off, len)) ==
      if MidSectors(off, len) == 0 then [] else [Request(write, FirstWhole(off), MidSectors(off, len))]
    ensures MidSectors(off, len) > 0 ==> FirstWhole(off) * SECTOR == off + HeadLen(off, len)
  {
  }

  lemma TailRequests(write: bool, off: nat, len: nat)
    ensures Requests(write, TailPieces(off, len)) ==
      if len <= BodyLen(off, len) then [] else PartialRequests(write, FirstWhole(off) + MidSectors(off, len))
    ensures len > BodyLen(off, len) ==>
      (FirstWhole(off) + MidSectors(off, len)) * SECTOR == off + BodyLen(off, len)
  {
  }

  lemma AskedOne(t0: seq<Request>, t1: seq<Request>, r: Request, ok: bool)
    requires t1 == t0 + [r]
    ensures Asked(t0, t1, [r], ok)
  {
  }

  lemma AskedNothing(t: seq<Request>)
    ensures Asked(t, t, [], true)
  {
  }

  /** The write-back of a patched sector is only asked for once its read succeeded. */
  lemma AskedPatch(t0: seq<Request>, t1: seq<Request>, start: nat, read: bool, ok: bool)
    requires ok ==> read
    requires t1 == t0 + [Request(false, start, 1)] + if read then [Request(true, start, 1)] else []
    ensures Asked(t0, t1, PartialRequests(true, start), ok)
  {
    assert t0 + PartialRequests(true, start) == t0 + [Request(false, start, 1)] + [Request(true, start, 1)];
  }
}
