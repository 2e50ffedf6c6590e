/** Which result a clone reports when no device call fails: what its two sizes and its areas say. */
module Errors {
  import opened Options
  import opened Layout
  import opened DiskHandle
  import opened Clone
  import opened Spill

  /** The last block that a loop over [lo, max) reads ends with the range, or, if the source ends
      before it, with the block over that end, or there. */
  lemma LastEndExact(size: nat, lo: nat, max: nat)
    requires size % SECTOR == 0 && lo < max && lo < size
    ensures LastEnd(size, lo, max) ==
      if max <= size then max
      else if size < lo + BLOCK then Min(max, lo + BLOCK)
      else
        var left := size - lo / SECTOR * SECTOR;
        if left % BLOCK == 0 then size else Min(max, lo / SECTOR * SECTOR + left / BLOCK * BLOCK + BLOCK)
  {
    CrossAtExact(size, lo, max);
    hide CrossAt;
  }

  /** The clone gets to area `k`, which is not empty: every area before it is inside both disks and
      meets the stopping condition. */
  ghost predicate Reached(size: nat, room: nat, dc: DiskChangeInfo, k: nat)
    requires k < |dc.changedArea|
  {
    && dc.changedArea[k].length > 0
    && forall j :: 0 <= j < k && dc.changedArea[j].length > 0 ==> GoesThrough(size, room, dc, j)
  }

  ghost predicate GoesThrough(size: nat, room: nat, dc: DiskChangeInfo, k: nat)
    requires k < |dc.changedArea|
  {
    AreaEnd(dc, k) <= size && AreaEnd(dc, k) <= room && AreaStops(dc.changedArea[k], AreaStart(dc, k))
  }

  /** Area `k` starts before the end of the source, and a block of its loop that does so too ends past
      the end of the target. */
  ghost predicate DoesNotFit(size: nat, room: nat, dc: DiskChangeInfo, k: nat)
    requires k < |dc.changedArea| && AreaStart(dc, k) >= 0 && AreaEnd(dc, k) >= 0
  {
    AreaStart(dc, k) < size && LastEnd(size, AreaStart(dc, k), AreaEnd(dc, k)) > room
  }

  lemma AreaFate(size: nat, room: nat, dc: DiskChangeInfo, k: nat)
    requires k < |dc.changedArea| && dc.changedArea[k].length > 0 && AreaStart(dc, k) >= 0
    ensures Fate(size, room, AreaStart(dc, k), AreaEnd(dc, k)) ==
      if GoesThrough(size, room, dc, k) then Cloned
      else if DoesNotFit(size, room, dc, k) then WriteFailed(ShortWrite)
      else if AreaEnd(dc, k) > size then ReadFailed(EOF)
      else StillRunning
  {
    hide Stops, CrossAt;
  }

  /** The clone ends at the first area that does not go through. */
  lemma {:induction false} FirstStop(size: nat, room: nat, dc: DiskChangeInfo, n: nat) returns (k: nat)
    requires NonNegative(dc) && n <= |dc.changedArea|
    requires forall j :: 0 <= j < n && dc.changedArea[j].length > 0 ==> GoesThrough(size, room, dc, j)
    ensures n <= k <= |dc.changedArea|
    ensures forall j :: 0 <= j < k && dc.changedArea[j].length > 0 ==> GoesThrough(size, room, dc, j)
    ensures k == |dc.changedArea| ==> Verdict(size, room, dc, n) == Cloned
    ensures k < |dc.changedArea| ==>
      && Reached(size, room, dc, k) && !GoesThrough(size, room, dc, k)
      && Verdict(size, room, dc, n) == Fate(size, room, AreaStart(dc, k), AreaEnd(dc, k))
    decreases |dc.changedArea| - n
  {
    hide Fate, AreaStops, LastEnd;
    k := n;
    if n < |dc.changedArea| {
      VerdictNext(size, room, dc, n);
      if dc.changedArea[n].length > 0 {
        AreaFate(size, room, dc, n);
      }
      if dc.changedArea[n].length <= 0 || GoesThrough(size, room, dc, n) {
        k := FirstStop(size, room, dc, n + 1);
      }
    }
  }

  /** Only one area can be reached and not go through. */
  lemma OneStop(size: nat, room: nat, dc: DiskChangeInfo, k: nat, l: nat)
    requires k < |dc.changedArea| && l < |dc.changedArea| && Reached(size, room, dc, k) && Reached(size, room, dc, l)
    requires !GoesThrough(size, room, dc, k) && !GoesThrough(size, room, dc, l)
    ensures k == l
  {
  }

  lemma FitsInside(size: nat, room: nat, dc: DiskChangeInfo, k: nat)
    requires k < |dc.changedArea| && dc.changedArea[k].length > 0 && AreaStart(dc, k) >= 0
    ensures AreaEnd(dc, k) <= size ==> (DoesNotFit(size, room, dc, k) <==> AreaEnd(dc, k) > room)
  {
  }

  lemma AllGoThrough(size: nat, room: nat, dc: DiskChangeInfo)
    ensures AllStop(dc) && AllInside(dc, size) && AllInside(dc, room) <==>
      forall j :: 0 <= j < |dc.changedArea| && dc.changedArea[j].length > 0 ==> GoesThrough(size, room, dc, j)
  {
    hide Stops;
  }

  ghost predicate StopsShort(size: nat, room: nat, dc: DiskChangeInfo, k: nat)
    requires k < |dc.changedArea|
  {
    Reached(size, room, dc, k) && !GoesThrough(size, room, dc, k)
  }

  /** What a clone reports without device errors, for all sizes and areas. It succeeds exactly when
      every area lies on both disks and meets the stopping condition. It reports a short write
      exactly when the first area that does not go through has a block that starts before the end of
      the source and ends past the target; the end of file exactly when that area has no such block
      and ends behind the source; and it runs on exactly when that area lies on both disks. */
  lemma VerdictExact(size: nat, room: nat, dc: DiskChangeInfo)
    requires NonNegative(dc)
    ensures Verdict(size, room, dc, 0) == Cloned <==> AllStop(dc) && AllInside(dc, size) && AllInside(dc, room)
    ensures Verdict(size, room, dc, 0) == WriteFailed(ShortWrite) <==>
      exists k: nat :: k < |dc.changedArea| && StopsShort(size, room, dc, k) && DoesNotFit(size, room, dc, k)
    ensures Verdict(size, room, dc, 0) == ReadFailed(EOF) <==>
      exists k: nat :: k < |dc.changedArea| && StopsShort(size, room, dc, k) && !DoesNotFit(size, room, dc, k) && AreaEnd(dc, k) > size
    ensures Verdict(size, room, dc, 0) == StillRunning <==>
      exists k: nat :: k < |dc.changedArea| && StopsShort(size, room, dc, k) && AreaEnd(dc, k) <= size && AreaEnd(dc, k) <= room
    ensures Verdict(size, room, dc, 0) in {Cloned, WriteFailed(ShortWrite), ReadFailed(EOF), StillRunning}
  {
    hide Fate, AreaStops, LastEnd, Verdict, DoesNotFit;
    var k := FirstStop(size, room, dc, 0);
    if k < |dc.changedArea| {
      AreaFate(size, room, dc, k);
      FitsInside(size, room, dc, k);
      assert StopsShort(size, room, dc, k);
    }
    AllGoThrough(size, room, dc);
    forall l: nat | l < |dc.changedArea| && StopsShort(size, room, dc, l)
      ensures l == k
    {
      OneStop(size, room, dc, k, l);
    }
    hide GoesThrough, AllStop, AllInside;
  }

  /** An input: no failing device call, a source of two sectors, a target of one and one area of two.
      The write that does not fit is what the clone reports. */
  lemma ShortWriteExample(r: CloneResult)
    requires Ends(2 * SECTOR, SECTOR, DiskChangeInfo(0, 2 * SECTOR, [ChangedArea(0, 2 * SECTOR)]), 2 * SECTOR, r)
    ensures r == WriteFailed(ShortWrite)
  {
    var dc := DiskChangeInfo(0, 2 * SECTOR, [ChangedArea(0, 2 * SECTOR)]);
    assert TotalWork(dc.changedArea) == 2 * SECTOR by {
      assert dc.changedArea[..0] == [];
    }
  }
}
