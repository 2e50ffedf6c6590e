/** What a clone leaves behind the end of its source: exactly which lists of areas make it write
    there, and what it writes. */
module Spill {
  import opened Options
  import opened Bytes
  import opened Layout
  import opened DiskHandle
  import opened Clone

  // ----- the condition in closed form

  /** A whole block takes the offset to a sector boundary. */
  lemma BlockLandsAt(curr: nat, max: nat)
    requires curr + BLOCK <= max
    ensures NextOffset(curr, max) == curr / SECTOR * SECTOR + BLOCK
  {
    BlockAdvances(curr, max);
    ReadCountExact(curr, BLOCK);
    hide ReadCount, NextOffset, BodyLen;
  }

  lemma BlockOff(x: nat)
    requires x >= BLOCK
    ensures x % BLOCK == (x - BLOCK) % BLOCK && x / BLOCK * BLOCK == (x - BLOCK) / BLOCK * BLOCK + BLOCK
  {
  }

  lemma {:induction false} CrossAtAligned(size: nat, curr: nat, max: nat)
    requires size % SECTOR == 0 && curr % SECTOR == 0 && curr <= size
    ensures CrossAt(size, curr, max)
         == if size < max && (size - curr) % BLOCK != 0 then Some(curr + (size - curr) / BLOCK * BLOCK) else None
    decreases max - curr
  {
    hide NextOffset;
    var left := size - curr;
    if curr < size < max {
      if left < BLOCK {
        assert left % BLOCK == left && left / BLOCK * BLOCK == 0;
        assert curr + Span(curr, max) > size;
      } else {
        assert Span(curr, max) == BLOCK;
        BlockLandsAt(curr, max);
        BlockOff(left);
        CrossAtAligned(size, curr + BLOCK, max);
      }
    }
  }

  /** Whether a loop over [lo, max) writes a block over the end of a source of `size` bytes, and
      where that block starts: it does if the range has the end strictly inside, unless a block
      after the first ends there exactly. */
  lemma CrossAtExact(size: nat, lo: nat, max: nat)
    requires size % SECTOR == 0
    ensures CrossAt(size, lo, max).Some? <==>
      lo < size < max && (size < lo + BLOCK || (size - lo / SECTOR * SECTOR) % BLOCK != 0)
    ensures CrossAt(size, lo, max).Some? ==>
      CrossAt(size, lo, max).value
      == (if size < lo + BLOCK then lo else lo / SECTOR * SECTOR + (size - lo / SECTOR * SECTOR) / BLOCK * BLOCK)
  {
    var sector := SectorOf(lo);
    if lo + BLOCK <= size < max {
      BlockLandsAt(lo, max);
      FirstBlock(size, lo, max, sector);
    }
    hide NextOffset;
  }

  lemma SectorOf(lo: nat) returns (sector: nat)
    ensures sector == lo / SECTOR * SECTOR && sector % SECTOR == 0 && sector <= lo < sector + SECTOR
    ensures (sector + BLOCK) % SECTOR == 0
  {
    sector := lo / SECTOR * SECTOR;
  }

  lemma FirstBlock(size: nat, lo: nat, max: nat, sector: nat)
    requires size % SECTOR == 0 && (sector + BLOCK) % SECTOR == 0 && sector <= lo && lo + BLOCK <= size < max
    requires NextOffset(lo, max) == sector + BLOCK
    ensures CrossAt(size, lo, max)
         == if (size - sector) % BLOCK != 0 then Some(sector + (size - sector) / BLOCK * BLOCK) else None
  {
    hide NextOffset;
    CrossAtAligned(size, sector + BLOCK, max);
    BlockOff(size - sector);
  }

  // ----- what spills

  /** Some area makes the clone write behind the end of the source. */
  ghost predicate SomeSpills(size: nat, room: nat, dc: DiskChangeInfo) {
    exists k: nat :: k < |dc.changedArea| && Spills(size, room, dc, k)
  }

  /** Without device errors every clone onto `d0` changes it behind the end of the source. */
  ghost predicate Overwrites(s: seq<byte>, d0: seq<byte>, dc: DiskChangeInfo) {
    forall d, fuel: nat, r ::
      fuel >= TotalWork(dc.changedArea) && CloneOutcome(s, d0, d, dc, fuel, false, r) ==> !UntouchedPast(|s|, d0, d)
  }

  lemma NoSpillKeeps(s: seq<byte>, d0: seq<byte>, d: seq<byte>, dc: DiskChangeInfo, fuel: nat, faulted: bool, r: CloneResult)
    requires !SomeSpills(|s|, |d0|, dc) && CloneOutcome(s, d0, d, dc, fuel, faulted, r)
    ensures UntouchedPast(|s|, d0, d)
  {
    hide Spills, Stale, CopiedAreas;
  }

  function Other(b: byte): (r: byte)
    ensures r != b
  {
    if b == 0 then 1 else 0
  }

  /** A target that differs from the stale bytes wherever they go. */
  lemma SpillShows(s: seq<byte>, room: nat, dc: DiskChangeInfo, k: nat) returns (d0: seq<byte>)
    requires k < |dc.changedArea| && Spills(|s|, room, dc, k)
    ensures |d0| == room
    ensures forall d, fuel: nat, r ::
      fuel >= TotalWork(dc.changedArea) && CloneOutcome(s, d0, d, dc, fuel, false, r) ==>
        && |d| == room && r == ReadFailed(EOF)
        && forall i :: |s| <= i < CrossEnd(|s|, AreaStart(dc, k), AreaEnd(dc, k)) ==> d[i] != d0[i]
  {
    hide CrossAt, BufferAt, HeldBefore, Sound, TotalWork, AreaStops, AllStop, AllInside, CopiedAreas;
    var lo: nat, max: nat := AreaStart(dc, k), AreaEnd(dc, k);
    var at, end := CrossAt(|s|, lo, max).value, CrossEnd(|s|, lo, max);
    var buffer := BufferAt(s, HeldBefore(s, dc, k), lo, max);
    SpillRoom(s, room, dc, k);
    d0 := seq(room, i requires 0 <= i < room => if at <= i < end then Other(buffer[i - at]) else 0);
    forall d, fuel: nat, r |
      fuel >= TotalWork(dc.changedArea) && CloneOutcome(s, d0, d, dc, fuel, false, r)
      ensures |d| == room && r == ReadFailed(EOF) && forall i :: |s| <= i < end ==> d[i] != d0[i]
    {
      OutcomeSpilt(s, d0, d, dc, fuel, r, k);
      forall i | |s| <= i < end
        ensures d[i] != d0[i]
      {
        assert Stale(s, HeldBefore(s, dc, k), lo, max, i, d[i]);
        assert d0[i] == Other(buffer[i - at]);
      }
    }
  }

  lemma OutcomeSpilt(s: seq<byte>, d0: seq<byte>, d: seq<byte>, dc: DiskChangeInfo, fuel: nat, r: CloneResult, k: nat)
    requires k < |dc.changedArea| && Spills(|s|, |d0|, dc, k)
    requires fuel >= TotalWork(dc.changedArea) && CloneOutcome(s, d0, d, dc, fuel, false, r)
    ensures |d| == |d0| && Spilt(s, d, dc, k, r)
  {
    hide Spills, AllStop, AllInside, CopiedAreas, Spilt;
  }

  /** Where nothing spills, some outcome leaves everything behind the source alone. */
  lemma SomeOutcome(s: seq<byte>, d0: seq<byte>, dc: DiskChangeInfo) returns (d: seq<byte>, r: CloneResult)
    requires !SomeSpills(|s|, |d0|, dc)
    ensures CloneOutcome(s, d0, d, dc, TotalWork(dc.changedArea), false, r)
  {
    hide Spills, AreaStops, TotalWork;
    if !(AllInside(dc, |s|) && AllInside(dc, |d0|)) {
      return d0, ReadFailed(EOF);
    } else if !AllStop(dc) {
      return d0, StillRunning;
    }
    r := Cloned;
    var n := |dc.changedArea|;
    d := seq(|d0|, i requires 0 <= i < |d0| => if i < |s| && InAreas(dc, n, i) then s[i] else d0[i]);
    forall i | 0 <= i < |d0| && InAreas(dc, n, i)
      ensures i < |s|
    {
      InsideSource(dc, |s|, i);
    }
    AllAdded(s, d0, d, dc);
  }

  lemma InsideSource(dc: DiskChangeInfo, size: nat, i: nat)
    requires AllInside(dc, size) && InAreas(dc, |dc.changedArea|, i)
    ensures i < size
  {
    var k: nat :| k < |dc.changedArea| && InArea(dc, k, i);
  }

  /** The exact condition under which a clone leaves bytes that are neither the target's nor the
      source's: some area is reached that spills. Then there is a target of that size on which every
      clone without device errors does; otherwise no clone does, whatever fails. */
  lemma SpillExact(s: seq<byte>, room: nat, dc: DiskChangeInfo)
    ensures SomeSpills(|s|, room, dc) <==> exists d0 :: |d0| == room && Overwrites(s, d0, dc)
    ensures !SomeSpills(|s|, room, dc) ==>
      forall d0, d, fuel: nat, faulted, r ::
        |d0| == room && CloneOutcome(s, d0, d, dc, fuel, faulted, r) ==> UntouchedPast(|s|, d0, d)
  {
    hide CloneOutcome, UntouchedPast, SomeSpills;
    if SomeSpills(|s|, room, dc) {
      Spilling(s, room, dc);
    } else {
      forall d0, d, fuel: nat, faulted, r | |d0| == room && CloneOutcome(s, d0, d, dc, fuel, faulted, r)
        ensures UntouchedPast(|s|, d0, d)
      {
        NoSpillKeeps(s, d0, d, dc, fuel, faulted, r);
      }
      forall d0: seq<byte> | |d0| == room
        ensures !Overwrites(s, d0, dc)
      {
        var d, r := SomeOutcome(s, d0, dc);
        NoSpillKeeps(s, d0, d, dc, TotalWork(dc.changedArea), false, r);
      }
    }
  }

  lemma Spilling(s: seq<byte>, room: nat, dc: DiskChangeInfo)
    requires SomeSpills(|s|, room, dc)
    ensures exists d0 :: |d0| == room && Overwrites(s, d0, dc)
  {
    var k: nat :| k < |dc.changedArea| && Spills(|s|, room, dc, k);
    var d0 := SpillShows(s, room, dc, k);
    forall d, fuel: nat, r |
      fuel >= TotalWork(dc.changedArea) && CloneOutcome(s, d0, d, dc, fuel, false, r)
      ensures !UntouchedPast(|s|, d0, d)
    {
      hide CloneOutcome, CrossAt, TotalWork, Spills;
      SpillRoom(s, room, dc, k);
      assert d[|s|] != d0[|s|];
    }
    assert Overwrites(s, d0, dc);
  }

  lemma SpillRoom(s: seq<byte>, room: nat, dc: DiskChangeInfo, k: nat)
    requires k < |dc.changedArea| && Spills(|s|, room, dc, k)
    ensures |s| < CrossEnd(|s|, AreaStart(dc, k), AreaEnd(dc, k)) <= room
  {
  }

  /** An input: one area of four sectors, a source of two and a target of four. The clone ends with
      an error and has zeroed the last two sectors of the target. */
  lemma SpillExample(s: seq<byte>, d0: seq<byte>, d: seq<byte>, fuel: nat, r: CloneResult)
    requires |s| == 2 * SECTOR && |d0| == 4 * SECTOR && fuel >= 4 * SECTOR
    requires CloneOutcome(s, d0, d, DiskChangeInfo(0, 4 * SECTOR, [ChangedArea(0, 4 * SECTOR)]), fuel, false, r)
    ensures r == ReadFailed(EOF) && |d| == |d0|
    ensures forall i :: 2 * SECTOR <= i < 4 * SECTOR ==> d[i] == 0
  {
    var dc := DiskChangeInfo(0, 4 * SECTOR, [ChangedArea(0, 4 * SECTOR)]);
    assert CrossAt(|s|, 0, 4 * SECTOR) == Some(0);
    assert dc.changedArea[..0] == [];
    assert TotalWork(dc.changedArea) == 4 * SECTOR;
    OutcomeSpilt(s, d0, d, dc, fuel, r, 0);
    forall i | 2 * SECTOR <= i < 4 * SECTOR
      ensures d[i] == 0
    {
      assert Stale(s, HeldBefore(s, dc, 0), 0, 4 * SECTOR, i, d[i]);
    }
  }
}
