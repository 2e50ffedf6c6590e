/** `QueryAllocatedBlocks`: asking for the allocated parts of a disk window by window, and what a
    clone of the answer amounts to. */
module Query {
  import opened Bytes
  import opened Layout
  import opened Device
  import opened ReaderWriter
  import opened Clone

  /** Sectors per chunk: 1 MB. */
  const CHUNK: nat := 2 * 1024

  datatype Block = Block(offset: nat, length: nat)

  datatype Window = Window(start: nat, num: nat)

  /** A chunk is reported as soon as one of its sectors is allocated. */
  predicate Reported(inUse: set<nat>, sector: nat) {
    exists y :: y in inUse && y / CHUNK == sector / CHUNK
  }

  predicate InBlock(b: Block, sector: nat) {
    b.offset <= sector < b.offset + b.length
  }

  ghost predicate InBlocks(blocks: seq<Block>, sector: nat) {
    exists k :: 0 <= k < |blocks| && InBlock(blocks[k], sector)
  }

  /** A sound and complete answer for one window: blocks in order, apart, inside the window, and
      together exactly its reported sectors. */
  ghost predicate Answers(blocks: seq<Block>, inUse: set<nat>, w: Window) {
    && (forall k :: 0 <= k < |blocks| ==>
          blocks[k].length > 0 && w.start <= blocks[k].offset && blocks[k].offset + blocks[k].length <= w.start + w.num)
    && (forall j, k :: 0 <= j < k < |blocks| ==> blocks[j].offset + blocks[j].length <= blocks[k].offset)
    && (forall x :: w.start <= x < w.start + w.num ==> (InBlocks(blocks, x) <==> Reported(inUse, x)))
  }

  /** The allocation map of a disk, as the disk library answers for it. */
  class AllocationMap {
    const inUse: set<nat>
    ghost var queries: seq<Window>
    /** The queries that failed, with their codes. */
    ghost var failed: seq<(Window, nat)>

    constructor (inUse: set<nat>)
      ensures this.inUse == inUse && queries == [] && failed == []
    {
      this.inUse := inUse;
      queries, failed := [], [];
    }

    /** Any answer may come back for a window that is not cut at chunks of the size asked for. */
    method QueryAllocatedBlocks(startSector: nat, numSectors: nat, chunkSize: nat) returns (blocks: seq<Block>, code: nat)
      modifies this
      ensures queries == old(queries) + [Window(startSector, numSectors)]
      ensures failed == old(failed) + if code == VIX_OK then [] else [(Window(startSector, numSectors), code)]
      ensures code == VIX_OK && chunkSize == CHUNK && startSector % CHUNK == 0 && numSectors % CHUNK == 0 ==>
        Answers(blocks, inUse, Window(startSector, numSectors))
    {
      queries := queries + [Window(startSector, numSectors)];
      blocks := [];
      if * {
        var failure: int := *;
        code := if failure > VIX_OK then failure else 1;
        failed := failed + [(Window(startSector, numSectors), code)];
        return;
      }
      code := VIX_OK;
      if chunkSize != CHUNK || startSector % CHUNK != 0 || numSectors % CHUNK != 0 {
        blocks := *;
        return;
      }
      var first := startSector;
      NothingAnswered(inUse, startSector);
      hide Answers, Reported;
      while first < startSector + numSectors
        invariant startSector <= first <= startSector + numSectors && first % CHUNK == 0
        invariant queries == old(queries) + [Window(startSector, numSectors)] && failed == old(failed)
        invariant Answers(blocks, inUse, Window(startSector, first - startSector))
      {
        ghost var before := blocks;
        if Reported(inUse, first) {
          blocks := blocks + [Block(first, CHUNK)];
        }
        OneMoreChunk(before, blocks, inUse, startSector, first);
        first := first + CHUNK;
      }
    }
  }

  lemma NothingAnswered(inUse: set<nat>, start: nat)
    ensures Answers([], inUse, Window(start, 0))
  {
  }

  lemma SameChunk(inUse: set<nat>, first: nat, x: nat)
    requires first % CHUNK == 0 && first <= x < first + CHUNK
    ensures Reported(inUse, x) <==> Reported(inUse, first)
  {
    assert x / CHUNK == first / CHUNK;
  }

  lemma OneMoreChunk(before: seq<Block>, after: seq<Block>, inUse: set<nat>, start: nat, first: nat)
    requires first % CHUNK == 0 && start <= first && Answers(before, inUse, Window(start, first - start))
    requires after == before + if Reported(inUse, first) then [Block(first, CHUNK)] else []
    ensures Answers(after, inUse, Window(start, first - start + CHUNK))
  {
    hide Reported;
    forall x | start <= x < first + CHUNK
      ensures InBlocks(after, x) <==> Reported(inUse, x)
    {
      if x < first {
        if InBlocks(before, x) {
          var k :| 0 <= k < |before| && InBlock(before[k], x);
          assert InBlock(after[k], x);
        }
      } else {
        SameChunk(inUse, first, x);
        if |after| > |before| {
          assert InBlock(after[|before|], x);
        }
      }
    }
  }

  /** The windows follow each other from `from` to `to`, none empty or longer than `maxChunks` chunks. */
  ghost predicate WindowsTile(ws: seq<Window>, from: nat, to: nat, maxChunks: nat) {
    && (ws == [] ==> from == to)
    && (ws != [] ==> ws[0].start == from && ws[|ws| - 1].start + ws[|ws| - 1].num == to)
    && (forall k :: 0 <= k < |ws| ==> 0 < ws[k].num <= maxChunks * CHUNK && ws[k].num % CHUNK == 0)
    && (forall k :: 0 < k < |ws| ==> ws[k].start == ws[k - 1].start + ws[k - 1].num)
  }

  function AreaOf(b: Block): ChangedArea {
    ChangedArea(b.offset * SECTOR, b.length * SECTOR)
  }

  predicate InChanged(a: ChangedArea, i: nat) {
    a.start <= i < a.start + a.length
  }

  ghost predicate Covers(areas: seq<ChangedArea>, i: nat) {
    exists k :: 0 <= k < |areas| && InChanged(areas[k], i)
  }

  predicate OnSectors(a: ChangedArea, sectors: nat) {
    && a.start >= 0 && a.start % SECTOR == 0
    && a.length > 0 && a.length % SECTOR == 0
    && a.start + a.length <= sectors * SECTOR
  }

  predicate InOrder(areas: seq<ChangedArea>) {
    forall j, k :: 0 <= j < k < |areas| ==> areas[j].start + areas[j].length <= areas[k].start
  }

  /** The areas are in order, apart, on sector boundaries, inside the first `sectors` sectors, and
      cover exactly the bytes of the reported chunks there. */
  ghost predicate Describes(areas: seq<ChangedArea>, inUse: set<nat>, sectors: nat) {
    && (forall k :: 0 <= k < |areas| ==> OnSectors(areas[k], sectors))
    && InOrder(areas)
    && (forall i :: 0 <= i < sectors * SECTOR ==> (Covers(areas, i) <==> Reported(inUse, i / SECTOR)))
  }

  lemma InBlockBytes(b: Block, i: nat)
    ensures InChanged(AreaOf(b), i) <==> InBlock(b, i / SECTOR)
  {
  }

  function AreasOf(blocks: seq<Block>): (r: seq<ChangedArea>)
    ensures |r| == |blocks|
    ensures forall k :: 0 <= k < |blocks| ==> r[k] == AreaOf(blocks[k])
  {
    seq(|blocks|, k requires 0 <= k < |blocks| => AreaOf(blocks[k]))
  }

  lemma DescribesMore(areas: seq<ChangedArea>, blocks: seq<Block>, inUse: set<nat>, w: Window)
    requires Describes(areas, inUse, w.start) && Answers(blocks, inUse, w)
    ensures Describes(areas + AreasOf(blocks), inUse, w.start + w.num)
  {
    var all := areas + AreasOf(blocks);
    OrderedMore(areas, blocks, inUse, w);
    hide Reported, Covers;
    forall i | 0 <= i < (w.start + w.num) * SECTOR
      ensures Covers(all, i) <==> Reported(inUse, i / SECTOR)
    {
      CoversMore(areas, blocks, inUse, w, i);
    }
  }

  lemma OrderedMore(areas: seq<ChangedArea>, blocks: seq<Block>, inUse: set<nat>, w: Window)
    requires Describes(areas, inUse, w.start) && Answers(blocks, inUse, w)
    ensures forall k :: 0 <= k < |areas + AreasOf(blocks)| ==> OnSectors((areas + AreasOf(blocks))[k], w.start + w.num)
    ensures InOrder(areas + AreasOf(blocks))
  {
    hide Reported, Covers, InBlocks;
    var all := areas + AreasOf(blocks);
    forall k | |areas| <= k < |all|
      ensures all[k] == AreaOf(blocks[k - |areas|])
      ensures all[k].start >= w.start * SECTOR && OnSectors(all[k], w.start + w.num)
    {
    }
  }

  lemma CoversMore(areas: seq<ChangedArea>, blocks: seq<Block>, inUse: set<nat>, w: Window, i: nat)
    requires Describes(areas, inUse, w.start) && Answers(blocks, inUse, w)
    requires i < (w.start + w.num) * SECTOR
    ensures Covers(areas + AreasOf(blocks), i) <==> Reported(inUse, i / SECTOR)
  {
    var all := areas + AreasOf(blocks);
    hide Reported;
    if Covers(areas, i) {
      var k :| 0 <= k < |areas| && InChanged(areas[k], i);
      assert InChanged(all[k], i);
    }
    if InBlocks(blocks, i / SECTOR) {
      var k :| 0 <= k < |blocks| && InBlock(blocks[k], i / SECTOR);
      InBlockBytes(blocks[k], i);
      assert all[|areas| + k] == AreaOf(blocks[k]);
      assert InChanged(all[|areas| + k], i);
    }
    if Covers(all, i) {
      var k :| 0 <= k < |all| && InChanged(all[k], i);
      if k < |areas| {
        assert all[k] == areas[k] && i < w.start * SECTOR;
      } else {
        assert all[k] == AreaOf(blocks[k - |areas|]);
        InBlockBytes(blocks[k - |areas|], i);
      }
    }
  }

  /** The sectors that whole chunks cover; the rest of the disk is never asked about. */
  function Prefix(capacity: nat): (sectors: nat)
    ensures sectors % CHUNK == 0 && sectors <= capacity < sectors + CHUNK
  {
    capacity / CHUNK * CHUNK
  }

  /** What a query of the whole disk comes to. If no window's query fails, the windows tile the whole
      chunks and the areas describe them. Otherwise the last window asked for is the one that failed,
      and the areas describe what comes before it. */
  ghost predicate QueryOutcome(areas: seq<ChangedArea>, inUse: set<nat>, capacity: nat, maxChunks: nat,
                               ws: seq<Window>, failed: seq<(Window, nat)>, code: nat) {
    if code == VIX_OK then
      failed == [] && WindowsTile(ws, 0, Prefix(capacity), maxChunks) && Describes(areas, inUse, Prefix(capacity))
    else
      && ws != []
      && var last := ws[|ws| - 1];
      && failed == [(last, code)] && last.start + last.num <= Prefix(capacity)
      && WindowsTile(ws, 0, last.start + last.num, maxChunks) && Describes(areas, inUse, last.start)
  }

  /** The inner loop: one changed area per block. */
  method AppendBlocks(info: DiskChangeInfo, blockList: seq<Block>) returns (r: DiskChangeInfo)
    ensures r == info.(changedArea := info.changedArea + AreasOf(blockList))
  {
    r := info;
    var j := 0;
    while j < |blockList|
      invariant 0 <= j <= |blockList|
      invariant r == info.(changedArea := info.changedArea + AreasOf(blockList[..j]))
    {
      var block := blockList[j];
      var changed := ChangedArea(block.offset * SECTOR, block.length * SECTOR);
      assert AreasOf(blockList[..j + 1]) == AreasOf(blockList[..j]) + [changed];
      r := r.(changedArea := r.changedArea + [changed]);
      j := j + 1;
    }
    assert blockList[..j] == blockList;
  }

  /** `QueryAllocatedBlocks` of a disk of `capacity` sectors: the windows tile exactly the whole
      chunks of the disk, and the areas describe what is allocated there. An error of the library is
      returned, and stops the windows early. */
  method QueryAllocatedBlocks(disk: AllocationMap, capacity: nat, maxChunks: nat)
    returns (info: DiskChangeInfo, code: nat, ghost ws: seq<Window>)
    requires maxChunks > 0
    modifies disk
    ensures info.startOffset == 0 && info.length == capacity * SECTOR
    ensures disk.queries == old(disk.queries) + ws && old(disk.failed) <= disk.failed
    ensures QueryOutcome(info.changedArea, disk.inUse, capacity, maxChunks, ws, disk.failed[|old(disk.failed)|..], code)
  {
    hide Describes, Answers, WindowsTile, QueryOutcome, Prefix, AreasOf;
    info := DiskChangeInfo(0, capacity * SECTOR, []);
    var blockCount := capacity / CHUNK;
    var offset := 0;
    ws := [];
    NothingAskedYet(disk.inUse, capacity, maxChunks);
    while blockCount > 0
      invariant blockCount >= 0 && offset >= 0 && offset + blockCount * CHUNK == Prefix(capacity)
      invariant offset % CHUNK == 0
      invariant info.startOffset == 0 && info.length == capacity * SECTOR
      invariant Describes(info.changedArea, disk.inUse, offset)
      invariant disk.queries == old(disk.queries) + ws && disk.failed == old(disk.failed)
      invariant WindowsTile(ws, 0, offset, maxChunks)
    {
      var onceCount := blockCount;
      if blockCount > maxChunks {
        onceCount := maxChunks;
      }
      var numSectors := onceCount * CHUNK;
      NextWindow(offset, blockCount, onceCount, Prefix(capacity));
      var blockList;
      blockList, code := disk.QueryAllocatedBlocks(offset, numSectors, CHUNK);
      TilesMore(ws, offset, onceCount, maxChunks);
      ws := ws + [Window(offset, numSectors)];
      if code != VIX_OK {
        assert disk.failed[|old(disk.failed)|..] == [(Window(offset, numSectors), code)];
        StoppedEarly(info.changedArea, disk.inUse, ws, Window(offset, numSectors), capacity, maxChunks, code);
        return;
      }
      DescribesMore(info.changedArea, blockList, disk.inUse, Window(offset, numSectors));
      info := AppendBlocks(info, blockList);
      blockCount := blockCount - onceCount;
      offset := offset + numSectors;
    }
    assert disk.failed[|old(disk.failed)|..] == [];
    code := VIX_OK;
    AskedAll(info.changedArea, disk.inUse, ws, capacity, maxChunks);
  }

  lemma NothingAskedYet(inUse: set<nat>, capacity: nat, maxChunks: nat)
    ensures WindowsTile([], 0, 0, maxChunks) && Describes([], inUse, 0)
    ensures capacity / CHUNK * CHUNK == Prefix(capacity)
  {
  }

  lemma NextWindow(offset: nat, blockCount: nat, onceCount: nat, total: nat)
    requires offset % CHUNK == 0 && offset + blockCount * CHUNK == total && onceCount <= blockCount
    ensures onceCount * CHUNK % CHUNK == 0 && (offset + onceCount * CHUNK) % CHUNK == 0
    ensures offset + onceCount * CHUNK + (blockCount - onceCount) * CHUNK == total
    ensures offset + onceCount * CHUNK <= total
  {
  }

  lemma StoppedEarly(areas: seq<ChangedArea>, inUse: set<nat>, ws: seq<Window>, last: Window, capacity: nat, maxChunks: nat, code: nat)
    requires last.start + last.num <= Prefix(capacity) && WindowsTile(ws, 0, last.start + last.num, maxChunks)
    requires ws != [] && ws[|ws| - 1] == last && Describes(areas, inUse, last.start) && code != VIX_OK
    ensures QueryOutcome(areas, inUse, capacity, maxChunks, ws, [(last, code)], code)
  {
    hide Describes, WindowsTile;
  }

  lemma AskedAll(areas: seq<ChangedArea>, inUse: set<nat>, ws: seq<Window>, capacity: nat, maxChunks: nat)
    requires WindowsTile(ws, 0, Prefix(capacity), maxChunks) && Describes(areas, inUse, Prefix(capacity))
    ensures QueryOutcome(areas, inUse, capacity, maxChunks, ws, [], VIX_OK)
  {
    hide Describes, WindowsTile;
  }

  lemma TilesMore(ws: seq<Window>, to: nat, chunks: nat, maxChunks: nat)
    requires WindowsTile(ws, 0, to, maxChunks) && 0 < chunks <= maxChunks
    ensures WindowsTile(ws + [Window(to, chunks * CHUNK)], 0, to + chunks * CHUNK, maxChunks)
  {
  }

  // ----- cloning what was asked for

  /** The conversion of a block to bytes, and the end of its area, fit int64 exactly if the block
      ends before sector 2^54. */
  lemma BlockFits(b: Block)
    ensures IsInt64(AreaOf(b).start) && IsInt64(AreaOf(b).length) && IsInt64(AreaOf(b).start + AreaOf(b).length) <==>
            b.offset + b.length < 0x40_0000_0000_0000
  {
  }

  /** On a disk of fewer than 2^53 sectors all of the clone's offsets into queried areas fit int64:
      where an area starts and ends, and wherever the loop stands in it. */
  lemma QueriedAreasFit(info: DiskChangeInfo, inUse: set<nat>, capacity: nat, k: nat, curr: int)
    requires info.startOffset == 0 && Describes(info.changedArea, inUse, Prefix(capacity)) && k < |info.changedArea|
    requires capacity < 0x20_0000_0000_0000 && AreaStart(info, k) <= curr < AreaEnd(info, k)
    ensures IsInt64(capacity * SECTOR) && IsInt64(info.changedArea[k].start) && IsInt64(info.changedArea[k].length)
    ensures IsInt64(AreaStart(info, k)) && IsInt64(AreaEnd(info, k)) && 0 <= curr && IsInt64(curr + BLOCK)
    ensures NextOffset(curr, AreaEnd(info, k)) <= AreaEnd(info, k)
  {
    hide NextOffset, Stops, InOrder, Covers, Reported;
    AreaOnSectorsStops(info.changedArea[k], capacity);
    OneIteration(curr, AreaEnd(info, k));
  }

  /** The areas of a query always meet the stopping condition of the clone loop, and lie on the disk. */
  lemma QueriedAreasStop(info: DiskChangeInfo, inUse: set<nat>, capacity: nat)
    requires info.startOffset == 0 && Describes(info.changedArea, inUse, Prefix(capacity))
    ensures NonNegative(info) && AllStop(info) && AllInside(info, capacity * SECTOR)
  {
    forall k | 0 <= k < |info.changedArea|
      ensures AreaStops(info.changedArea[k], AreaStart(info, k))
      ensures 0 <= AreaStart(info, k) <= AreaEnd(info, k) <= capacity * SECTOR
    {
      AreaOnSectorsStops(info.changedArea[k], capacity);
    }
    hide Describes, AreaStops, OnSectors;
  }

  lemma AreaOnSectorsStops(a: ChangedArea, capacity: nat)
    requires OnSectors(a, Prefix(capacity))
    ensures AreaStops(a, a.start) && a.start + a.length <= capacity * SECTOR
  {
    assert (a.start + a.length) % SECTOR == 0;
  }

  /** End to end: on a source whose unreported sectors read as zero, cloning the queried areas onto
      a zeroed target that is large enough leaves the target equal to the source on all whole
      chunks, and untouched behind them. */
  lemma CloneIsFaithful(s: seq<byte>, d0: seq<byte>, d: seq<byte>, info: DiskChangeInfo, inUse: set<nat>, capacity: nat,
                        fuel: nat, faulted: bool)
    requires |s| == capacity * SECTOR
    requires info.startOffset == 0 && Describes(info.changedArea, inUse, Prefix(capacity))
    requires CloneOutcome(s, d0, d, info, fuel, faulted, Cloned)
    requires forall i :: 0 <= i < |s| && !Reported(inUse, i / SECTOR) ==> s[i] == 0
    requires Prefix(capacity) * SECTOR <= |d0| && forall i :: 0 <= i < Prefix(capacity) * SECTOR ==> d0[i] == 0
    ensures |d| == |d0|
    ensures d[..Prefix(capacity) * SECTOR] == s[..Prefix(capacity) * SECTOR]
    ensures d[Prefix(capacity) * SECTOR..] == d0[Prefix(capacity) * SECTOR..]
    ensures capacity % CHUNK == 0 && |d0| == |s| ==> d == s
  {
    var n := |info.changedArea|;
    forall i | 0 <= i < |d0|
      ensures i < Prefix(capacity) * SECTOR ==> d[i] == s[i]
      ensures i >= Prefix(capacity) * SECTOR ==> d[i] == d0[i]
    {
      CoveredIsInAreas(info, i);
      CoveredIsOnPrefix(info.changedArea, inUse, Prefix(capacity), i);
    }
    assert capacity % CHUNK == 0 ==> Prefix(capacity) == capacity;
  }

  lemma CoveredIsOnPrefix(areas: seq<ChangedArea>, inUse: set<nat>, sectors: nat, i: nat)
    requires Describes(areas, inUse, sectors)
    ensures Covers(areas, i) ==> i < sectors * SECTOR && Reported(inUse, i / SECTOR)
  {
  }

  lemma CoveredIsInAreas(info: DiskChangeInfo, i: nat)
    requires info.startOffset == 0
    ensures Covers(info.changedArea, i) <==> InAreas(info, |info.changedArea|, i)
  {
    forall k | 0 <= k < |info.changedArea|
      ensures InChanged(info.changedArea[k], i) <==> InArea(info, k, i)
    {
    }
  }

  /** And such a clone does succeed, given fuel, unless a device call fails. */
  lemma CloneSucceeds(s: seq<byte>, d0: seq<byte>, d: seq<byte>, info: DiskChangeInfo, inUse: set<nat>, capacity: nat,
                      fuel: nat, r: CloneResult)
    requires |s| == capacity * SECTOR && Prefix(capacity) * SECTOR <= |d0|
    requires info.startOffset == 0 && Describes(info.changedArea, inUse, Prefix(capacity))
    requires CloneOutcome(s, d0, d, info, fuel, false, r) && fuel >= TotalWork(info.changedArea)
    ensures r.Cloned?
  {
    QueriedAreasStop(info, inUse, capacity);
  }
}
