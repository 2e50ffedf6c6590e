/** `DumpCloneDisk`: copying areas from one disk to another in blocks, where the loop advances by
    the count that `ReadAt` returns. */
module Clone {
  import opened Options
  import opened Bytes
  import opened Layout
  import opened Device
  import opened DiskHandle

  /** Bytes copied per iteration: 2048 sectors. */
  const BLOCK: nat := SECTOR * 1024 * 2

  datatype ChangedArea = ChangedArea(start: int, length: int)

  datatype DiskChangeInfo = DiskChangeInfo(startOffset: int, length: int, changedArea: seq<ChangedArea>)

  /** How a clone ends. The source loops for ever where this one, given `fuel` iterations, is
      `StillRunning` whatever the fuel. */
  datatype CloneResult = Cloned | ReadFailed(err: IoError) | WriteFailed(err: IoError) | StillRunning

  // ----- when the inner loop stops

  /** The offset after one iteration without errors. */
  function NextOffset(curr: nat, max: nat): nat
    requires curr < max
  {
    curr + ReadCount(curr, Min(BLOCK, max - curr))
  }

  /** The offset after up to `k` iterations without errors. */
  function OffsetAfter(curr: nat, max: nat, k: nat): nat
    decreases k
  {
    if k == 0 || curr >= max then curr else OffsetAfter(NextOffset(curr, max), max, k - 1)
  }

  /** The range is empty, ends on a sector boundary, or lies inside one misaligned sector. */
  predicate Stops(curr: nat, max: nat) {
    || curr >= max
    || max % SECTOR == 0
    || (curr % SECTOR != 0 && max <= (curr / SECTOR + 1) * SECTOR)
  }

  lemma LastBlock(curr: nat, max: nat)
    requires curr < max <= curr + BLOCK
    ensures curr <= NextOffset(curr, max) <= max
    ensures Stops(curr, max) ==> NextOffset(curr, max) == max
    ensures !Stops(curr, max) ==> NextOffset(curr, max) == max / SECTOR * SECTOR < max
  {
    ReadCountExact(curr, max - curr);
    hide ReadCount, BodyLen;
  }

  lemma FullBlock(curr: nat, max: nat)
    requires curr + BLOCK < max
    ensures curr < NextOffset(curr, max) < max
    ensures NextOffset(curr, max) % SECTOR == 0
    ensures !(curr % SECTOR != 0 && max <= (curr / SECTOR + 1) * SECTOR)
  {
    ReadCountExact(curr, BLOCK);
    hide ReadCount, BodyLen;
  }

  lemma OneIteration(curr: nat, max: nat)
    requires curr < max
    ensures curr <= NextOffset(curr, max) <= max
    ensures Stops(curr, max) ==> curr < NextOffset(curr, max)
    ensures !Stops(curr, max) ==> NextOffset(curr, max) < max
    ensures Stops(NextOffset(curr, max), max) <==> Stops(curr, max)
  {
    if max <= curr + BLOCK {
      LastBlock(curr, max);
    } else {
      FullBlock(curr, max);
    }
    hide NextOffset;
  }

  lemma {:induction false} ReachesEnd(curr: nat, max: nat, k: nat)
    requires Stops(curr, max) && curr + k >= max
    ensures OffsetAfter(curr, max, k) >= max
    decreases k
  {
    if curr < max {
      OneIteration(curr, max);
      ReachesEnd(NextOffset(curr, max), max, k - 1);
    }
  }

  lemma {:induction false} NeverReachesEnd(curr: nat, max: nat, k: nat)
    requires !Stops(curr, max)
    ensures OffsetAfter(curr, max, k) < max
    decreases k
  {
    if k > 0 {
      OneIteration(curr, max);
      NeverReachesEnd(NextOffset(curr, max), max, k - 1);
    }
  }

  /** The exact termination condition of the inner loop, absent errors. */
  lemma TerminationExact(curr: nat, max: nat)
    ensures (exists k :: OffsetAfter(curr, max, k) >= max) <==> Stops(curr, max)
  {
    if Stops(curr, max) {
      ReachesEnd(curr, max, if curr < max then max - curr else 0);
    } else {
      forall k
        ensures OffsetAfter(curr, max, k) < max
      {
        NeverReachesEnd(curr, max, k);
      }
    }
  }

  /** Where the loop hangs: at a sector boundary with less than a sector left, where `ReadAt` fills
      the buffer, returns no error and counts nothing. */
  lemma HangsAt(curr: nat, max: nat)
    requires curr < max
    ensures NextOffset(curr, max) == curr <==> curr % SECTOR == 0 && max - curr < SECTOR
  {
    ReadCountExact(curr, Min(BLOCK, max - curr));
    hide ReadCount, BodyLen;
  }

  // ----- what the copied bytes are

  /** Before the end of the source, `d1` is `d0` with some bytes of [lo, hi) taken from the source.
      What [lo, hi) holds behind that end is the matter of `StaleAtMost`. */
  ghost predicate PartlyCopied(src: seq<byte>, d0: seq<byte>, d1: seq<byte>, lo: nat, hi: nat) {
    && |d1| == |d0|
    && forall i :: 0 <= i < |d0| ==>
         if lo <= i < hi && i < |src| then d1[i] == d0[i] || d1[i] == src[i]
         else (lo <= i < hi || d1[i] == d0[i])
  }

  /** One write of a block, whole or cut short, of which the source filled the first `len` bytes and
      an earlier block the rest. */
  lemma PartlyCopiedMore(src: seq<byte>, d0: seq<byte>, d1: seq<byte>, d2: seq<byte>, lo: nat, hi: nat,
                         at: nat, p: seq<byte>, n: nat, len: nat)
    requires PartlyCopied(src, d0, d1, lo, hi) && lo <= at && at + |p| <= hi && n <= |p| && at + n <= |d1|
    requires d2 == Splice(d1, at, p[..n])
    requires len <= |p| && at + len <= |src| && (len == |p| || at + len == |src|)
    requires p[..len] == src[at..at + len]
    ensures PartlyCopied(src, d0, d2, lo, hi)
  {
    forall i | at <= i < at + n && i < |src|
      ensures d2[i] == src[i]
    {
      assert i - at < len;
      assert p[i - at] == p[..len][i - at];
    }
    assert forall i :: 0 <= i < |d1| && !(at <= i < at + n) ==> d2[i] == d1[i];
    hide Splice;
  }

  /** Copying from inside an already copied range on, past its end, copies the longer range. */
  lemma CopyExtends(src: seq<byte>, d0: seq<byte>, lo: nat, w: nat, at: nat, e: nat)
    requires lo <= at <= w <= |src| && w <= |d0| && at <= e <= |src| && e <= |d0|
    ensures Splice(Splice(d0, lo, src[lo..w]), at, src[at..e]) == Splice(d0, lo, src[lo..if e < w then w else e])
  {
    var m := if e < w then w else e;
    var l, r := Splice(Splice(d0, lo, src[lo..w]), at, src[at..e]), Splice(d0, lo, src[lo..m]);
    forall i | 0 <= i < |d0|
      ensures l[i] == r[i]
    {
      assert at <= i < e ==> src[at..e][i - at] == src[i];
      assert lo <= i < w ==> src[lo..w][i - lo] == src[i];
      assert lo <= i < m ==> src[lo..m][i - lo] == src[i];
    }
  }

  // ----- what lands behind the end of the source

  /** The length of the buffer an iteration at `curr` reads into. */
  function Span(curr: nat, max: nat): nat
    requires curr < max
  {
    Min(BLOCK, max - curr)
  }

  lemma BlockAdvances(curr: nat, max: nat)
    requires curr + BLOCK <= max
    ensures curr < NextOffset(curr, max) <= curr + BLOCK
    ensures NextOffset(curr, max) == curr + ReadCount(curr, BLOCK)
  {
    ReadCountExact(curr, BLOCK);
    hide ReadCount, BodyLen;
  }

  /** Where the loop over [curr, max) reads a block that a source of `size` bytes only fills in
      part. The rest of the buffer still holds what it held before the read, and all of it is written. */
  function CrossAt(size: nat, curr: nat, max: nat): (r: Option<nat>)
    ensures r.Some? ==> curr <= r.value < size < max && r.value + Span(r.value, max) > size
    decreases max - curr
  {
    if curr >= size || max <= size then None
    else if curr + Span(curr, max) > size then Some(curr)
    else
      BlockAdvances(curr, max);
      CrossAt(size, NextOffset(curr, max), max)
  }

  function Zeros(n: nat): (r: seq<byte>)
    ensures |r| == n && forall i :: 0 <= i < n ==> r[i] == 0
  {
    seq(n, _ => 0)
  }

  /** What the buffer holds before that read: the block read before it, or nothing yet. */
  function BufferAt(s: seq<byte>, held: seq<byte>, curr: nat, max: nat): (r: seq<byte>)
    requires |held| == BLOCK
    ensures CrossAt(|s|, curr, max).Some? ==> |r| == Span(CrossAt(|s|, curr, max).value, max)
    decreases max - curr
  {
    if curr >= |s| || max <= |s| then []
    else if curr + Span(curr, max) > |s| then if max - curr < BLOCK then Zeros(max - curr) else held
    else
      BlockAdvances(curr, max);
      BufferAt(s, s[curr..curr + BLOCK], NextOffset(curr, max), max)
  }

  /** What the block buffer holds after a loop over [curr, max) inside the source. */
  function HeldAfter(s: seq<byte>, held: seq<byte>, curr: nat, max: nat): (r: seq<byte>)
    requires |held| == BLOCK
    ensures |r| == BLOCK
    decreases max - curr
  {
    if curr + BLOCK > max || max > |s| then held
    else
      BlockAdvances(curr, max);
      HeldAfter(s, s[curr..curr + BLOCK], NextOffset(curr, max), max)
  }

  ghost predicate UntouchedPast(size: nat, d0: seq<byte>, d: seq<byte>) {
    |d| == |d0| && forall i :: size <= i < |d0| ==> d[i] == d0[i]
  }

  /** The block over the end of the source fits a target of `room` bytes. */
  predicate Crosses(size: nat, room: nat, lo: nat, max: nat) {
    CrossAt(size, lo, max).Some? && CrossEnd(size, lo, max) <= room
  }

  function CrossEnd(size: nat, lo: nat, max: nat): nat
    requires CrossAt(size, lo, max).Some?
  {
    CrossAt(size, lo, max).value + Span(CrossAt(size, lo, max).value, max)
  }

  /** Byte `i` behind the end of the source is the stale buffer's. */
  ghost predicate Stale(s: seq<byte>, held: seq<byte>, lo: nat, max: nat, i: nat, v: byte)
    requires |held| == BLOCK && CrossAt(|s|, lo, max).Some? && |s| <= i < CrossEnd(|s|, lo, max)
  {
    v == BufferAt(s, held, lo, max)[i - CrossAt(|s|, lo, max).value]
  }

  /** Behind the end of the source the target is as before, but for bytes of the stale buffer. */
  ghost predicate StaleAtMost(s: seq<byte>, d0: seq<byte>, d: seq<byte>, held: seq<byte>, lo: nat, max: nat)
    requires |held| == BLOCK
  {
    && |d| == |d0|
    && forall i :: |s| <= i < |d0| ==>
         d[i] == d0[i] || (Crosses(|s|, |d0|, lo, max) && i < CrossEnd(|s|, lo, max) && Stale(s, held, lo, max, i, d[i]))
  }

  ghost predicate AllStale(s: seq<byte>, d: seq<byte>, held: seq<byte>, lo: nat, max: nat)
    requires |held| == BLOCK && Crosses(|s|, |d|, lo, max)
  {
    forall i :: |s| <= i < CrossEnd(|s|, lo, max) ==> Stale(s, held, lo, max, i, d[i])
  }

  /** A loop at `curr`: before the end of the source nothing behind it has been touched and what is
      to come is what was to come at the start; at the end the stale bytes are in place. */
  ghost predicate TailState(s: seq<byte>, d0: seq<byte>, d: seq<byte>, held: seq<byte>, block: seq<byte>, lo: nat, curr: nat, max: nat) {
    && |held| == BLOCK && |block| == BLOCK && |d| == |d0| && lo <= curr
    && (max <= |s| ==> UntouchedPast(|s|, d0, d) && HeldAfter(s, held, lo, max) == HeldAfter(s, block, curr, max))
    && (max > |s| && (curr < |s| || curr == lo) ==>
          && UntouchedPast(|s|, d0, d) && CrossAt(|s|, lo, max) == CrossAt(|s|, curr, max)
          && BufferAt(s, held, lo, max) == BufferAt(s, block, curr, max))
    && (max > |s| && curr >= |s| && curr > lo ==>
          && curr == |s| && StaleAtMost(s, d0, d, held, lo, max)
          && (CrossAt(|s|, lo, max).Some? ==> Crosses(|s|, |d0|, lo, max) && AllStale(s, d, held, lo, max)))
  }

  /** What a loop over [lo, max) leaves behind the end of the source, however it ends; without
      faults, and with room for the block over the end, it ends there. */
  ghost predicate TailOutcome(s: seq<byte>, d0: seq<byte>, d: seq<byte>, held: seq<byte>, lo: nat, max: nat, faulted: bool, r: CloneResult)
    requires |held| == BLOCK
  {
    && StaleAtMost(s, d0, d, held, lo, max)
    && (!faulted && Crosses(|s|, |d0|, lo, max) && !r.StillRunning? ==> r == ReadFailed(EOF) && AllStale(s, d, held, lo, max))
  }

  lemma TailStart(s: seq<byte>, d0: seq<byte>, held: seq<byte>, lo: nat, max: nat)
    requires |held| == BLOCK
    ensures TailState(s, d0, d0, held, held, lo, lo, max)
  {
  }

  // ----- how a loop without device errors ends

  /** How much of a buffer a read at `curr` fills. */
  function FillLen(size: nat, curr: nat, len: nat): nat {
    if curr >= size then 0 else Min(len, size - curr)
  }

  /** Where the last block ends that the loop over [lo, max) reads from a source of `size` bytes. */
  function LastEnd(size: nat, lo: nat, max: nat): nat {
    if max <= size then max
    else if CrossAt(size, lo, max).Some? then CrossEnd(size, lo, max)
    else size
  }

  /** How the loop over [lo, max) ends without device errors, for a source of `size` and a target of
      `room` bytes, given the iterations it takes. */
  function Fate(size: nat, room: nat, lo: nat, max: nat): CloneResult {
    if lo >= max then Cloned
    else if lo < size && LastEnd(size, lo, max) > room then WriteFailed(ShortWrite)
    else if max > size then ReadFailed(EOF)
    else if Stops(lo, max) then Cloned
    else StillRunning
  }

  lemma WriteDoesNotFit(size: nat, room: nat, curr: nat, max: nat)
    requires curr < max && curr < size && curr + Span(curr, max) > room
    ensures Fate(size, room, curr, max) == WriteFailed(ShortWrite)
  {
    hide NextOffset;
  }

  /** An iteration that reads and writes its block does not change how the loop ends. */
  lemma FateKept(size: nat, room: nat, curr: nat, max: nat, n: nat)
    requires curr < max && curr < size && curr + Span(curr, max) <= room && size % SECTOR == 0
    requires n == ReadCount(curr, FillLen(size, curr, Span(curr, max)))
    ensures Fate(size, room, curr + n, max) == Fate(size, room, curr, max)
    ensures n > 0 || Fate(size, room, curr, max) == StillRunning
  {
    if max <= size {
      FateInside(size, room, curr, max, n);
    } else if curr + Span(curr, max) <= size {
      BlockAdvances(curr, max);
      hide NextOffset, Stops, ReadCount;
    } else {
      ReadCountExact(curr, size - curr);
      hide NextOffset, Stops, ReadCount;
    }
  }

  lemma FateInside(size: nat, room: nat, curr: nat, max: nat, n: nat)
    requires curr < max <= size && curr + Span(curr, max) <= room && n == ReadCount(curr, Span(curr, max))
    ensures Fate(size, room, curr + n, max) == Fate(size, room, curr, max)
    ensures n > 0 || Fate(size, room, curr, max) == StillRunning
  {
    OneIteration(curr, max);
    if curr + BLOCK < max {
      FullBlock(curr, max);
    }
    hide ReadCount, Stops, CrossAt;
  }

  // ----- the copy loop

  ghost function Faults(src: DiskConnectHandle, dst: DiskConnectHandle): nat
    reads src.dev, dst.dev
  {
    src.dev.faults + dst.dev.faults
  }

  ghost predicate Ready(src: DiskConnectHandle, dst: DiskConnectHandle)
    reads src.dev, dst.dev, src.mutex, dst.mutex
  {
    src.Valid() && dst.Valid() && !src.mutex.held && !dst.mutex.held
  }

  /** A block of the loop: where it starts, its length, and how much of it the target took. */
  datatype Attempt = Attempt(curr: nat, len: nat, stored: nat)

  /** Which error is reported. A failed read or write carries the code of the device call that failed,
      the source's or the target's, as `ReadAt` and `WriteAt` report it; without one a read found the
      end of the source and a write the end of the target. At most one device call fails. `s0`, `s1`
      and `d0`, `d1` count the failures of the two devices before and after, which may be one. */
  ghost predicate Blames(same: bool, s0: nat, s1: nat, sCode: nat, d0: nat, d1: nat, dCode: nat,
                         trace: seq<Request>, at: Attempt, r: CloneResult) {
    match r
    case ReadFailed(err) =>
      if s1 == s0 then err == EOF && d1 == d0
      else s1 == s0 + 1 && d1 == (if same then d0 + 1 else d0) && err == if sCode == 16007 then EOF else Vddk(sCode)
    case WriteFailed(err) =>
      if d1 == d0 then err == ShortWrite && s1 == s0
      else
        && d1 == d0 + 1 && s1 == (if same then s0 + 1 else s0) && trace != []
        && err == if at.stored == BodyLen(at.curr, at.len) < at.len && trace[|trace| - 1].write then Wrapped(dCode)
                  else if dCode == 16007 then EOF else Vddk(dCode)
    case _ => s1 == s0 && d1 == d0
  }

  /** What one iteration did: `s` is the source, `d0` and `d1` the target before and after, `p0` and
      `p` the buffer before and after the read, `w` what the write stored of it. What the read does
      not fill stays in the buffer and is written with the rest. */
  ghost predicate Iteration(s: seq<byte>, d0: seq<byte>, d1: seq<byte>, curr: nat, p0: seq<byte>, p: seq<byte>, w: nat, n: nat, r: CloneResult) {
    var len := FillLen(|s|, curr, |p|);
    && !r.StillRunning? && |p0| == |p|
    && (r.ReadFailed? ==> d1 == d0)
    && (!r.ReadFailed? ==> curr < |s| && p[..len] == s[curr..curr + len] && p[len..] == p0[len..])
    && (r.WriteFailed? ==> d1 == d0 || (w <= |p| && curr + |p| <= |d0| && d1 == Splice(d0, curr, p[..w])))
    && (r.Cloned? ==>
          && w == |p| && curr + |p| <= |d0| && d1 == Splice(d0, curr, p[..w])
          && n == ReadCount(curr, len))
  }

  lemma BlockIteration(s: seq<byte>, d0: seq<byte>, d1: seq<byte>, curr: nat, p0: seq<byte>, p1: seq<byte>,
                       n: nat, w: nat, err: IoError)
    requires ReadOutcome(s, curr, p0, p1, n, NoError) && WriteOutcome(d0, d1, curr, p1, w, err) && |p0| <= BLOCK
    ensures Iteration(s, d0, d1, curr, p0, p1, w, n, if err != NoError then WriteFailed(err) else Cloned)
    ensures err == ShortWrite ==> curr + |p1| > |d0|
  {
    ClampExact(|p0|, curr, |s|);
    var len := FillLen(|s|, curr, |p0|);
    assert ClampLen(|p0|, curr, |s|) == len;
    hide Splice, Boundary, ReadCount, ClampLen;
    FilledPrefix(p0, p1, s, curr, len);
  }

  lemma FilledPrefix(p0: seq<byte>, p1: seq<byte>, s: seq<byte>, curr: nat, len: nat)
    requires len <= |p0| && curr + len <= |s|
    requires p1 == Splice(p0, 0, s[curr..curr + len])
    ensures |p1| == |p0| && p1[..len] == s[curr..curr + len] && p1[len..] == p0[len..]
  {
  }

  lemma ClampFits(len: nat, off: nat, capacity: nat)
    requires off < capacity && len <= BLOCK
    ensures ClampLen(len, off, capacity) >= 0
  {
  }

  lemma ReadStops(s: seq<byte>, d: seq<byte>, curr: nat, p0: seq<byte>, p: seq<byte>, n: nat, err: IoError)
    requires ReadOutcome(s, curr, p0, p, n, err) && |p| == |p0|
    ensures Iteration(s, d, d, curr, p0, p, 0, n, ReadFailed(err))
    ensures curr >= |s| ==> err == EOF
  {
    hide Splice, ClampLen, ReadCount, Boundary;
  }

  lemma BlamesRead(same: bool, s0: nat, s1: nat, sCode: nat, d0: nat, d1: nat, dCode: nat,
                   trace: seq<Request>, at: Attempt, err: IoError)
    requires d1 == (if same then s1 else d0) && (same ==> s0 == d0)
    requires (s1 == s0 && err == EOF) || (s1 == s0 + 1 && err == if sCode == 16007 then EOF else Vddk(sCode))
    ensures Blames(same, s0, s1, sCode, d0, d1, dCode, trace, at, ReadFailed(err))
  {
  }

  lemma BlamesWrite(same: bool, s0: nat, s1: nat, sCode: nat, d0: nat, d1: nat, dCode: nat,
                    trace: seq<Request>, at: Attempt, err: IoError)
    requires s1 == (if same then d1 else s0) && (same ==> s0 == d0)
    requires d1 == d0 + if err == NoError || err == ShortWrite then 0 else 1
    requires err != NoError && err != ShortWrite ==>
      && trace != []
      && err == if at.stored == BodyLen(at.curr, at.len) < at.len && trace[|trace| - 1].write then Wrapped(dCode)
                else if dCode == 16007 then EOF else Vddk(dCode)
    ensures Blames(same, s0, s1, sCode, d0, d1, dCode, trace, at, if err != NoError then WriteFailed(err) else Cloned)
  {
    hide BodyLen;
  }

  method ReadFromVmdk(src: DiskConnectHandle, buffer: array<byte>, curr: nat) returns (n: nat, err: IoError)
    requires src.Valid() && !src.mutex.held && buffer.Length <= BLOCK
    modifies buffer, src.mutex, src.dev`trace, src.dev`faults, src.dev`lastFault
    ensures !src.mutex.held
    ensures ReadOutcome(src.dev.store, curr, old(buffer[..]), buffer[..], n, err)
    ensures src.dev.faults == old(src.dev.faults) + if err == NoError || curr >= |src.dev.store| then 0 else 1
    ensures err != NoError ==>
      err == if curr >= |src.dev.store| || src.dev.lastFault == 16007 then EOF else Vddk(src.dev.lastFault)
  {
    if curr < src.Capacity() {
      ClampFits(buffer.Length, curr, src.Capacity());
    }
    hide Splice, Pieces, Requests, Asked, ReadCount, Boundary, ClampLen;
    n, err := src.ReadAt(buffer, curr);
  }

  method WriteToVmdk(dst: DiskConnectHandle, buffer: array<byte>, curr: nat) returns (n: nat, err: IoError)
    requires dst.Valid() && !dst.mutex.held
    modifies dst.mutex, dst.dev
    ensures dst.Valid() && !dst.mutex.held
    ensures WriteOutcome(old(dst.dev.store), dst.dev.store, curr, buffer[..], n, err)
    ensures err == ShortWrite ==> curr + buffer.Length > |dst.dev.store|
    ensures dst.dev.faults == old(dst.dev.faults) + if err == NoError || err == ShortWrite then 0 else 1
    ensures err != NoError && err != ShortWrite ==>
      && dst.dev.trace != []
      && err == if n == BodyLen(curr, buffer.Length) < buffer.Length && dst.dev.trace[|dst.dev.trace| - 1].write
                then Wrapped(dst.dev.lastFault)
                else if dst.dev.lastFault == 16007 then EOF else Vddk(dst.dev.lastFault)
  {
    hide Splice, Pieces, Requests, Asked, Boundary, BodyLen;
    n, err := dst.WriteAt(buffer, curr);
  }

  /** One iteration: read a block, write the whole buffer, report the count of the read. */
  method CopyBlock(src: DiskConnectHandle, dst: DiskConnectHandle, buffer: array<byte>, curr: nat)
    returns (n: nat, r: CloneResult, ghost w: nat)
    requires Ready(src, dst) && buffer.Length <= BLOCK
    modifies buffer, src.mutex, dst.mutex, src.dev`trace, src.dev`faults, src.dev`lastFault, dst.dev
    ensures Ready(src, dst)
    ensures Iteration(old(src.dev.store), old(dst.dev.store), dst.dev.store, curr, old(buffer[..]), buffer[..], w, n, r)
    ensures r.Cloned? || r.ReadFailed? || r.WriteFailed?
    ensures src.dev != dst.dev ==> src.dev.store == old(src.dev.store)
    ensures Blames(src.dev == dst.dev, old(src.dev.faults), src.dev.faults, src.dev.lastFault,
                   old(dst.dev.faults), dst.dev.faults, dst.dev.lastFault, dst.dev.trace, Attempt(curr, buffer.Length, w), r)
    ensures Faults(src, dst) >= old(Faults(src, dst))
    ensures r.ReadFailed? && Faults(src, dst) == old(Faults(src, dst)) ==> curr >= |src.dev.store| && r.err == EOF
    ensures r.WriteFailed? && Faults(src, dst) == old(Faults(src, dst)) ==> curr + buffer.Length > |dst.dev.store|
  {
    hide Splice, ReadOutcome, WriteOutcome, BodyLen, Iteration, Blames;
    ghost var s, d0, p0 := src.dev.store, dst.dev.store, buffer[..];
    var err;
    n, err := ReadFromVmdk(src, buffer, curr);
    if err != NoError {
      r, w := ReadFailed(err), 0;
      ReadStops(s, d0, curr, p0, buffer[..], n, err);
      BlamesRead(src.dev == dst.dev, old(src.dev.faults), src.dev.faults, src.dev.lastFault,
                 old(dst.dev.faults), dst.dev.faults, dst.dev.lastFault, dst.dev.trace, Attempt(curr, buffer.Length, w), err);
      return;
    }
    var writeLen;
    writeLen, err := WriteToVmdk(dst, buffer, curr);
    w := writeLen;
    r := if err != NoError then WriteFailed(err) else Cloned;
    BlamesWrite(src.dev == dst.dev, old(src.dev.faults), src.dev.faults, src.dev.lastFault,
                old(dst.dev.faults), dst.dev.faults, dst.dev.lastFault, dst.dev.trace, Attempt(curr, buffer.Length, w), err);
    BlockIteration(s, d0, dst.dev.store, curr, p0, buffer[..], n, w, err);
  }

  /** What an iteration keeps true of a copy of [lo, max): before the end of the source every byte it
      touched so far is a source byte, and if the range is inside both disks it is copied up to `w`. */
  ghost predicate CopyState(s: seq<byte>, d0: seq<byte>, d: seq<byte>, lo: nat, curr: nat, max: nat, w: nat) {
    && |d| == |d0| && lo <= curr
    && PartlyCopied(s, d0, d, lo, max)
    && (lo < curr ==> curr <= |s| && curr <= |d0| && curr <= max)
    && (lo < max <= |s| && max <= |d0| ==> curr <= w <= max && d == Splice(d0, lo, s[lo..w]))
    && (max <= |s| ==> (Stops(lo, max) <==> Stops(curr, max)))
  }

  lemma CopyStart(s: seq<byte>, d0: seq<byte>, lo: nat, max: nat)
    ensures CopyState(s, d0, d0, lo, lo, max, lo)
  {
  }

  /** Where an iteration takes the offset. */
  lemma OffsetMoves(s: seq<byte>, lo: nat, curr: nat, max: nat, len: nat, n: nat)
    requires lo <= curr < max && curr <= |s| && len == FillLen(|s|, curr, Span(curr, max)) && n == ReadCount(curr, len)
    requires max <= |s| ==> (Stops(lo, max) <==> Stops(curr, max))
    ensures n <= len
    ensures max <= |s| ==> (Stops(lo, max) <==> Stops(curr + n, max)) && (Stops(lo, max) ==> n > 0)
  {
    PartLengths(curr, len);
    if max <= |s| {
      OneIteration(curr, max);
    }
    hide BodyLen, Stops;
  }

  lemma CopyMore(s: seq<byte>, d0: seq<byte>, d1: seq<byte>, d2: seq<byte>, lo: nat, curr: nat, max: nat, w1: nat,
                 p0: seq<byte>, p: seq<byte>, w: nat, n: nat)
    requires CopyState(s, d0, d1, lo, curr, max, w1) && curr < max && |p| == Span(curr, max)
    requires Iteration(s, d1, d2, curr, p0, p, w, n, Cloned)
    ensures CopyState(s, d0, d2, lo, curr + n, max, if curr + |p| < w1 then w1 else curr + |p|)
    ensures max <= |s| && Stops(lo, max) ==> n > 0
  {
    var len := FillLen(|s|, curr, |p|);
    hide Splice, ReadCount, Stops, PartlyCopied;
    OffsetMoves(s, lo, curr, max, len, n);
    PartlyCopiedMore(s, d0, d1, d2, lo, max, curr, p, |p|, len);
    if max <= |s| && max <= |d0| {
      WindowGrows(s, d0, d1, d2, lo, curr, w1, p);
    }
  }

  /** A whole block read and written extends the copied window to its end. */
  lemma WindowGrows(s: seq<byte>, d0: seq<byte>, d1: seq<byte>, d2: seq<byte>, lo: nat, curr: nat, w1: nat, p: seq<byte>)
    requires lo <= curr <= w1 <= |s| && w1 <= |d0| == |d1| && d1 == Splice(d0, lo, s[lo..w1])
    requires curr + |p| <= |s| && curr + |p| <= |d0| && p[..|p|] == s[curr..curr + |p|]
    requires d2 == Splice(d1, curr, p[..|p|])
    ensures d2 == Splice(d0, lo, s[lo..if curr + |p| < w1 then w1 else curr + |p|])
  {
    hide Splice;
    CopyExtends(s, d0, lo, w1, curr, curr + |p|);
  }

  /** Copying a disk onto itself changes nothing. */
  lemma SelfCopy(s: seq<byte>, d: seq<byte>, curr: nat, p0: seq<byte>, p: seq<byte>, w: nat, n: nat, r: CloneResult)
    requires Iteration(s, s, d, curr, p0, p, w, n, r)
    ensures d == s
  {
    var len := FillLen(|s|, curr, |p|);
    if !r.ReadFailed? && w <= len {
      assert p[..w] == p[..len][..w] == s[curr..curr + w];
    }
  }

  /** An iteration that succeeds keeps the account of the bytes behind the source. */
  lemma TailMore(s: seq<byte>, d0: seq<byte>, d1: seq<byte>, d2: seq<byte>, held: seq<byte>, block: seq<byte>, lo: nat, curr: nat, max: nat,
                 p0: seq<byte>, p: seq<byte>, w: nat, n: nat, after: seq<byte>)
    requires TailState(s, d0, d1, held, block, lo, curr, max) && curr < max && |p| == Span(curr, max) && |s| % SECTOR == 0
    requires Iteration(s, d1, d2, curr, p0, p, w, n, Cloned)
    requires p0 == (if max - curr < BLOCK then Zeros(max - curr) else block) && after == (if max - curr < BLOCK then block else p)
    ensures TailState(s, d0, d2, held, after, lo, curr + n, max)
    ensures max > |s| ==> n > 0
  {
    hide Splice, ReadCount, NextOffset, BufferAt, HeldAfter, CrossAt, Stale;
    if max <= |s| {
      TailInside(s, d0, d1, d2, held, block, lo, curr, max, p0, p, w, n, after);
    } else if curr + |p| <= |s| {
      TailBefore(s, d0, d1, d2, held, block, lo, curr, max, p0, p, w, n, after);
    } else {
      TailAcross(s, d0, d1, d2, held, block, lo, curr, max, p0, p, w, n, after);
    }
  }

  /** A write before the end of the source leaves what is behind it alone. */
  lemma WriteBeforeEnd(size: nat, d0: seq<byte>, d1: seq<byte>, d2: seq<byte>, at: nat, q: seq<byte>)
    requires UntouchedPast(size, d0, d1) && at + |q| <= size && at + |q| <= |d1| && d2 == Splice(d1, at, q)
    ensures UntouchedPast(size, d0, d2)
  {
  }

  lemma TailInside(s: seq<byte>, d0: seq<byte>, d1: seq<byte>, d2: seq<byte>, held: seq<byte>, block: seq<byte>, lo: nat, curr: nat, max: nat,
                   p0: seq<byte>, p: seq<byte>, w: nat, n: nat, after: seq<byte>)
    requires TailState(s, d0, d1, held, block, lo, curr, max) && curr < max <= |s| && |p| == Span(curr, max)
    requires Iteration(s, d1, d2, curr, p0, p, w, n, Cloned)
    requires after == (if max - curr < BLOCK then block else p)
    ensures TailState(s, d0, d2, held, after, lo, curr + n, max)
  {
    hide Splice, ReadCount;
    assert p[..|p|] == p;
    WriteBeforeEnd(|s|, d0, d1, d2, curr, p);
    if curr + BLOCK <= max {
      BlockAdvances(curr, max);
    } else {
      assert n >= 0;
    }
  }

  lemma TailBefore(s: seq<byte>, d0: seq<byte>, d1: seq<byte>, d2: seq<byte>, held: seq<byte>, block: seq<byte>, lo: nat, curr: nat, max: nat,
                   p0: seq<byte>, p: seq<byte>, w: nat, n: nat, after: seq<byte>)
    requires TailState(s, d0, d1, held, block, lo, curr, max) && curr < max && |p| == Span(curr, max)
    requires max > |s| && curr + |p| <= |s| && Iteration(s, d1, d2, curr, p0, p, w, n, Cloned) && after == p
    ensures TailState(s, d0, d2, held, after, lo, curr + n, max) && n > 0
  {
    hide Splice, ReadCount, Stale;
    assert p[..|p|] == p;
    WriteBeforeEnd(|s|, d0, d1, d2, curr, p);
    BlockAdvances(curr, max);
  }

  lemma TailAcross(s: seq<byte>, d0: seq<byte>, d1: seq<byte>, d2: seq<byte>, held: seq<byte>, block: seq<byte>, lo: nat, curr: nat, max: nat,
                   p0: seq<byte>, p: seq<byte>, w: nat, n: nat, after: seq<byte>)
    requires TailState(s, d0, d1, held, block, lo, curr, max) && curr < max && |p| == Span(curr, max) && |s| % SECTOR == 0
    requires max > |s| && curr + |p| > |s| && Iteration(s, d1, d2, curr, p0, p, w, n, Cloned) && |after| == BLOCK
    requires p0 == if max - curr < BLOCK then Zeros(max - curr) else block
    ensures TailState(s, d0, d2, held, after, lo, curr + n, max) && n > 0
  {
    hide ReadCount, NextOffset, HeldAfter;
    ReadCountExact(curr, |s| - curr);
    assert curr + n == |s|;
    SpillBytes(s, d0, d1, d2, curr, p0, p);
  }

  lemma SpillBytes(s: seq<byte>, d0: seq<byte>, d1: seq<byte>, d2: seq<byte>, curr: nat, p0: seq<byte>, p: seq<byte>)
    requires UntouchedPast(|s|, d0, d1) && curr < |s| < curr + |p| <= |d0| && |p0| == |p| && p[|s| - curr..] == p0[|s| - curr..]
    requires d2 == Splice(d1, curr, p[..|p|])
    ensures |d2| == |d0| && forall i :: |s| <= i < |d0| ==> d2[i] == if i < curr + |p| then p0[i - curr] else d0[i]
  {
    forall i | |s| <= i < curr + |p|
      ensures d2[i] == p0[i - curr]
    {
      assert p[i - curr] == p[|s| - curr..][i - |s|];
      assert p0[i - curr] == p0[|s| - curr..][i - |s|];
    }
  }

  /** An iteration that fails ends the account. */
  lemma TailFailed(s: seq<byte>, d0: seq<byte>, d1: seq<byte>, d2: seq<byte>, held: seq<byte>, block: seq<byte>, lo: nat, curr: nat, max: nat,
                   p0: seq<byte>, p: seq<byte>, w: nat, n: nat, faulted: bool, r: CloneResult)
    requires TailState(s, d0, d1, held, block, lo, curr, max) && curr < max && |p| == Span(curr, max)
    requires Iteration(s, d1, d2, curr, p0, p, w, n, r) && !r.Cloned?
    requires p0 == if max - curr < BLOCK then Zeros(max - curr) else block
    requires !faulted && r.ReadFailed? ==> curr >= |s| && r.err == EOF
    requires !faulted && r.WriteFailed? ==> curr + |p| > |d1|
    ensures TailOutcome(s, d0, d2, held, lo, max, faulted, r)
  {
    hide Splice, NextOffset, HeldAfter, Stale;
    if d2 == d1 {
      TailKept(s, d0, d1, held, block, lo, curr, max, p, faulted, r);
    } else if max <= |s| || curr + |p| <= |s| {
      WriteBeforeEnd(|s|, d0, d1, d2, curr, p[..w]);
    } else {
      TailCut(s, d0, d1, d2, held, block, lo, curr, max, p0, p, w);
    }
  }

  lemma TailKept(s: seq<byte>, d0: seq<byte>, d: seq<byte>, held: seq<byte>, block: seq<byte>, lo: nat, curr: nat, max: nat,
                 p: seq<byte>, faulted: bool, r: CloneResult)
    requires TailState(s, d0, d, held, block, lo, curr, max) && curr < max && |p| == Span(curr, max) && (r.ReadFailed? || r.WriteFailed?)
    requires r.WriteFailed? ==> curr < |s|
    requires !faulted && r.ReadFailed? ==> curr >= |s| && r.err == EOF
    requires !faulted && r.WriteFailed? ==> curr + |p| > |d|
    ensures TailOutcome(s, d0, d, held, lo, max, faulted, r)
  {
    hide NextOffset, HeldAfter, BufferAt, Stale;
  }

  /** A write over the end of the source that was cut short. */
  lemma TailCut(s: seq<byte>, d0: seq<byte>, d1: seq<byte>, d2: seq<byte>, held: seq<byte>, block: seq<byte>, lo: nat, curr: nat, max: nat,
                p0: seq<byte>, p: seq<byte>, w: nat)
    requires TailState(s, d0, d1, held, block, lo, curr, max) && curr < |s| < max && |p| == Span(curr, max) && curr + |p| > |s|
    requires |p0| == |p| && p[|s| - curr..] == p0[|s| - curr..] && w <= |p| && curr + |p| <= |d0| && d2 == Splice(d1, curr, p[..w])
    requires p0 == if max - curr < BLOCK then Zeros(max - curr) else block
    ensures StaleAtMost(s, d0, d2, held, lo, max)
  {
    hide NextOffset, HeldAfter;
    forall i | |s| <= i < |d0|
      ensures d2[i] == d0[i] || (i < curr + |p| && d2[i] == p0[i - curr])
    {
      if i < curr + w {
        assert p[i - curr] == p[|s| - curr..][i - |s|];
        assert p0[i - curr] == p0[|s| - curr..][i - |s|];
      }
    }
  }

  /** A loop that does not fail ends with everything copied, or without fuel. */
  lemma TailDone(s: seq<byte>, d0: seq<byte>, d: seq<byte>, held: seq<byte>, block: seq<byte>, lo: nat, curr: nat, max: nat,
                 faulted: bool, r: CloneResult)
    requires TailState(s, d0, d, held, block, lo, curr, max) && r == if curr >= max then Cloned else StillRunning
    ensures TailOutcome(s, d0, d, held, lo, max, faulted, r)
    ensures r.Cloned? && lo < max ==> block == HeldAfter(s, held, lo, max)
  {
    hide NextOffset, BufferAt, Stale;
  }

  /** The iterations an area may take: its length. */
  function AreaWork(lo: nat, max: nat): nat {
    if lo < max then max - lo else 0
  }

  /** What copying one area [lo, max) comes to: `s` is the source, `d0` and `d1` the target before
      and after, `used` the iterations made of the `fuel` given, `faulted` whether a device call failed. */
  ghost predicate AreaOutcome(s: seq<byte>, d0: seq<byte>, d1: seq<byte>, lo: nat, max: nat,
                              fuel: nat, used: nat, faulted: bool, r: CloneResult) {
    && used <= fuel
    && PartlyCopied(s, d0, d1, lo, max)
    && (r.Cloned? ==>
          && Stops(lo, max)
          && (lo < max ==> max <= |s| && max <= |d0| && d1 == Splice(d0, lo, s[lo..max]))
          && (lo >= max ==> d1 == d0))
    && (r.ReadFailed? || r.WriteFailed? ==> faulted || max > |s| || max > |d0|)
    && (Stops(lo, max) && max <= |s| ==>
          && (r.Cloned? ==> used <= AreaWork(lo, max))
          && (r.StillRunning? ==> used == fuel < AreaWork(lo, max)))
  }

  lemma AreaDone(s: seq<byte>, d0: seq<byte>, d: seq<byte>, lo: nat, curr: nat, max: nat, w: nat,
                 fuel: nat, used: nat, faulted: bool, r: CloneResult)
    requires CopyState(s, d0, d, lo, curr, max, w) && used <= fuel
    requires Stops(lo, max) && max <= |s| ==> used <= curr - lo
    requires r == if curr >= max then Cloned else StillRunning
    requires curr < max ==> used == fuel
    ensures AreaOutcome(s, d0, d, lo, max, fuel, used, faulted, r)
  {
    if lo >= max {
      assert d == d0;
    }
  }

  lemma StepFailed(s: seq<byte>, d0: seq<byte>, d1: seq<byte>, d2: seq<byte>, lo: nat, curr: nat, max: nat, w1: nat,
                   p0: seq<byte>, p: seq<byte>, w: nat, n: nat, r: CloneResult)
    requires CopyState(s, d0, d1, lo, curr, max, w1) && curr < max && |p| == Span(curr, max)
    requires Iteration(s, d1, d2, curr, p0, p, w, n, r) && !r.Cloned?
    ensures PartlyCopied(s, d0, d2, lo, max)
  {
    if r.WriteFailed? && d2 != d1 {
      PartlyCopiedMore(s, d0, d1, d2, lo, max, curr, p, w, FillLen(|s|, curr, |p|));
    }
    hide Splice, Stops;
  }

  lemma AreaFailed(s: seq<byte>, d0: seq<byte>, d: seq<byte>, lo: nat, max: nat,
                   fuel: nat, used: nat, faulted: bool, r: CloneResult)
    requires PartlyCopied(s, d0, d, lo, max) && used <= fuel && (r.ReadFailed? || r.WriteFailed?)
    requires faulted || max > |s| || max > |d0|
    ensures AreaOutcome(s, d0, d, lo, max, fuel, used, faulted, r)
  {
  }

  lemma StepFate(s: seq<byte>, d1: seq<byte>, d2: seq<byte>, curr: nat, max: nat, p0: seq<byte>, p: seq<byte>,
                 w: nat, n: nat, r: CloneResult)
    requires Iteration(s, d1, d2, curr, p0, p, w, n, r) && curr < max && |p| == Span(curr, max) && |s| % SECTOR == 0
    ensures |d2| == |d1| && (!r.ReadFailed? ==> curr < |s|)
    ensures r.Cloned? ==>
      && Fate(|s|, |d2|, curr + n, max) == Fate(|s|, |d2|, curr, max)
      && (n > 0 || Fate(|s|, |d2|, curr, max) == StillRunning)
  {
    hide Fate, ReadCount;
    if r.Cloned? {
      FateKept(|s|, |d2|, curr, max, n);
    }
  }

  /** Without device errors a failed iteration is the end that was to come. */
  lemma StepEnds(size: nat, room: nat, curr: nat, max: nat, same: bool, s0: nat, s1: nat, sCode: nat,
                 f0: nat, f1: nat, dCode: nat, trace: seq<Request>, at: Attempt, r: CloneResult)
    requires curr < max && (r.ReadFailed? || r.WriteFailed?)
    requires Blames(same, s0, s1, sCode, f0, f1, dCode, trace, at, r) && s1 + f1 == s0 + f0
    requires r.ReadFailed? ==> curr >= size
    requires r.WriteFailed? ==> curr < size && curr + Span(curr, max) > room
    ensures r == Fate(size, room, curr, max)
  {
    if r.WriteFailed? {
      WriteDoesNotFit(size, room, curr, max);
    }
    hide Stops, CrossAt;
  }

  /** One pass through the body of the inner loop. */
  method CopyStep(src: DiskConnectHandle, dst: DiskConnectHandle, block: array<byte>,
                  ghost d0: seq<byte>, ghost held: seq<byte>, lo: nat, curr: nat, max: nat, ghost w: nat)
    returns (n: nat, r: CloneResult, ghost w': nat, ghost at: Attempt)
    requires Ready(src, dst) && block.Length == BLOCK && curr < max
    requires CopyState(src.dev.store, d0, dst.dev.store, lo, curr, max, w)
    requires TailState(src.dev.store, d0, dst.dev.store, held, block[..], lo, curr, max)
    modifies block, src.mutex, dst.mutex, src.dev`trace, src.dev`faults, src.dev`lastFault, dst.dev
    ensures Ready(src, dst) && src.dev.store == old(src.dev.store) && |dst.dev.store| == old(|dst.dev.store|)
    ensures Faults(src, dst) >= old(Faults(src, dst))
    ensures r.Cloned? || r.ReadFailed? || r.WriteFailed?
    ensures Blames(src.dev == dst.dev, old(src.dev.faults), src.dev.faults, src.dev.lastFault,
                   old(dst.dev.faults), dst.dev.faults, dst.dev.lastFault, dst.dev.trace, at, r)
    ensures at.curr == curr && at.len == Span(curr, max)
    ensures r.Cloned? ==>
      && Fate(|src.dev.store|, |dst.dev.store|, curr + n, max) == Fate(|src.dev.store|, |dst.dev.store|, curr, max)
      && (n > 0 || Fate(|src.dev.store|, |dst.dev.store|, curr, max) == StillRunning)
    ensures !r.Cloned? && Faults(src, dst) == old(Faults(src, dst)) ==> r == Fate(|src.dev.store|, |dst.dev.store|, curr, max)
    ensures r.Cloned? ==> CopyState(src.dev.store, d0, dst.dev.store, lo, curr + n, max, w')
    ensures r.Cloned? ==> TailState(src.dev.store, d0, dst.dev.store, held, block[..], lo, curr + n, max)
    ensures r.Cloned? && (max > |src.dev.store| || Stops(lo, max)) ==> n > 0
    ensures !r.Cloned? ==> TailOutcome(src.dev.store, d0, dst.dev.store, held, lo, max, Faults(src, dst) > old(Faults(src, dst)), r)
    ensures !r.Cloned? ==> PartlyCopied(src.dev.store, d0, dst.dev.store, lo, max)
    ensures !r.Cloned? && Faults(src, dst) == old(Faults(src, dst)) ==> max > |src.dev.store| || max > |dst.dev.store|
  {
    hide Splice, Iteration, CopyState, Stops, PartlyCopied, FillLen, TailState, TailOutcome, Fate, Blames;
    ghost var s, d1, b := src.dev.store, dst.dev.store, block[..];
    var buffer := block;
    if max - curr < BLOCK {
      buffer := new byte[max - curr](_ => 0);
      assert buffer[..] == Zeros(max - curr);
    }
    ghost var p0 := buffer[..];
    ghost var stored;
    n, r, stored := CopyBlock(src, dst, buffer, curr);
    ghost var d2, p := dst.dev.store, buffer[..];
    if src.dev == dst.dev {
      SelfCopy(s, d2, curr, p0, p, stored, n, r);
    }
    w' := if curr + buffer.Length < w then w else curr + buffer.Length;
    at := Attempt(curr, buffer.Length, stored);
    StepFate(s, d1, d2, curr, max, p0, p, stored, n, r);
    if !r.Cloned? && Faults(src, dst) == old(Faults(src, dst)) {
      StepEnds(|s|, |d2|, curr, max, src.dev == dst.dev, old(src.dev.faults), src.dev.faults, src.dev.lastFault,
               old(dst.dev.faults), dst.dev.faults, dst.dev.lastFault, dst.dev.trace, at, r);
    }
    if r.Cloned? {
      CopyMore(s, d0, d1, d2, lo, curr, max, w, p0, p, stored, n);
      TailMore(s, d0, d1, d2, held, b, lo, curr, max, p0, p, stored, n, block[..]);
    } else {
      StepFailed(s, d0, d1, d2, lo, curr, max, w, p0, p, stored, n, r);
      TailFailed(s, d0, d1, d2, held, b, lo, curr, max, p0, p, stored, n, Faults(src, dst) > old(Faults(src, dst)), r);
    }
  }

  /** The inner loop of `DumpCloneDisk` over one area, for at most `fuel` iterations. */
  method CopyArea(src: DiskConnectHandle, dst: DiskConnectHandle, block: array<byte>, lo: nat, max: nat, fuel: nat)
    returns (r: CloneResult, used: nat, ghost at: Attempt)
    requires Ready(src, dst) && block.Length == BLOCK
    modifies block, src.mutex, dst.mutex, src.dev`trace, src.dev`faults, src.dev`lastFault, dst.dev
    ensures Ready(src, dst) && src.dev.store == old(src.dev.store)
    ensures Faults(src, dst) >= old(Faults(src, dst))
    ensures AreaOutcome(src.dev.store, old(dst.dev.store), dst.dev.store, lo, max, fuel, used,
                        Faults(src, dst) > old(Faults(src, dst)), r)
    ensures TailOutcome(src.dev.store, old(dst.dev.store), dst.dev.store, old(block[..]), lo, max,
                        Faults(src, dst) > old(Faults(src, dst)), r)
    ensures r.Cloned? && lo < max ==> block[..] == HeldAfter(src.dev.store, old(block[..]), lo, max)
    ensures r.StillRunning? && max > |src.dev.store| ==> fuel < max - lo
    ensures |dst.dev.store| == old(|dst.dev.store|)
    ensures Blames(src.dev == dst.dev, old(src.dev.faults), src.dev.faults, src.dev.lastFault,
                   old(dst.dev.faults), dst.dev.faults, dst.dev.lastFault, dst.dev.trace, at, r)
    ensures r.WriteFailed? ==> lo <= at.curr < max && at.len == Span(at.curr, max)
    ensures Faults(src, dst) == old(Faults(src, dst)) ==>
      r == Fate(|src.dev.store|, |dst.dev.store|, lo, max) || (r.StillRunning? && fuel < AreaWork(lo, max))
  {
    hide Splice, CopyState, Stops, AreaOutcome, PartlyCopied, TailState, TailOutcome, HeldAfter, CrossAt;
    ghost var s, d0, held := src.dev.store, dst.dev.store, block[..];
    ghost var w: nat := lo;
    var curr: nat := lo;
    used, at := 0, Attempt(lo, 0, 0);
    CopyStart(s, d0, lo, max);
    TailStart(s, d0, held, lo, max);
    while curr < max && used < fuel
      invariant Ready(src, dst) && src.dev.store == s
      invariant CopyState(s, d0, dst.dev.store, lo, curr, max, w)
      invariant src.dev.faults == old(src.dev.faults) && dst.dev.faults == old(dst.dev.faults) && used <= fuel
      invariant lo <= curr && |dst.dev.store| == |d0| && Fate(|s|, |d0|, curr, max) == Fate(|s|, |d0|, lo, max)
      invariant used <= curr - lo || Fate(|s|, |d0|, lo, max) == StillRunning
      invariant TailState(s, d0, dst.dev.store, held, block[..], lo, curr, max)
      invariant Stops(lo, max) || max > |s| ==> used <= curr - lo
      decreases fuel - used
    {
      var n, e;
      n, e, w, at := CopyStep(src, dst, block, d0, held, lo, curr, max, w);
      used := used + 1;
      if e != Cloned {
        AreaFailed(s, d0, dst.dev.store, lo, max, fuel, used, Faults(src, dst) > old(Faults(src, dst)), e);
        return e, used, at;
      }
      curr := curr + n;
    }
    r := if curr >= max then Cloned else StillRunning;
    TailDone(s, d0, dst.dev.store, held, block[..], lo, curr, max, Faults(src, dst) > old(Faults(src, dst)), r);
    AreaDone(s, d0, dst.dev.store, lo, curr, max, w, fuel, used, Faults(src, dst) > old(Faults(src, dst)), r);
  }

  // ----- the whole clone

  function AreaStart(dc: DiskChangeInfo, k: nat): int
    requires k < |dc.changedArea|
  {
    dc.startOffset + dc.changedArea[k].start
  }

  function AreaEnd(dc: DiskChangeInfo, k: nat): int
    requires k < |dc.changedArea|
  {
    AreaStart(dc, k) + dc.changedArea[k].length
  }

  /** An area that is not empty does not start before the disk. */
  ghost predicate NonNegative(dc: DiskChangeInfo) {
    forall k :: 0 <= k < |dc.changedArea| && dc.changedArea[k].length > 0 ==> AreaStart(dc, k) >= 0
  }

  predicate InArea(dc: DiskChangeInfo, k: nat, i: nat)
    requires k < |dc.changedArea|
  {
    AreaStart(dc, k) <= i < AreaEnd(dc, k)
  }

  /** Byte `i` is in one of the first `n` areas. */
  ghost predicate InAreas(dc: DiskChangeInfo, n: nat, i: nat)
    requires n <= |dc.changedArea|
  {
    exists k :: 0 <= k < n && InArea(dc, k, i)
  }

  predicate AreaStops(a: ChangedArea, lo: int) {
    a.length <= 0 || (lo >= 0 && Stops(lo, lo + a.length))
  }

  ghost predicate AllStop(dc: DiskChangeInfo) {
    forall k :: 0 <= k < |dc.changedArea| ==> AreaStops(dc.changedArea[k], AreaStart(dc, k))
  }

  ghost predicate AllInside(dc: DiskChangeInfo, size: nat) {
    forall k :: 0 <= k < |dc.changedArea| && dc.changedArea[k].length > 0 ==> AreaEnd(dc, k) <= size
  }

  /** A bound on the iterations of all areas together. */
  function TotalWork(areas: seq<ChangedArea>): nat {
    if areas == [] then 0
    else TotalWork(areas[..|areas| - 1]) + if areas[|areas| - 1].length > 0 then areas[|areas| - 1].length else 0
  }

  /** The target once the first `n` areas are copied. */
  ghost predicate CopiedAreas(s: seq<byte>, d0: seq<byte>, d: seq<byte>, dc: DiskChangeInfo, n: nat)
    requires n <= |dc.changedArea|
  {
    && |d| == |d0|
    && forall i :: 0 <= i < |d0| ==>
         if InAreas(dc, n, i) then i < |s| && d[i] == s[i] else d[i] == d0[i]
  }

  /** What the block buffer holds when the first `k` areas are copied. */
  function HeldBefore(s: seq<byte>, dc: DiskChangeInfo, k: nat): (r: seq<byte>)
    requires k <= |dc.changedArea|
    ensures |r| == BLOCK
  {
    if k == 0 then Zeros(BLOCK)
    else if dc.changedArea[k - 1].length <= 0 || AreaStart(dc, k - 1) < 0 then HeldBefore(s, dc, k - 1)
    else HeldAfter(s, HeldBefore(s, dc, k - 1), AreaStart(dc, k - 1), AreaEnd(dc, k - 1))
  }

  /** Area `k` is reached, being the first that is not inside both disks, and the loop over it
      writes a block over the end of the source that fits the target. */
  ghost predicate Spills(size: nat, room: nat, dc: DiskChangeInfo, k: nat)
    requires k < |dc.changedArea|
  {
    && dc.changedArea[k].length > 0 && AreaStart(dc, k) >= 0 && Crosses(size, room, AreaStart(dc, k), AreaEnd(dc, k))
    && (forall j :: 0 <= j < k ==> AreaStops(dc.changedArea[j], AreaStart(dc, j)))
    && (forall j :: 0 <= j < k && dc.changedArea[j].length > 0 ==> AreaEnd(dc, j) <= size && AreaEnd(dc, j) <= room)
  }

  /** Byte `i` holds what the buffer held of the block before it. */
  ghost predicate SpillByte(s: seq<byte>, room: nat, dc: DiskChangeInfo, k: nat, i: nat, v: byte) {
    && k < |dc.changedArea| && Spills(|s|, room, dc, k)
    && |s| <= i < CrossEnd(|s|, AreaStart(dc, k), AreaEnd(dc, k))
    && Stale(s, HeldBefore(s, dc, k), AreaStart(dc, k), AreaEnd(dc, k), i, v)
  }

  /** The target however the clone ends: outside the areas nothing has changed; inside them a byte is
      as before or copied, as far as the source goes, and behind its end as before or stale. */
  ghost predicate Sound(s: seq<byte>, d0: seq<byte>, d: seq<byte>, dc: DiskChangeInfo) {
    && |d| == |d0|
    && forall i :: 0 <= i < |d0| ==>
         && (!InAreas(dc, |dc.changedArea|, i) ==> d[i] == d0[i])
         && (i < |s| ==> d[i] == d0[i] || d[i] == s[i])
         && (i >= |s| ==> d[i] == d0[i] || exists k :: SpillByte(s, |d0|, dc, k, i, d[i]))
  }

  lemma InAreasNext(dc: DiskChangeInfo, n: nat, i: nat)
    requires n < |dc.changedArea|
    ensures InAreas(dc, n + 1, i) <==> InAreas(dc, n, i) || InArea(dc, n, i)
  {
  }

  lemma InAreasAll(dc: DiskChangeInfo, n: nat, i: nat)
    requires n <= |dc.changedArea| && InAreas(dc, n, i)
    ensures InAreas(dc, |dc.changedArea|, i)
  {
  }

  lemma AreaAdded(s: seq<byte>, d0: seq<byte>, d1: seq<byte>, d2: seq<byte>, dc: DiskChangeInfo, n: nat)
    requires n < |dc.changedArea| && CopiedAreas(s, d0, d1, dc, n)
    requires dc.changedArea[n].length > 0 ==> 0 <= AreaStart(dc, n) && AreaEnd(dc, n) <= |s| && AreaEnd(dc, n) <= |d0|
    requires d2 == if dc.changedArea[n].length > 0 then Splice(d1, AreaStart(dc, n), s[AreaStart(dc, n)..AreaEnd(dc, n)]) else d1
    ensures CopiedAreas(s, d0, d2, dc, n + 1)
  {
    forall i | 0 <= i < |d0|
      ensures if InAreas(dc, n + 1, i) then i < |s| && d2[i] == s[i] else d2[i] == d0[i]
    {
      InAreasNext(dc, n, i);
    }
  }

  lemma AreaCutShort(s: seq<byte>, d0: seq<byte>, d1: seq<byte>, d2: seq<byte>, dc: DiskChangeInfo, n: nat)
    requires n < |dc.changedArea| && CopiedAreas(s, d0, d1, dc, n)
    requires dc.changedArea[n].length > 0 && 0 <= AreaStart(dc, n)
    requires PartlyCopied(s, d1, d2, AreaStart(dc, n), AreaEnd(dc, n))
    requires StaleAtMost(s, d1, d2, HeldBefore(s, dc, n), AreaStart(dc, n), AreaEnd(dc, n))
    requires forall j :: 0 <= j < n ==> AreaStops(dc.changedArea[j], AreaStart(dc, j))
    requires forall j :: 0 <= j < n && dc.changedArea[j].length > 0 ==> AreaEnd(dc, j) <= |s| && AreaEnd(dc, j) <= |d0|
    ensures Sound(s, d0, d2, dc)
  {
    hide CrossAt, HeldBefore, AreaStops, Stale;
    assert |d1| == |d0|;
    forall i | 0 <= i < |d0|
      ensures !InAreas(dc, |dc.changedArea|, i) ==> d2[i] == d0[i]
      ensures i < |s| ==> d2[i] == d0[i] || d2[i] == s[i]
      ensures i >= |s| ==> d2[i] == d0[i] || SpillByte(s, |d0|, dc, n, i, d2[i])
    {
      InAreasNext(dc, n, i);
      if InAreas(dc, n + 1, i) {
        InAreasAll(dc, n + 1, i);
      }
    }
  }

  lemma AllAdded(s: seq<byte>, d0: seq<byte>, d: seq<byte>, dc: DiskChangeInfo)
    requires CopiedAreas(s, d0, d, dc, |dc.changedArea|)
    ensures Sound(s, d0, d, dc)
  {
    hide SpillByte;
  }

  /** The clone after `n` areas, having used `used` iterations. */
  ghost predicate CloneState(s: seq<byte>, d0: seq<byte>, d: seq<byte>, dc: DiskChangeInfo, n: nat, used: nat)
    requires n <= |dc.changedArea|
  {
    && CopiedAreas(s, d0, d, dc, n)
    && (forall j :: 0 <= j < n ==> AreaStops(dc.changedArea[j], AreaStart(dc, j)))
    && (forall j :: 0 <= j < n && dc.changedArea[j].length > 0 ==> AreaEnd(dc, j) <= |s| && AreaEnd(dc, j) <= |d0|)
    && used <= TotalWork(dc.changedArea[..n])
  }

  /** What a clone comes to: whatever it returns, the target only changed inside the areas, to source
      bytes or, behind the end of the source, to stale ones; success means every area is copied;
      without device errors and with every area on both disks it succeeds, given fuel for its work,
      exactly when every area meets the stopping condition; and without device errors and given that
      fuel, an area that spills leaves all its stale bytes. */
  ghost predicate CloneOutcome(s: seq<byte>, d0: seq<byte>, d: seq<byte>, dc: DiskChangeInfo, fuel: nat, faulted: bool, r: CloneResult) {
    && Sound(s, d0, d, dc)
    && (r.Cloned? ==>
          AllStop(dc) && AllInside(dc, |s|) && AllInside(dc, |d0|) && CopiedAreas(s, d0, d, dc, |dc.changedArea|))
    && (!faulted && AllInside(dc, |s|) && AllInside(dc, |d0|) ==>
          && (AllStop(dc) && fuel >= TotalWork(dc.changedArea) ==> r.Cloned?)
          && (!AllStop(dc) ==> r.StillRunning?))
    && (!faulted && fuel >= TotalWork(dc.changedArea) ==>
          forall k :: 0 <= k < |dc.changedArea| && Spills(|s|, |d0|, dc, k) ==> Spilt(s, d, dc, k, r))
  }

  ghost predicate Spilt(s: seq<byte>, d: seq<byte>, dc: DiskChangeInfo, k: nat, r: CloneResult)
    requires k < |dc.changedArea| && Spills(|s|, |d|, dc, k)
  {
    r == ReadFailed(EOF) && AllStale(s, d, HeldBefore(s, dc, k), AreaStart(dc, k), AreaEnd(dc, k))
  }

  lemma WorkNext(areas: seq<ChangedArea>, n: nat)
    requires n < |areas|
    ensures TotalWork(areas[..n + 1]) == TotalWork(areas[..n]) + if areas[n].length > 0 then areas[n].length else 0
  {
    assert areas[..n + 1][..n] == areas[..n];
  }

  lemma {:induction false} WorkGrows(areas: seq<ChangedArea>, n: nat)
    requires n <= |areas|
    ensures TotalWork(areas[..n]) <= TotalWork(areas)
    decreases |areas| - n
  {
    if n == |areas| {
      assert areas[..n] == areas;
    } else {
      WorkNext(areas, n);
      WorkGrows(areas, n + 1);
    }
  }

  lemma CloneSkips(s: seq<byte>, d0: seq<byte>, d: seq<byte>, dc: DiskChangeInfo, n: nat, used: nat)
    requires n < |dc.changedArea| && CloneState(s, d0, d, dc, n, used) && dc.changedArea[n].length <= 0
    ensures CloneState(s, d0, d, dc, n + 1, used)
  {
    WorkNext(dc.changedArea, n);
    AreaAdded(s, d0, d, d, dc, n);
    hide CopiedAreas, AllStop, AllInside, TotalWork;
  }

  lemma CloneAdvances(s: seq<byte>, d0: seq<byte>, d1: seq<byte>, d2: seq<byte>, dc: DiskChangeInfo, n: nat, used: nat,
                      fuel: nat, more: nat, faulted: bool)
    requires n < |dc.changedArea| && CloneState(s, d0, d1, dc, n, used) && dc.changedArea[n].length > 0 && AreaStart(dc, n) >= 0
    requires AreaOutcome(s, d1, d2, AreaStart(dc, n), AreaEnd(dc, n), fuel, more, faulted, Cloned)
    ensures CloneState(s, d0, d2, dc, n + 1, used + more)
  {
    WorkNext(dc.changedArea, n);
    assert |d1| == |d0|;
    AreaAdded(s, d0, d1, d2, dc, n);
    hide CopiedAreas, TotalWork, Stops, PartlyCopied, Splice;
    assert AreaStops(dc.changedArea[n], AreaStart(dc, n));
  }

  lemma CloneCutShort(s: seq<byte>, d0: seq<byte>, d1: seq<byte>, d2: seq<byte>, dc: DiskChangeInfo, n: nat, used: nat,
                      fuel: nat, more: nat, faulted: bool, r: CloneResult)
    requires n < |dc.changedArea| && CloneState(s, d0, d1, dc, n, used) && dc.changedArea[n].length > 0 && AreaStart(dc, n) >= 0
    requires used <= fuel && !r.Cloned?
    requires AreaOutcome(s, d1, d2, AreaStart(dc, n), AreaEnd(dc, n), fuel - used, more, faulted, r)
    requires TailOutcome(s, d1, d2, HeldBefore(s, dc, n), AreaStart(dc, n), AreaEnd(dc, n), faulted, r)
    requires r.StillRunning? && AreaEnd(dc, n) > |s| ==> fuel - used < AreaEnd(dc, n) - AreaStart(dc, n)
    ensures CloneOutcome(s, d0, d2, dc, fuel, faulted, r)
  {
    hide CopiedAreas, TotalWork, Stops, PartlyCopied, Splice, Sound, Spilt, CrossAt, HeldBefore, StaleAtMost, AllStale;
    SameSize(s, d0, d1, dc, n, used);
    SizeKept(s, d1, d2, AreaStart(dc, n), AreaEnd(dc, n), fuel - used, more, faulted, r);
    AreaCutShort(s, d0, d1, d2, dc, n);
    WorkNext(dc.changedArea, n);
    WorkGrows(dc.changedArea, n + 1);
    forall k | 0 <= k < |dc.changedArea| && Spills(|s|, |d0|, dc, k) && !faulted && fuel >= TotalWork(dc.changedArea)
      ensures Spilt(s, d2, dc, k, r)
    {
      SpillEnds(s, d0, d1, d2, dc, n, used, fuel, more, r, k);
    }
    if AllInside(dc, |s|) && AllInside(dc, |d0|) {
      assert AreaEnd(dc, n) <= |s| && AreaEnd(dc, n) <= |d0|;
      if AllStop(dc) {
        assert AreaStops(dc.changedArea[n], AreaStart(dc, n));
      }
    }
  }

  lemma SameSize(s: seq<byte>, d0: seq<byte>, d: seq<byte>, dc: DiskChangeInfo, n: nat, used: nat)
    requires n <= |dc.changedArea| && CloneState(s, d0, d, dc, n, used)
    ensures |d| == |d0|
  {
  }

  lemma SizeKept(s: seq<byte>, d1: seq<byte>, d2: seq<byte>, lo: nat, max: nat, fuel: nat, used: nat, faulted: bool, r: CloneResult)
    requires AreaOutcome(s, d1, d2, lo, max, fuel, used, faulted, r)
    ensures |d2| == |d1|
  {
    hide Splice, Stops;
  }

  /** Only the area the clone stopped in can spill, and if it does the clone stopped for that. */
  lemma SpillEnds(s: seq<byte>, d0: seq<byte>, d1: seq<byte>, d2: seq<byte>, dc: DiskChangeInfo, n: nat, used: nat,
                  fuel: nat, more: nat, r: CloneResult, k: nat)
    requires n < |dc.changedArea| && CloneState(s, d0, d1, dc, n, used) && dc.changedArea[n].length > 0 && AreaStart(dc, n) >= 0
    requires used <= fuel && !r.Cloned? && |d1| == |d0| == |d2|
    requires AreaOutcome(s, d1, d2, AreaStart(dc, n), AreaEnd(dc, n), fuel - used, more, false, r)
    requires TailOutcome(s, d1, d2, HeldBefore(s, dc, n), AreaStart(dc, n), AreaEnd(dc, n), false, r)
    requires r.StillRunning? && AreaEnd(dc, n) > |s| ==> fuel - used < AreaEnd(dc, n) - AreaStart(dc, n)
    requires fuel >= TotalWork(dc.changedArea[..n + 1])
    requires k < |dc.changedArea| && Spills(|s|, |d0|, dc, k)
    ensures Spilt(s, d2, dc, k, r)
  {
    hide CopiedAreas, TotalWork, Stops, PartlyCopied, Splice, CrossAt, HeldBefore, StaleAtMost, AllStale;
    WorkNext(dc.changedArea, n);
    assert k >= n;
    assert k > n ==> AreaStops(dc.changedArea[n], AreaStart(dc, n));
  }

  lemma CloneEnds(s: seq<byte>, d0: seq<byte>, d: seq<byte>, dc: DiskChangeInfo, used: nat, fuel: nat, faulted: bool)
    requires CloneState(s, d0, d, dc, |dc.changedArea|, used)
    ensures CloneOutcome(s, d0, d, dc, fuel, faulted, Cloned)
  {
    hide CopiedAreas, TotalWork, AreaStops, Sound, CrossAt;
    SameSize(s, d0, d, dc, |dc.changedArea|, used);
    AllAdded(s, d0, d, dc);
  }

  lemma HeldSteps(s: seq<byte>, dc: DiskChangeInfo)
    ensures HeldBefore(s, dc, 0) == Zeros(BLOCK)
  {
  }

  lemma HeldNext(s: seq<byte>, dc: DiskChangeInfo, k: nat)
    requires k < |dc.changedArea| && NonNegative(dc)
    ensures HeldBefore(s, dc, k + 1) ==
      if dc.changedArea[k].length <= 0 then HeldBefore(s, dc, k)
      else HeldAfter(s, HeldBefore(s, dc, k), AreaStart(dc, k), AreaEnd(dc, k))
  {
  }

  lemma CloneStarts(s: seq<byte>, d0: seq<byte>, dc: DiskChangeInfo)
    ensures CloneState(s, d0, d0, dc, 0, 0)
  {
  }

  /** How a clone from area `k` on ends without device errors, given the iterations it takes: as the
      first area that does not go through does. */
  function Verdict(size: nat, room: nat, dc: DiskChangeInfo, k: nat): CloneResult
    requires k <= |dc.changedArea|
    decreases |dc.changedArea| - k
  {
    if k == |dc.changedArea| then Cloned
    else if dc.changedArea[k].length <= 0 || AreaStart(dc, k) < 0 then Verdict(size, room, dc, k + 1)
    else
      var fate := Fate(size, room, AreaStart(dc, k), AreaEnd(dc, k));
      if fate == Cloned then Verdict(size, room, dc, k + 1) else fate
  }

  lemma VerdictNext(size: nat, room: nat, dc: DiskChangeInfo, k: nat)
    requires k < |dc.changedArea| && (dc.changedArea[k].length > 0 ==> AreaStart(dc, k) >= 0)
    ensures Verdict(size, room, dc, k) ==
      if dc.changedArea[k].length <= 0 then Verdict(size, room, dc, k + 1)
      else
        var fate := Fate(size, room, AreaStart(dc, k), AreaEnd(dc, k));
        if fate == Cloned then Verdict(size, room, dc, k + 1) else fate
  {
    hide Fate;
  }

  /** The block is one of the loop over some area. */
  ghost predicate InSomeArea(dc: DiskChangeInfo, at: Attempt) {
    exists k: nat :: k < |dc.changedArea| && AreaStart(dc, k) <= at.curr < AreaEnd(dc, k) && at.len == Span(at.curr, AreaEnd(dc, k))
  }

  /** Without device errors the clone ends as its sizes and areas say, unless it runs out of fuel. */
  ghost predicate Ends(size: nat, room: nat, dc: DiskChangeInfo, fuel: nat, r: CloneResult) {
    r == Verdict(size, room, dc, 0) || (r.StillRunning? && fuel < TotalWork(dc.changedArea))
  }

  lemma StoppedHere(s: seq<byte>, d0: seq<byte>, d: seq<byte>, dc: DiskChangeInfo, k: nat, used: nat, room: nat, fuel: nat, r: CloneResult)
    requires k < |dc.changedArea| && CloneState(s, d0, d, dc, k, used) && dc.changedArea[k].length > 0 && AreaStart(dc, k) >= 0
    requires used <= fuel && r != Cloned && Verdict(|s|, room, dc, k) == Verdict(|s|, room, dc, 0)
    requires r == Fate(|s|, room, AreaStart(dc, k), AreaEnd(dc, k)) || (r.StillRunning? && fuel - used < AreaWork(AreaStart(dc, k), AreaEnd(dc, k)))
    ensures Ends(|s|, room, dc, fuel, r)
  {
    hide Fate, Verdict, CopiedAreas, AreaStops, TotalWork;
    VerdictNext(|s|, room, dc, k);
    WorkNext(dc.changedArea, k);
    WorkGrows(dc.changedArea, k + 1);
  }

  /** `DumpCloneDisk`, with at most `fuel` iterations in all. */
  method DumpCloneDisk(src: DiskConnectHandle, dst: DiskConnectHandle, dc: DiskChangeInfo, fuel: nat)
    returns (r: CloneResult, ghost at: Attempt)
    requires Ready(src, dst) && NonNegative(dc)
    modifies src.mutex, dst.mutex, src.dev`trace, src.dev`faults, src.dev`lastFault, dst.dev
    ensures Ready(src, dst) && src.dev.store == old(src.dev.store)
    ensures CloneOutcome(src.dev.store, old(dst.dev.store), dst.dev.store, dc, fuel,
                         Faults(src, dst) > old(Faults(src, dst)), r)
    ensures Blames(src.dev == dst.dev, old(src.dev.faults), src.dev.faults, src.dev.lastFault,
                   old(dst.dev.faults), dst.dev.faults, dst.dev.lastFault, dst.dev.trace, at, r)
    ensures r.WriteFailed? ==> InSomeArea(dc, at)
    ensures Faults(src, dst) == old(Faults(src, dst)) ==> Ends(|src.dev.store|, |dst.dev.store|, dc, fuel, r)
  {
    hide CloneState, CloneOutcome, AreaOutcome, TotalWork, AllStop, AllInside, TailOutcome, HeldBefore, Verdict, Fate, Ends;
    ghost var s, d0 := src.dev.store, dst.dev.store;
    var block := new byte[BLOCK](_ => 0);
    assert block[..] == Zeros(BLOCK);
    HeldSteps(s, dc);
    var k, used: nat := 0, 0;
    at := Attempt(0, 0, 0);
    CloneStarts(s, d0, dc);
    while k < |dc.changedArea|
      invariant 0 <= k <= |dc.changedArea| && used <= fuel
      invariant Ready(src, dst) && src.dev.store == s && fresh(block) && |dst.dev.store| == |d0|
      invariant src.dev.faults == old(src.dev.faults) && dst.dev.faults == old(dst.dev.faults)
      invariant Verdict(|s|, |d0|, dc, k) == Verdict(|s|, |d0|, dc, 0)
      invariant CloneState(s, d0, dst.dev.store, dc, k, used)
      invariant block[..] == HeldBefore(s, dc, k)
    {
      var area := dc.changedArea[k];
      ghost var d1 := dst.dev.store;
      HeldNext(s, dc, k);
      VerdictNext(|s|, |d0|, dc, k);
      if area.length > 0 {
        var currOffset := dc.startOffset + area.start;
        var e, more;
        e, more, at := CopyArea(src, dst, block, currOffset, currOffset + area.length, fuel - used);
        ghost var faulted := Faults(src, dst) > old(Faults(src, dst));
        UsedAtMost(s, d1, dst.dev.store, currOffset, currOffset + area.length, fuel - used, more, faulted, e);
        if e != Cloned {
          CloneCutShort(s, d0, d1, dst.dev.store, dc, k, used, fuel, more, faulted, e);
          if !faulted {
            StoppedHere(s, d0, d1, dc, k, used, |d0|, fuel, e);
          }
          return e, at;
        }
        CloneAdvances(s, d0, d1, dst.dev.store, dc, k, used, fuel - used, more, faulted);
        used := used + more;
      } else {
        CloneSkips(s, d0, d1, dc, k, used);
      }
      k := k + 1;
    }
    CloneEnds(s, d0, dst.dev.store, dc, used, fuel, false);
    VerdictEnds(|s|, |d0|, dc, fuel);
    return Cloned, at;
  }

  lemma VerdictEnds(size: nat, room: nat, dc: DiskChangeInfo, fuel: nat)
    requires Verdict(size, room, dc, |dc.changedArea|) == Verdict(size, room, dc, 0)
    ensures Ends(size, room, dc, fuel, Cloned)
  {
  }

  lemma UsedAtMost(s: seq<byte>, d0: seq<byte>, d1: seq<byte>, lo: nat, max: nat, fuel: nat, used: nat, faulted: bool, r: CloneResult)
    requires AreaOutcome(s, d0, d1, lo, max, fuel, used, faulted, r)
    ensures used <= fuel
  {
  }
}
