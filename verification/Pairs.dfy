/** An aligned and a misaligned call side by side: exactly when every schedule of the two is
    explained by one of the two orders. */
module Pairs {
  import opened Options
  import opened Bytes
  import opened Layout
  import opened DiskHandle
  import opened Protocol
  import opened Locks
  import opened LostUpdate
  import opened Serial
  import opened Order
  import opened Sequential
  import opened Apart
  import opened Exact

  // ----- the condition

  /** Transfer `a` overlaps the sectors of part `p`. */
  predicate Meets(a: Job, p: Piece) {
    a.len > 0 && a.off < (p.start + p.num) * SECTOR && p.start * SECTOR < a.off + a.len
  }

  ghost predicate MeetsTwoParts(a: Job, b: Job) {
    exists j, k :: 0 <= j < k < |b.Parts()| && Meets(a, b.Parts()[j]) && Meets(a, b.Parts()[k])
  }

  /** The aligned transfer `a` neither writes a sector that the write `b` only covers in part, nor
      conflicts with two device parts of `b`. */
  ghost predicate Compatible(a: Job, b: Job) {
    && (a.write && b.write ==> !CoversPartial(a, b))
    && (a.write || b.write ==> !MeetsTwoParts(a, b))
  }

  /** The bytes of `a` and the bytes [lo, hi) have none in common. */
  predicate Beside(a: Job, lo: nat, hi: nat) {
    lo >= hi || a.len == 0 || a.off + a.len <= lo || hi <= a.off
  }

  /** Byte `x` of a transfer belongs to one of the parts below `k` or to one of the others. */
  lemma {:induction false} PartBefore(b: Job, k: nat, x: nat) returns (j: nat)
    requires k <= |b.Parts()| && b.off <= x < b.off + b.Filled(k)
    ensures j < k && b.off + b.Parts()[j].lo <= x < b.off + b.Parts()[j].hi
  {
    if k == 0 {
      FilledStart(b);
      assert false;
    } else {
      FilledStep(b, k - 1);
      if x >= b.off + b.Filled(k - 1) {
        j := k - 1;
      } else {
        j := PartBefore(b, k - 1, x);
      }
    }
  }

  lemma {:induction false} PartAfter(b: Job, k: nat, x: nat) returns (j: nat)
    requires k <= |b.Parts()| && b.off + b.Filled(k) <= x < b.off + b.len
    ensures k <= j < |b.Parts()| && b.off + b.Parts()[j].lo <= x < b.off + b.Parts()[j].hi
    decreases |b.Parts()| - k
  {
    if k == |b.Parts()| {
      FilledStart(b);
      assert false;
    } else {
      FilledStep(b, k);
      if x < b.off + b.Filled(k + 1) {
        j := k;
      } else {
        j := PartAfter(b, k + 1, x);
      }
    }
  }

  lemma MeetsAt(a: Job, b: Job, j: nat, x: nat)
    requires j < |b.Parts()| && b.off + b.Parts()[j].lo <= x < b.off + b.Parts()[j].hi && a.off <= x < a.off + a.len
    ensures Meets(a, b.Parts()[j])
  {
    PiecesTile(b.off, b.len);
    assert PieceFits(b.Parts()[j], b.off, b.len);
    hide Pieces;
  }

  /** What `a` overlaps of `b` lies on one side of any boundary between two parts. */
  lemma OneSide(a: Job, b: Job, k: nat)
    requires !MeetsTwoParts(a, b) && k <= |b.Parts()|
    ensures Beside(a, b.off, b.off + b.Filled(k)) || Beside(a, b.off + b.Filled(k), b.off + b.len)
  {
    hide Pieces;
    if !Beside(a, b.off, b.off + b.Filled(k)) && !Beside(a, b.off + b.Filled(k), b.off + b.len) {
      var x := if a.off < b.off then b.off else a.off;
      var y := if a.off < b.off + b.Filled(k) then b.off + b.Filled(k) else a.off;
      var i := PartBefore(b, k, x);
      var j := PartAfter(b, k, y);
      MeetsAt(a, b, i, x);
      MeetsAt(a, b, j, y);
    }
  }

  // ----- the two ways a moment can be explained

  /** The disk with the first `m` bytes of a transfer. */
  function Applied(job: Job, m: nat, d: seq<byte>): (r: seq<byte>)
    ensures |r| == |d|
  {
    if job.write && m <= |job.data| && job.off + m <= |d| then Splice(d, job.off, job.data[..m]) else d
  }

  /** A read has the first `m` bytes of its range as disk `d` holds them. */
  ghost predicate Holds(job: Job, m: nat, buf: seq<byte>, d: seq<byte>) {
    if job.write then buf == [] else |buf| == m && job.off + m <= |d| && buf == d[job.off..job.off + m]
  }

  ghost predicate AlignedFirst(d0: seq<byte>, disk: seq<byte>, a: Job, m: nat, abuf: seq<byte>, b: Job, n: nat, bbuf: seq<byte>) {
    && disk == Applied(b, n, Applied(a, m, d0))
    && Holds(a, m, abuf, d0) && Holds(b, n, bbuf, Applied(a, m, d0))
  }

  /** What is left of `b` does not touch `a`. */
  ghost predicate AlignedLast(d0: seq<byte>, disk: seq<byte>, a: Job, m: nat, abuf: seq<byte>, b: Job, n: nat, bbuf: seq<byte>) {
    && disk == Applied(a, m, Applied(b, n, d0))
    && Holds(b, n, bbuf, d0) && Holds(a, m, abuf, Applied(b, n, d0))
    && m == a.len && (a.write || b.write ==> Beside(a, b.off + n, b.off + b.len))
  }

  ghost predicate Explained(d0: seq<byte>, disk: seq<byte>, a: Job, m: nat, abuf: seq<byte>, b: Job, n: nat, bbuf: seq<byte>) {
    AlignedFirst(d0, disk, a, m, abuf, b, n, bbuf) || AlignedLast(d0, disk, a, m, abuf, b, n, bbuf)
  }

  lemma AppliedNothing(job: Job, d: seq<byte>)
    ensures Applied(job, 0, d) == d
  {
    if job.off <= |d| {
      assert job.data[..0] == [];
      SpliceNothing(d, job.off);
    }
  }

  /** Transfers beside each other can be applied in either order. */
  lemma AppliedCommute(a: Job, m: nat, b: Job, n: nat, d: seq<byte>)
    requires m == a.len && a.Fits(|d|) && n <= b.len && b.Fits(|d|)
    requires a.write && b.write ==> Beside(a, b.off, b.off + n)
    ensures Applied(a, m, Applied(b, n, d)) == Applied(b, n, Applied(a, m, d))
  {
    if n == 0 {
      AppliedNothing(b, d);
      AppliedNothing(b, Applied(a, m, d));
    } else if m == 0 {
      AppliedNothing(a, d);
      AppliedNothing(a, Applied(b, n, d));
    } else if a.write && b.write {
      hide Splice;
      SpliceCommutes(d, a.off, a.data[..m], b.off, b.data[..n]);
    }
  }

  /** A transfer does not change bytes beside it. */
  lemma AppliedBeside(a: Job, m: nat, d: seq<byte>, lo: nat, hi: nat)
    requires m == a.len && a.Fits(|d|) && lo <= hi <= |d| && (a.write ==> Beside(a, lo, hi))
    ensures Applied(a, m, d)[lo..hi] == d[lo..hi]
  {
    if m == 0 {
      AppliedNothing(a, d);
    } else if lo < hi {
      assert forall x :: lo <= x < hi ==> Applied(a, m, d)[x] == d[x];
    }
  }

  lemma PartBeside(b: Job, n: nat, d: seq<byte>, a: Job)
    requires n <= b.len && b.Fits(|d|) && a.off + a.len <= |d| && (b.write ==> Beside(a, b.off, b.off + n))
    ensures Applied(b, n, d)[a.off..a.off + a.len] == d[a.off..a.off + a.len]
  {
    if n == 0 {
      AppliedNothing(b, d);
    }
  }

  /** The aligned call's one device call. */
  lemma AlignedLands(d0: seq<byte>, disk: seq<byte>, a: Job, abuf: seq<byte>, b: Job, n: nat, bbuf: seq<byte>, after: seq<byte>, got: seq<byte>)
    requires a.Fits(|d0|) && b.Fits(|d0|) && n <= b.len
    requires a.write || b.write ==> Beside(a, b.off, b.off + n) || Beside(a, b.off + n, b.off + b.len)
    requires AlignedFirst(d0, disk, a, 0, abuf, b, n, bbuf)
    requires after == Applied(a, a.len, disk) && got == if a.write then [] else disk[a.off..a.off + a.len]
    ensures Explained(d0, after, a, a.len, got, b, n, bbuf)
  {
    hide Applied;
    AppliedNothing(a, d0);
    assert disk == Applied(b, n, d0);
    if a.write || b.write ==> Beside(a, b.off, b.off + n) {
      AppliedCommute(a, a.len, b, n, d0);
      if !b.write {
        AppliedBeside(a, a.len, d0, b.off, b.off + n);
      }
      if !a.write {
        PartBeside(b, n, d0, a);
        hide Beside;
        assert got == d0[a.off..a.off + a.len];
        ReadsChangeNothing(a, a.len, d0);
      }
      assert AlignedFirst(d0, after, a, a.len, got, b, n, bbuf);
    } else {
      assert AlignedLast(d0, after, a, a.len, got, b, n, bbuf);
    }
  }

  lemma ReadsChangeNothing(job: Job, m: nat, d: seq<byte>)
    requires !job.write
    ensures Applied(job, m, d) == d
  {
  }

  /** One more part of the misaligned call. */
  lemma PartLands(d0: seq<byte>, disk: seq<byte>, a: Job, m: nat, abuf: seq<byte>, b: Job, n: nat, bbuf: seq<byte>, more: nat,
                  after: seq<byte>, got: seq<byte>)
    requires a.Fits(|d0|) && b.Fits(|d0|) && m <= a.len && n <= more <= b.len
    requires Explained(d0, disk, a, m, abuf, b, n, bbuf) && |disk| == |d0|
    requires after == if b.write then Splice(disk, b.off + n, b.data[n..more]) else disk
    requires got == if b.write then bbuf else bbuf + disk[b.off + n..b.off + more]
    ensures Explained(d0, after, a, m, abuf, b, more, got)
  {
    if AlignedFirst(d0, disk, a, m, abuf, b, n, bbuf) {
      PartAfterAligned(d0, disk, a, m, abuf, b, n, bbuf, more, after, got);
    } else {
      PartBeforeAligned(d0, disk, a, m, abuf, b, n, bbuf, more, after, got);
    }
    hide AlignedFirst, AlignedLast;
  }

  /** A part extends what is applied of its transfer. */
  lemma AppliedMore(b: Job, n: nat, more: nat, d: seq<byte>)
    requires b.write && b.Fits(|d|) && n <= more <= b.len
    ensures Splice(Applied(b, n, d), b.off + n, b.data[n..more]) == Applied(b, more, d)
  {
    hide Splice;
    SpliceExtends(d, b.off, b.data, n, more);
  }

  lemma PartAfterAligned(d0: seq<byte>, disk: seq<byte>, a: Job, m: nat, abuf: seq<byte>, b: Job, n: nat, bbuf: seq<byte>, more: nat,
                         after: seq<byte>, got: seq<byte>)
    requires a.Fits(|d0|) && b.Fits(|d0|) && n <= more <= b.len
    requires AlignedFirst(d0, disk, a, m, abuf, b, n, bbuf) && |disk| == |d0|
    requires after == if b.write then Splice(disk, b.off + n, b.data[n..more]) else disk
    requires got == if b.write then bbuf else bbuf + disk[b.off + n..b.off + more]
    ensures AlignedFirst(d0, after, a, m, abuf, b, more, got)
  {
    hide Applied;
    var base := Applied(a, m, d0);
    if b.write {
      AppliedMore(b, n, more, base);
    } else {
      ReadsChangeNothing(b, n, base);
      ReadsChangeNothing(b, more, base);
      assert base[b.off..b.off + n] + base[b.off + n..b.off + more] == base[b.off..b.off + more];
    }
  }

  lemma PartBeforeAligned(d0: seq<byte>, disk: seq<byte>, a: Job, m: nat, abuf: seq<byte>, b: Job, n: nat, bbuf: seq<byte>, more: nat,
                          after: seq<byte>, got: seq<byte>)
    requires a.Fits(|d0|) && b.Fits(|d0|) && n <= more <= b.len
    requires AlignedLast(d0, disk, a, m, abuf, b, n, bbuf) && |disk| == |d0|
    requires after == if b.write then Splice(disk, b.off + n, b.data[n..more]) else disk
    requires got == if b.write then bbuf else bbuf + disk[b.off + n..b.off + more]
    ensures AlignedLast(d0, after, a, m, abuf, b, more, got)
  {
    hide Applied, Splice, Beside;
    var base := Applied(b, n, d0);
    if b.write {
      AppliedMore(b, n, more, d0);
      PartAndAligned(a, b, n, more, base);
      if !a.write {
        ReadsAround(a, b, n, more, base);
      }
      NoneLeft(a, b, n, more);
    } else {
      ReadsChangeNothing(b, n, d0);
      ReadsChangeNothing(b, more, d0);
      NoneLeft(a, b, n, more);
      AppliedBeside(a, m, d0, b.off + n, b.off + more);
      assert d0[b.off..b.off + n] + d0[b.off + n..b.off + more] == d0[b.off..b.off + more];
    }
  }

  lemma NoneLeft(a: Job, b: Job, n: nat, more: nat)
    requires n <= more <= b.len
    ensures Beside(a, b.off + n, b.off + b.len) ==> Beside(a, b.off + more, b.off + b.len) && Beside(a, b.off + n, b.off + more)
  {
  }

  lemma ReadsAround(a: Job, b: Job, n: nat, more: nat, d: seq<byte>)
    requires b.write && a.Fits(|d|) && b.Fits(|d|) && n <= more <= b.len && Beside(a, b.off + n, b.off + b.len)
    ensures Splice(d, b.off + n, b.data[n..more])[a.off..a.off + a.len] == d[a.off..a.off + a.len]
  {
    if n == more {
      assert b.data[n..more] == [];
      SpliceNothing(d, b.off + n);
    }
  }

  lemma PartAndAligned(a: Job, b: Job, n: nat, more: nat, d: seq<byte>)
    requires b.write && a.Fits(|d|) && b.Fits(|d|) && n <= more <= b.len && Beside(a, b.off + n, b.off + b.len)
    ensures Splice(Applied(a, a.len, d), b.off + n, b.data[n..more]) == Applied(a, a.len, Splice(d, b.off + n, b.data[n..more]))
  {
    var part := b.data[n..more];
    if n == more {
      assert part == [];
      SpliceNothing(d, b.off + n);
      SpliceNothing(Applied(a, a.len, d), b.off + n);
    } else if a.len == 0 {
      AppliedNothing(a, d);
      AppliedNothing(a, Splice(d, b.off + n, part));
    } else if a.write {
      SpliceCommutes(d, a.off, a.data[..a.len], b.off + n, part);
    }
  }

  // ----- every moment of every schedule

  /** How much of its transfer a thread is through with, and what it has read. */
  function Through(ph: Phase): nat {
    match ph
    case Running(job, k, _, _, _) => if k <= |job.Parts()| then job.Filled(k) else 0
    case Returned(Some(job), n, buf, _) => if job.write then n else |buf|
    case Done(Some(job), n, buf, _) => if job.write then n else |buf|
    case _ => 0
  }

  function Got(ph: Phase): seq<byte> {
    match ph
    case Running(_, _, _, buf, _) => buf
    case Returned(_, _, buf, _) => buf
    case Done(_, _, buf, _) => buf
    case _ => []
  }

  /** The two calls: `t` aligned, `u` misaligned. */
  ghost predicate TwoCalls(c: Config, t: nat, u: nat) {
    && c.Valid() && Positioned(c) && |c.calls| == 2 && t < 2 && u < 2 && t != u
    && JobOf(c, t).Some? && !JobOf(c, t).value.Locked() && MisalignedCall(c, u)
  }

  ghost predicate Consistent(c: Config, s: State, t: nat, u: nat)
    requires TwoCalls(c, t, u)
  {
    && |s.phases| == 2
    && Explained(c.d0, s.disk, JobOf(c, t).value, Through(s.phases[t]), Got(s.phases[t]),
                 JobOf(c, u).value, Through(s.phases[u]), Got(s.phases[u]))
    && (Patching(s.phases[u]) ==> FreshAt(s.disk, s.phases[u]))
  }

  lemma JobsFit(c: Config, t: nat, u: nat)
    requires TwoCalls(c, t, u)
    ensures JobOf(c, t).value.Fits(|c.d0|) && JobOf(c, u).value.Fits(|c.d0|)
  {
    StartedJobFits(c.calls[t], c.calls[t].off, |c.d0|);
    StartedJobFits(c.calls[u], c.calls[u].off, |c.d0|);
  }

  /** The phases of the two threads are about the two jobs. */
  ghost predicate OfJob(ph: Phase, job: Job) {
    match ph
    case Ready => true
    case Entered => false
    case Running(j, k, _, _, failed) => j == job && k <= |job.Parts()| && (failed ==> k < |job.Parts()|)
    case Returned(done, n, buf, error) => done == Some(job) && Tally(job, n, buf, error)
    case Done(done, n, buf, error) => done == Some(job) && Tally(job, n, buf, error)
  }

  ghost predicate AboutJobs(c: Config, s: State, t: nat, u: nat)
    requires TwoCalls(c, t, u)
  {
    |s.phases| == 2 && OfJob(s.phases[t], JobOf(c, t).value) && OfJob(s.phases[u], JobOf(c, u).value)
  }

  lemma OfItsJob(c: Config, s: State, v: nat)
    requires c.Valid() && Positioned(c) && Shape(c, s) && AllCounted(c, s) && v < |c.calls| && JobOf(c, v).Some?
    ensures OfJob(s.phases[v], JobOf(c, v).value)
  {
    assert PhaseOk(c, s, v) && Counted(c, v, s.phases[v]);
    hide Pieces, Aligned, StartJob, Tally;
  }

  ghost predicate SamePatch(ph: Phase, ph': Phase) {
    Patching(ph) && Patching(ph') && ph'.tmp == ph.tmp && ph'.job == ph.job && ph'.k == ph.k
  }

  ghost predicate Unmoved(c: Config, s: State, a: Action)
    requires Enabled(c, s, a)
  {
    var s' := Apply(c, s, a);
    && s'.disk == s.disk
    && Through(s'.phases[a.t]) == Through(s.phases[a.t]) && Got(s'.phases[a.t]) == Got(s.phases[a.t])
    && (!(a.Io? && a.ok) && Patching(s'.phases[a.t]) ==> SamePatch(s.phases[a.t], s'.phases[a.t]))
  }

  /** A step that moves no data keeps what both threads are through with. */
  lemma QuietThrough(c: Config, s: State, a: Action, job: Job)
    requires Shape(c, s) && Enabled(c, s, a) && Positioned(c) && JobOf(c, a.t) == Some(job)
    requires a.Io? && a.ok ==> Fetches(s.phases[a.t])
    ensures Unmoved(c, s, a)
  {
    hide Pieces, Aligned, ClampLen, StartJob, Splice, Outgoing, Unmoved, Apply;
    if a.Return? || a.Leave? {
      QuietEnd(c, s, a);
    } else if a.Io? {
      QuietIo(c, s, a);
    } else {
      QuietStart(c, s, a, job);
    }
  }

  lemma QuietEnd(c: Config, s: State, a: Action)
    requires Shape(c, s) && Enabled(c, s, a) && Positioned(c) && (a.Return? || a.Leave?)
    ensures Unmoved(c, s, a)
  {
    assert PhaseOk(c, s, a.t);
    hide Pieces, Aligned, ClampLen, StartJob, Splice, Outgoing;
  }

  lemma QuietIo(c: Config, s: State, a: Action)
    requires Enabled(c, s, a) && a.Io? && (a.ok ==> Fetches(s.phases[a.t]))
    ensures Unmoved(c, s, a)
  {
    hide Pieces, Aligned, ClampLen, StartJob, Splice, Outgoing;
  }

  lemma QuietStart(c: Config, s: State, a: Action, job: Job)
    requires Shape(c, s) && Enabled(c, s, a) && Positioned(c) && JobOf(c, a.t) == Some(job) && (a.Begin? || a.Enter?)
    ensures Unmoved(c, s, a)
  {
    FilledStart(job);
    hide Pieces, Aligned, ClampLen, StartJob, Splice, Outgoing;
  }

  /** What a misaligned call is through with ends at a boundary between two of its parts. */
  lemma ThroughAtBoundary(ph: Phase, b: Job) returns (k: nat)
    requires OfJob(ph, b)
    ensures k <= |b.Parts()| && Through(ph) == b.Filled(k)
  {
    FilledStart(b);
    if ph.Ready? {
      k := 0;
    } else if ph.Running? {
      k := ph.k;
    } else if !ph.error {
      k := |b.Parts()|;
    } else {
      k := BoundaryPart(b, ph.n);
    }
    hide Pieces;
  }

  lemma BoundaryPart(b: Job, n: nat) returns (k: nat)
    requires Boundary(b.off, b.len, n)
    ensures k <= |b.Parts()| && n == b.Filled(k)
  {
    FilledStart(b);
    PartLengths(b.off, b.len);
    k := if n == 0 then 0
         else if n == HeadLen(b.off, b.len) then |HeadPieces(b.off, b.len)|
         else |HeadPieces(b.off, b.len) + MidPieces(b.off, b.len)|;
    hide HeadLen, MidSectors, BodyLen, FirstWhole;
  }

  /** The device call of the misaligned transfer, as bytes. */
  lemma PartMoves(c: Config, s: State, u: nat)
    requires c.Valid() && Shape(c, s) && Enabled(c, s, Io(u, true)) && !Fetches(s.phases[u])
    requires Patching(s.phases[u]) ==> FreshAt(s.disk, s.phases[u])
    ensures var ph, s' := s.phases[u], Apply(c, s, Io(u, true)); var p := ph.job.Parts()[ph.k];
      && Through(ph) == p.lo <= p.hi <= ph.job.len && ph.job.off + p.hi <= |s.disk| && (ph.job.write ==> p.hi <= |ph.job.data|)
      && Through(s'.phases[u]) == p.hi && !Patching(s'.phases[u])
      && s'.disk == (if ph.job.write then Splice(s.disk, ph.job.off + p.lo, ph.job.data[p.lo..p.hi]) else s.disk)
      && Got(s'.phases[u]) == (if ph.job.write then Got(ph) else Got(ph) + s.disk[ph.job.off + p.lo..ph.job.off + p.hi])
  {
    hide Splice, Pieces, Aligned, Outgoing, StartJob;
    var ph := s.phases[u];
    assert PhaseOk(c, s, u);
    FilledStep(ph.job, ph.k);
    if ph.job.write {
      WriteBackIsSplice(s.disk, ph);
    }
  }

  lemma PairPart(c: Config, s: State, t: nat, u: nat)
    requires TwoCalls(c, t, u) && Shape(c, s) && AboutJobs(c, s, t, u) && Consistent(c, s, t, u)
    requires Enabled(c, s, Io(u, true)) && !Fetches(s.phases[u])
    ensures Consistent(c, Apply(c, s, Io(u, true)), t, u)
  {
    hide Explained, Splice, Pieces, Apply, Fetches, JobOf, Through, Got, Tally, Transferable;
    PartMoves(c, s, u);
    JobsFit(c, t, u);
    StepsAlone(c, s, Io(u, true));
    ThroughFits(s.phases[t], JobOf(c, t).value);
    var ph, s' := s.phases[u], Apply(c, s, Io(u, true));
    var p := ph.job.Parts()[ph.k];
    PartLands(c.d0, s.disk, JobOf(c, t).value, Through(s.phases[t]), Got(s.phases[t]),
              ph.job, p.lo, Got(ph), p.hi, s'.disk, Got(s'.phases[u]));
  }

  lemma ThroughFits(ph: Phase, job: Job)
    requires OfJob(ph, job)
    ensures Through(ph) <= job.len
  {
    FilledStart(job);
    if ph.Running? && ph.k < |job.Parts()| {
      FilledStep(job, ph.k);
    }
    hide Pieces;
  }

  lemma PairAligned(c: Config, s: State, t: nat, u: nat)
    requires TwoCalls(c, t, u) && Shape(c, s) && AboutJobs(c, s, t, u) && Consistent(c, s, t, u)
    requires Compatible(JobOf(c, t).value, JobOf(c, u).value) && Enabled(c, s, Io(t, true))
    ensures Consistent(c, Apply(c, s, Io(t, true)), t, u)
  {
    hide Explained, Splice, Pieces, JobOf, Tally, Transferable, CoversPartial, Aligned, MeetsTwoParts;
    var a, b, s' := JobOf(c, t).value, JobOf(c, u).value, Apply(c, s, Io(t, true));
    JobsFit(c, t, u);
    StepsAlone(c, s, Io(t, true));
    AlignedMoves(c, s, t);
    FirstIfNothing(c.d0, s.disk, a, Got(s.phases[t]), b, Through(s.phases[u]), Got(s.phases[u]));
    ThroughFits(s.phases[u], b);
    if a.write || b.write {
      var k := ThroughAtBoundary(s.phases[u], b);
      OneSide(a, b, k);
    }
    hide Beside, Through, Got, Applied;
    AlignedLands(c.d0, s.disk, a, Got(s.phases[t]), b, Through(s.phases[u]), Got(s.phases[u]), s'.disk, Got(s'.phases[t]));
    if Patching(s.phases[u]) {
      PatchStaysFresh(c, s, t, u);
    }
  }

  lemma AlignedMoves(c: Config, s: State, t: nat)
    requires c.Valid() && Shape(c, s) && Enabled(c, s, Io(t, true)) && !s.phases[t].job.Locked()
    ensures var ph, s' := s.phases[t], Apply(c, s, Io(t, true)); var a := ph.job;
      && a.len > 0 && a.off + a.len <= |s.disk| && (a.write ==> |a.data| == a.len)
      && Through(ph) == 0 && Through(s'.phases[t]) == a.len
      && s'.disk == Applied(a, a.len, s.disk)
      && Got(s'.phases[t]) == (if a.write then [] else s.disk[a.off..a.off + a.len])
  {
    hide Splice, Pieces, Aligned, Outgoing, StartJob, Transferable;
    var a := s.phases[t].job;
    assert PhaseOk(c, s, t);
    AlignedParts(a);
    FilledStart(a);
    if a.write {
      AlignedWrite(c, s, t);
      assert a.data[..a.len] == a.data;
    } else {
      AlignedRead(c, s, t);
    }
  }

  lemma FirstIfNothing(d0: seq<byte>, disk: seq<byte>, a: Job, abuf: seq<byte>, b: Job, n: nat, bbuf: seq<byte>)
    requires a.len > 0 && Explained(d0, disk, a, 0, abuf, b, n, bbuf)
    ensures AlignedFirst(d0, disk, a, 0, abuf, b, n, bbuf)
  {
  }

  lemma PatchStaysFresh(c: Config, s: State, t: nat, u: nat)
    requires TwoCalls(c, t, u) && Shape(c, s) && AboutJobs(c, s, t, u) && Enabled(c, s, Io(t, true))
    requires Compatible(JobOf(c, t).value, JobOf(c, u).value) && Patching(s.phases[u]) && FreshAt(s.disk, s.phases[u])
    ensures FreshAt(Apply(c, s, Io(t, true)).disk, s.phases[u])
  {
    hide Splice, Pieces, JobOf, Tally, Transferable, Aligned;
    var a := s.phases[t].job;
    assert PhaseOk(c, s, t);
    if a.write {
      AlignedWrite(c, s, t);
      PatcherIsPartial(c, s, u);
      if Touches(a, PatchedSector(s.phases[u])) {
        PartialIsCovered(a, s.phases[u]);
      }
      hide CoversPartial;
      FreshBeside(s.disk, s.phases[u], a);
    }
  }

  lemma PairQuiet(c: Config, s: State, a: Action, t: nat, u: nat)
    requires TwoCalls(c, t, u) && Shape(c, s) && Consistent(c, s, t, u)
    requires Enabled(c, s, a) && (a.Io? && a.ok ==> a.t == u && Fetches(s.phases[u]))
    ensures Consistent(c, Apply(c, s, a), t, u)
  {
    hide Explained, Splice, Pieces, JobOf, Transferable, Aligned, Through, Got, Apply, ApplyIo;
    QuietThrough(c, s, a, JobOf(c, a.t).value);
    StepsAlone(c, s, a);
    var s' := Apply(c, s, a);
    if Patching(s'.phases[u]) && a.t == u && a.Io? && a.ok {
      FetchIsFresh(c, s, u);
    }
  }

  lemma FetchIsFresh(c: Config, s: State, u: nat)
    requires c.Valid() && Shape(c, s) && Enabled(c, s, Io(u, true)) && Fetches(s.phases[u])
    ensures var s' := Apply(c, s, Io(u, true)); Patching(s'.phases[u]) ==> FreshAt(s'.disk, s'.phases[u])
  {
    hide Splice, Pieces, Aligned, StartJob;
    assert PhaseOk(c, s, u);
    if Patching(NextPhase(s.disk, s.phases[u])) {
      FreshRead(s.disk, s.phases[u]);
    }
  }

  lemma PairStep(c: Config, s: State, a: Action, t: nat, u: nat)
    requires TwoCalls(c, t, u) && Shape(c, s) && AboutJobs(c, s, t, u) && Consistent(c, s, t, u)
    requires Compatible(JobOf(c, t).value, JobOf(c, u).value) && Enabled(c, s, a)
    ensures Consistent(c, Apply(c, s, a), t, u)
  {
    if a.Io? && a.ok {
      if a.t == t {
        PairAligned(c, s, t, u);
      } else if Fetches(s.phases[u]) {
        PairQuiet(c, s, a, t, u);
      } else {
        PairPart(c, s, t, u);
      }
    } else {
      PairQuiet(c, s, a, t, u);
    }
    hide *;
  }

  lemma {:induction false} PairAlways(c: Config, run: seq<Action>, t: nat, u: nat)
    requires TwoCalls(c, t, u) && Compatible(JobOf(c, t).value, JobOf(c, u).value) && Exec(c, run).Some?
    ensures Consistent(c, Exec(c, run).value, t, u)
  {
    if run == [] {
      PairStart(c, t, u);
    } else {
      var s, a := Exec(c, run[..|run| - 1]).value, run[|run| - 1];
      PairAlways(c, run[..|run| - 1], t, u);
      RunAboutJobs(c, run[..|run| - 1], t, u);
      ShapeAlways(c, run[..|run| - 1]);
      PairStep(c, s, a, t, u);
      hide Consistent, Compatible, Apply, Enabled;
    }
  }

  lemma PairStart(c: Config, t: nat, u: nat)
    requires TwoCalls(c, t, u)
    ensures Consistent(c, c.Init(), t, u)
  {
    hide Applied, StartJob, Aligned;
    JobsFit(c, t, u);
    AppliedNothing(JobOf(c, t).value, c.d0);
    AppliedNothing(JobOf(c, u).value, c.d0);
  }

  lemma RunAboutJobs(c: Config, run: seq<Action>, t: nat, u: nat)
    requires TwoCalls(c, t, u) && Exec(c, run).Some?
    ensures AboutJobs(c, Exec(c, run).value, t, u)
  {
    ShapeAlways(c, run);
    CountedAlways(c, run);
    OfItsJob(c, Exec(c, run).value, t);
    OfItsJob(c, Exec(c, run).value, u);
    hide Exec, OfJob, JobOf, AllCounted;
  }

  // ----- the order of a finished run

  lemma DoneSteps(c: Config, s: State, v: nat, d: seq<byte>)
    requires c.Valid() && Positioned(c) && v < |c.calls| && JobOf(c, v).Some? && |d| == |c.d0| && JobOf(c, v).value.Fits(|d|)
    requires v < |s.phases| && s.phases[v].Done? && OfJob(s.phases[v], JobOf(c, v).value)
    requires Holds(JobOf(c, v).value, Through(s.phases[v]), Got(s.phases[v]), d)
    ensures StepsTo(c, s, v, d, Applied(JobOf(c, v).value, Through(s.phases[v]), d))
  {
    hide Splice, ActsAlone, Boundary, StartJob, ReadCount;
    var ph, job := s.phases[v], JobOf(c, v).value;
    StartedJobFits(c.calls[v], c.calls[v].off, |c.d0|);
    assert IsJob(c, v, job);
    EntryActsAlone(c, v, job, ph.n, ph.buf, ph.error, d, Applied(job, Through(ph), d));
  }

  lemma InThisOrder(c: Config, s: State, x: nat, y: nat, d: seq<byte>)
    requires |c.calls| == 2 && |s.phases| == 2 && s.phases[0].Done? && s.phases[1].Done?
    requires x < 2 && y < 2 && x != y && StepsTo(c, s, x, c.d0, d) && StepsTo(c, s, y, d, s.disk)
    ensures SomeOrder(c, s)
  {
    hide StepsTo;
    var order, disks := [x, y], [c.d0, d, s.disk];
    assert order[0] == x && order[1] == y;
    assert Explains(c, s, order, disks);
  }

  lemma ConsistentHasOrder(c: Config, s: State, t: nat, u: nat)
    requires TwoCalls(c, t, u) && AboutJobs(c, s, t, u) && Consistent(c, s, t, u)
    requires s.phases[t].Done? && s.phases[u].Done?
    ensures SomeOrder(c, s)
  {
    hide StepsTo, Applied, Holds, OfJob, JobOf, Beside, SomeOrder;
    var a, b := JobOf(c, t).value, JobOf(c, u).value;
    var m, n := Through(s.phases[t]), Through(s.phases[u]);
    JobsFit(c, t, u);
    if AlignedFirst(c.d0, s.disk, a, m, Got(s.phases[t]), b, n, Got(s.phases[u])) {
      DoneSteps(c, s, t, c.d0);
      DoneSteps(c, s, u, Applied(a, m, c.d0));
      InThisOrder(c, s, t, u, Applied(a, m, c.d0));
    } else {
      DoneSteps(c, s, u, c.d0);
      DoneSteps(c, s, t, Applied(b, n, c.d0));
      InThisOrder(c, s, u, t, Applied(b, n, c.d0));
    }
  }

  lemma CompatibleHasOrder(c: Config, run: seq<Action>, t: nat, u: nat)
    requires TwoCalls(c, t, u) && Compatible(JobOf(c, t).value, JobOf(c, u).value) && Exec(c, run).Some?
    requires Exec(c, run).value.phases[t].Done? && Exec(c, run).value.phases[u].Done?
    ensures SomeOrder(c, Exec(c, run).value)
  {
    hide Consistent, Compatible, AboutJobs, SomeOrder, Exec;
    PairAlways(c, run, t, u);
    RunAboutJobs(c, run, t, u);
    ConsistentHasOrder(c, Exec(c, run).value, t, u);
  }

  // ----- schedules that no order explains

  /** The aligned call has not made its device call. */
  predicate NotLanded(ph: Phase) {
    ph.Ready? || (ph.Running? && ph.k == 0)
  }

  /** Until the aligned call lands, a moment is explained whatever the two calls are. */
  lemma {:induction false} PairBefore(c: Config, run: seq<Action>, t: nat, u: nat)
    requires TwoCalls(c, t, u) && Exec(c, run).Some? && NotLanded(Exec(c, run).value.phases[t])
    ensures Consistent(c, Exec(c, run).value, t, u)
  {
    if run == [] {
      PairStart(c, t, u);
    } else {
      var before := run[..|run| - 1];
      var s, a := Exec(c, before).value, run[|run| - 1];
      RunAboutJobs(c, before, t, u);
      ShapeAlways(c, before);
      LandsOnce(c, s, a, t, u);
      PairBefore(c, before, t, u);
      if a.Io? && a.ok && !Fetches(s.phases[u]) {
        PairPart(c, s, t, u);
      } else {
        PairQuiet(c, s, a, t, u);
      }
      hide Consistent, Apply, Enabled, NotLanded;
    }
  }

  lemma LandsOnce(c: Config, s: State, a: Action, t: nat, u: nat)
    requires TwoCalls(c, t, u) && Shape(c, s) && AboutJobs(c, s, t, u) && Enabled(c, s, a) && NotLanded(Apply(c, s, a).phases[t])
    ensures NotLanded(s.phases[t]) && (a.Io? && a.ok ==> a.t == u && s.phases[u].Running? && s.phases[u].k < |s.phases[u].job.Parts()|)
  {
    hide Splice, Aligned, Outgoing, StartJob, Pieces;
    StepsAlone(c, s, a);
    if a.t == t && a.Io? && a.ok {
      AlignedParts(s.phases[t].job);
    }
  }

  /** A transfer that is through with all its parts returns and leaves. */
  lemma LastSteps(c: Config, run: seq<Action>, v: nat) returns (r: seq<Action>)
    requires c.Valid() && Positioned(c) && Exec(c, run).Some? && v < |c.calls|
    requires var ph := Exec(c, run).value.phases[v]; ph.Running? && !ph.failed && ph.k == |ph.job.Parts()|
    ensures Exec(c, r).Some?
    ensures var s, s' := Exec(c, run).value, Exec(c, r).value; var ph := s.phases[v];
      && s'.disk == s.disk && s'.phases == s.phases[v := s'.phases[v]]
      && s'.phases[v].Done? && s'.phases[v].done == Some(ph.job) && s'.phases[v].buf == ph.buf && !s'.phases[v].error
  {
    hide Pieces, Aligned, StartJob, Splice, Outgoing, Transferable;
    Extend(c, run, Return(v));
    r := run + [Return(v)];
    Extend(c, r, Leave(v));
    r := r + [Leave(v)];
  }

  /** One more part of a transfer, fetched first if it has to be. */
  lemma OnePart(c: Config, run: seq<Action>, u: nat) returns (r: seq<Action>)
    requires c.Valid() && Exec(c, run).Some? && u < |c.calls|
    requires var ph := Exec(c, run).value.phases[u]; ph.Running? && !ph.failed && ph.k < |ph.job.Parts()| && ph.tmp.None?
    ensures Exec(c, r).Some?
    ensures PartDone(Exec(c, run).value, Exec(c, r).value, u)
  {
    hide Exec, Pieces, Aligned, StartJob, Splice, Outgoing, Enabled;
    var s := Exec(c, run).value;
    ShapeAlways(c, run);
    CanTransfer(c, run, u);
    Extend(c, run, Io(u, true));
    r := run + [Io(u, true)];
    if Fetches(s.phases[u]) {
      FetchStep(c, s, u);
      var s1 := Exec(c, r).value;
      ShapeAlways(c, r);
      CanTransfer(c, r, u);
      Extend(c, r, Io(u, true));
      PartStep(c, s1, u);
      r := r + [Io(u, true)];
    } else {
      PartStep(c, s, u);
    }
  }

  /** Thread `u` has served its current part, and nothing else happened. */
  ghost predicate PartDone(s: State, s': State, u: nat) {
    && u < |s.phases| && s.phases[u].Running? && s.phases[u].k < |s.phases[u].job.Parts()|
    && var ph := s.phases[u]; var p := ph.job.Parts()[ph.k];
    && |s'.phases| == |s.phases| && s'.phases == s.phases[u := s'.phases[u]] && |s'.disk| == |s.disk|
    && s'.phases[u].Running? && s'.phases[u].job == ph.job && s'.phases[u].k == ph.k + 1
    && s'.phases[u].tmp.None? && !s'.phases[u].failed
    && ph.job.off + p.lo <= ph.job.off + p.hi <= |s.disk| && (ph.job.write ==> p.hi <= |ph.job.data|)
    && s'.disk == (if ph.job.write then Splice(s.disk, ph.job.off + p.lo, ph.job.data[p.lo..p.hi]) else s.disk)
    && s'.phases[u].buf == (if ph.job.write then ph.buf else ph.buf + s.disk[ph.job.off + p.lo..ph.job.off + p.hi])
  }

  lemma FetchStep(c: Config, s: State, u: nat)
    requires c.Valid() && Shape(c, s) && Enabled(c, s, Io(u, true)) && Fetches(s.phases[u])
    ensures var s' := Apply(c, s, Io(u, true)); var ph := s.phases[u];
      && s'.disk == s.disk && s'.phases == s.phases[u := s'.phases[u]] && |s'.phases| == |s.phases|
      && s'.phases[u].Running? && s'.phases[u] == ph.(tmp := s'.phases[u].tmp) && s'.phases[u].tmp.Some?
      && FreshAt(s'.disk, s'.phases[u])
  {
    hide Splice, Pieces, Aligned, StartJob;
    assert PhaseOk(c, s, u);
    FreshRead(s.disk, s.phases[u]);
  }

  lemma PartStep(c: Config, s: State, u: nat)
    requires c.Valid() && Shape(c, s) && Enabled(c, s, Io(u, true)) && !Fetches(s.phases[u])
    requires Patching(s.phases[u]) ==> FreshAt(s.disk, s.phases[u])
    ensures PartDone(s.(phases := s.phases[u := s.phases[u].(tmp := None)]), Apply(c, s, Io(u, true)), u)
  {
    hide Splice, Pieces, Aligned, Outgoing, StartJob, Through;
    PartMoves(c, s, u);
    assert PhaseOk(c, s, u);
  }

  /** The rest of a transfer, without disturbance: what it leaves alone and what it reads. */
  ghost predicate Finished(s: State, s': State, u: nat) {
    && u < |s.phases| && s.phases[u].Running? && s.phases[u].k <= |s.phases[u].job.Parts()|
    && |s'.phases| == |s.phases| && s'.phases == s.phases[u := s'.phases[u]] && |s'.disk| == |s.disk|
    && var b, from := s.phases[u].job, s.phases[u].job.Filled(s.phases[u].k);
    && from <= b.len && b.off + b.len <= |s.disk|
    && s'.phases[u].Done? && s'.phases[u].done == Some(b) && !s'.phases[u].error
    && (b.write ==> forall x :: 0 <= x < |s.disk| && !(b.off <= x < b.off + b.len) ==> s'.disk[x] == s.disk[x])
    && (!b.write ==> s'.disk == s.disk && s'.phases[u].buf == s.phases[u].buf + s.disk[b.off + from..b.off + b.len])
  }

  lemma FinishedMore(s: State, s1: State, s2: State, u: nat)
    requires PartDone(s, s1, u) && Finished(s1, s2, u)
    ensures Finished(s, s2, u)
  {
    hide Pieces, Splice, Job.Parts, Job.Filled;
    var ph := s.phases[u];
    FilledStep(ph.job, ph.k);
    var p := ph.job.Parts()[ph.k];
    assert ph.job.Filled(ph.k) == p.lo && ph.job.Filled(ph.k + 1) == p.hi;
    assert s2.phases == s.phases[u := s2.phases[u]];
    if ph.job.write {
      KeepsOutside(s.disk, ph.job.off + p.lo, ph.job.data[p.lo..p.hi], ph.job.off, ph.job.off + ph.job.len);
    } else {
      BuffersJoin(ph.buf, s.disk, ph.job.off + p.lo, ph.job.off + p.hi, ph.job.off + ph.job.len);
    }
  }

  lemma BuffersJoin(buf: seq<byte>, d: seq<byte>, a: nat, b: nat, e: nat)
    requires a <= b <= e <= |d|
    ensures buf + d[a..b] + d[b..e] == buf + d[a..e]
  {
    assert d[a..b] + d[b..e] == d[a..e];
  }

  lemma KeepsOutside(d: seq<byte>, at: nat, p: seq<byte>, lo: nat, hi: nat)
    requires lo <= at && at + |p| <= hi && at + |p| <= |d|
    ensures forall x :: 0 <= x < |d| && !(lo <= x < hi) ==> Splice(d, at, p)[x] == d[x]
  {
  }

  lemma {:induction false} FinishParts(c: Config, run: seq<Action>, u: nat) returns (r: seq<Action>)
    requires c.Valid() && Positioned(c) && Exec(c, run).Some? && u < |c.calls|
    requires var ph := Exec(c, run).value.phases[u];
      ph.Running? && !ph.failed && ph.k <= |ph.job.Parts()| && ph.tmp.None?
    ensures Exec(c, r).Some? && Finished(Exec(c, run).value, Exec(c, r).value, u)
    decreases |Exec(c, run).value.phases[u].job.Parts()| - Exec(c, run).value.phases[u].k
  {
    hide Exec, Pieces, Aligned, StartJob, Finished, PartDone;
    var s := Exec(c, run).value;
    if s.phases[u].k == |s.phases[u].job.Parts()| {
      r := LastSteps(c, run, u);
      ShapeAlways(c, run);
      NothingLeft(c, s, Exec(c, r).value, u);
    } else {
      var next := OnePart(c, run, u);
      var s1 := Exec(c, next).value;
      PartAdvances(s, s1, u);
      r := FinishParts(c, next, u);
      FinishedMore(s, s1, Exec(c, r).value, u);
    }
  }

  lemma PartAdvances(s: State, s1: State, u: nat)
    requires PartDone(s, s1, u)
    ensures |s1.phases| == |s.phases| && s1.phases[u].Running? && !s1.phases[u].failed && s1.phases[u].tmp.None?
    ensures s1.phases[u].job == s.phases[u].job && s1.phases[u].k == s.phases[u].k + 1
  {
  }

  lemma NothingLeft(c: Config, s: State, s': State, u: nat)
    requires Shape(c, s) && u < |c.calls|
    requires s.phases[u].Running? && s.phases[u].k == |s.phases[u].job.Parts()|
    requires |s'.phases| == |s.phases| && s'.disk == s.disk && s'.phases == s.phases[u := s'.phases[u]]
    requires s'.phases[u].Done? && s'.phases[u].done == Some(s.phases[u].job) && s'.phases[u].buf == s.phases[u].buf && !s'.phases[u].error
    ensures Finished(s, s', u)
  {
    assert PhaseOk(c, s, u);
    hide Pieces, Aligned, StartJob;
    assert s.disk[s.phases[u].job.off + s.phases[u].job.len..s.phases[u].job.off + s.phases[u].job.len] == [];
  }

  // ----- what an order of the two calls would have to say

  lemma TwoOrders(c: Config, s: State, t: nat, u: nat) returns (d: seq<byte>)
    requires |c.calls| == 2 && t < 2 && u < 2 && t != u && SomeOrder(c, s)
    requires |s.phases| == 2 && s.phases[t].Done? && s.phases[u].Done?
    ensures (StepsTo(c, s, t, c.d0, d) && StepsTo(c, s, u, d, s.disk)) || (StepsTo(c, s, u, c.d0, d) && StepsTo(c, s, t, d, s.disk))
  {
    hide StepsTo;
    var order, disks :| Explains(c, s, order, disks);
    OrderOfTwo(order, t, u);
    d := disks[1];
  }

  lemma OrderOfTwo(order: seq<nat>, t: nat, u: nat)
    requires t < 2 && u < 2 && t != u && t in order && u in order
    requires forall x :: x in order ==> x < 2
    requires forall i, j :: 0 <= i < j < |order| ==> order[i] != order[j]
    ensures order == [t, u] || order == [u, t]
  {
    var i :| 0 <= i < |order| && order[i] == t;
    var j :| 0 <= j < |order| && order[j] == u;
    assert order[0] in order && order[1] in order && order[|order| - 1] in order;
  }

  /** A write that returned no error stored all its data. */
  lemma WriterSteps(c: Config, s: State, v: nat, d: seq<byte>, e: seq<byte>)
    requires Positioned(c) && v < |c.calls| && v < |s.phases| && s.phases[v].Done? && JobOf(c, v).Some? && JobOf(c, v).value.write
    requires s.phases[v].done == JobOf(c, v) && !s.phases[v].error && StepsTo(c, s, v, d, e)
    requires JobOf(c, v).value.Fits(|d|)
    ensures e == Splice(d, JobOf(c, v).value.off, JobOf(c, v).value.data)
  {
    var ph, job := s.phases[v], JobOf(c, v).value;
    hide Splice, Boundary;
    assert c.calls[v].WriteAt? && WritesAs(d, e, job.off, job.data, ph.n, false);
    assert WriteOutcome(d, e, job.off, job.data, ph.n, NoError);
    assert job.data[..|job.data|] == job.data;
  }

  /** A read that returned no error holds its whole range. */
  lemma ReaderSteps(c: Config, s: State, v: nat, d: seq<byte>, e: seq<byte>)
    requires Positioned(c) && v < |c.calls| && v < |s.phases| && s.phases[v].Done? && JobOf(c, v).Some? && !JobOf(c, v).value.write
    requires s.phases[v].done == JobOf(c, v) && !s.phases[v].error && StepsTo(c, s, v, d, e) && |s.phases[v].buf| == JobOf(c, v).value.len
    requires JobOf(c, v).value.Fits(|d|) && |d| == |c.d0|
    ensures e == d && s.phases[v].buf == d[JobOf(c, v).value.off..JobOf(c, v).value.off + JobOf(c, v).value.len]
  {
    var ph, job := s.phases[v], JobOf(c, v).value;
    hide Boundary, ReadCount;
    var p0: seq<byte> := seq(c.calls[v].len, _ => 0);
    assert c.calls[v].ReadAt? && ReadsAs(d, job.off, p0, ph.buf, ph.n, false);
    assert ReadOutcome(d, job.off, p0, Splice(p0, 0, ph.buf), ph.n, NoError);
    assert Splice(p0, 0, ph.buf)[..job.len] == ph.buf;
    assert Splice(p0, 0, d[job.off..job.off + job.len])[..job.len] == d[job.off..job.off + job.len];
  }

  // ----- the three kinds of conflict

  /** An aligned transfer that meets a part of another shares a byte with it. */
  lemma SharedByte(a: Job, b: Job, j: nat) returns (x: nat)
    requires !a.Locked() && b.len > 0 && j < |b.Parts()| && Meets(a, b.Parts()[j])
    ensures a.off <= x < a.off + a.len && b.off + b.Parts()[j].lo <= x < b.off + b.Parts()[j].hi
  {
    PiecesTile(b.off, b.len);
    var p := b.Parts()[j];
    assert PieceFits(p, b.off, b.len);
    WholeParts(b, j);
    hide Pieces;
    if p.Partial() {
      TouchCovers(a, p.start);
      x := b.off + p.lo;
    } else {
      x := if a.off < p.start * SECTOR then p.start * SECTOR else a.off;
    }
  }

  lemma WholeParts(b: Job, j: nat)
    requires j < |b.Parts()|
    ensures var p := b.Parts()[j];
      p.Partial() || (p.start * SECTOR == b.off + p.lo && (p.start + p.num) * SECTOR == b.off + p.hi)
  {
    PartPlaces(b.off, b.len);
    hide HeadLen, MidSectors, BodyLen, FirstWhole;
  }

  /** Of two parts at least one covers its sector only in part. */
  lemma TwoPartsPartial(a: Job, b: Job)
    requires MeetsTwoParts(a, b)
    ensures CoversPartial(a, b) && b.len > 0
  {
    hide Pieces, CoversPartial;
    var j, k :| 0 <= j < k < |b.Parts()| && Meets(a, b.Parts()[j]) && Meets(a, b.Parts()[k]);
    OneWholePart(b, j, k);
    MeetsPartial(a, b, if b.Parts()[j].Partial() then j else k);
  }

  lemma MeetsPartial(a: Job, b: Job, i: nat)
    requires i < |b.Parts()| && b.Parts()[i].Partial() && Meets(a, b.Parts()[i])
    ensures CoversPartial(a, b)
  {
    PiecesTile(b.off, b.len);
    PatchedIsPartial(b, i);
    hide Pieces;
    assert PieceFits(b.Parts()[i], b.off, b.len);
  }

  lemma OneWholePart(b: Job, j: nat, k: nat)
    requires j < k < |b.Parts()|
    ensures (b.Parts()[j].Partial() || b.Parts()[k].Partial()) && b.len > 0
  {
    PartPlaces(b.off, b.len);
    hide HeadLen, MidSectors, BodyLen, FirstWhole;
  }

  // ----- an update that no order explains

  lemma TornUpdate(c: Config, s: State, t: nat, u: nat, i: nat)
    requires TwoCalls(c, t, u) && |s.phases| == 2 && s.phases[t].Done? && s.phases[u].Done?
    requires s.phases[t].done == JobOf(c, t) && s.phases[u].done == JobOf(c, u) && !s.phases[t].error && !s.phases[u].error
    requires JobOf(c, t).value.write && JobOf(c, u).value.write
    requires var a, b := JobOf(c, t).value, JobOf(c, u).value;
      && |s.disk| == |c.d0| && i < |c.d0| && a.off <= i < a.off + a.len && !(b.off <= i < b.off + b.len)
      && s.disk[i] != a.data[i - a.off] && |a.data| == a.len
    ensures !SomeOrder(c, s)
  {
    hide StepsTo, SomeOrder, JobOf;
    JobsFit(c, t, u);
    if SomeOrder(c, s) {
      var d := TwoOrders(c, s, t, u);
      if StepsTo(c, s, t, c.d0, d) && StepsTo(c, s, u, d, s.disk) {
        WriterSteps(c, s, t, c.d0, d);
        WriterSteps(c, s, u, d, s.disk);
      } else {
        WriterSteps(c, s, u, c.d0, d);
        WriterSteps(c, s, t, d, s.disk);
      }
      assert false;
    }
  }

  /** A read of two bytes of a write has one as before the write and one as after it. */
  ghost predicate Torn(r: Job, q: Job, buf: seq<byte>, d0: seq<byte>, x: nat, y: nat) {
    && !r.write && q.write && |q.data| == q.len && |buf| == r.len && r.off + r.len <= |d0| && q.off + q.len <= |d0|
    && r.off <= x < r.off + r.len && q.off <= x < q.off + q.len && r.off <= y < r.off + r.len && q.off <= y < q.off + q.len
    && buf[x - r.off] != q.data[x - q.off] && buf[y - r.off] != d0[y]
  }

  lemma TornRead(c: Config, s: State, t: nat, u: nat, v: nat, w: nat, x: nat, y: nat)
    requires TwoCalls(c, t, u) && |s.phases| == 2 && s.phases[t].Done? && s.phases[u].Done?
    requires s.phases[t].done == JobOf(c, t) && s.phases[u].done == JobOf(c, u) && !s.phases[t].error && !s.phases[u].error
    requires (v == t && w == u) || (v == u && w == t)
    requires Torn(JobOf(c, v).value, JobOf(c, w).value, s.phases[v].buf, c.d0, x, y)
    ensures !SomeOrder(c, s)
  {
    hide StepsTo, SomeOrder, JobOf, Torn, Splice;
    JobsFit(c, t, u);
    TornReads(JobOf(c, v).value, JobOf(c, w).value, s.phases[v].buf, c.d0, x, y);
    if SomeOrder(c, s) {
      var d := TwoOrders(c, s, v, w);
      if StepsTo(c, s, v, c.d0, d) && StepsTo(c, s, w, d, s.disk) {
        ReaderSteps(c, s, v, c.d0, d);
      } else {
        WriterSteps(c, s, w, c.d0, d);
        ReaderSteps(c, s, v, d, s.disk);
      }
      assert false;
    }
  }

  /** So it is the disk's neither before nor after the write. */
  lemma TornReads(r: Job, q: Job, buf: seq<byte>, d0: seq<byte>, x: nat, y: nat)
    requires Torn(r, q, buf, d0, x, y)
    ensures !r.write && q.write && |buf| == r.len && r.off + r.len <= |d0| && q.off + |q.data| <= |d0|
    ensures buf != d0[r.off..r.off + r.len] && buf != Splice(d0, q.off, q.data)[r.off..r.off + r.len]
  {
    assert d0[r.off..r.off + r.len][y - r.off] == d0[y];
    assert Splice(d0, q.off, q.data)[r.off..r.off + r.len][x - r.off] == q.data[x - q.off];
  }

  // ----- the schedules

  /** Thread `u` has served `k` parts, and then the aligned call is made in full. */
  lemma BetweenParts(c: Config, t: nat, u: nat, k: nat) returns (before: seq<Action>, run: seq<Action>)
    requires TwoCalls(c, t, u) && JobOf(c, t).value.len > 0 && k <= |JobOf(c, u).value.Parts()|
    ensures Exec(c, before).Some? && Exec(c, run).Some?
    ensures var s, s' := Exec(c, before).value, Exec(c, run).value; var a := JobOf(c, t).value;
      && |s.phases| == 2 && AtPart(s.phases[u], JobOf(c, u).value, k) && NotLanded(s.phases[t])
      && |s'.phases| == 2 && s'.phases[u] == s.phases[u] && LandedOn(s.disk, s', t, a)
  {
    hide Exec, StartJob, Pieces, Aligned, Apply, Enabled, Applied;
    var reach := ReachPiece(c, u, k);
    ShapeAlways(c, reach);
    EnterAligned(c, Exec(c, reach).value, t);
    Extend(c, reach, Enter(t));
    before := reach + [Enter(t)];
    run := LandAligned(c, before, t);
  }

  ghost predicate AtPart(ph: Phase, b: Job, k: nat) {
    ph.Running? && !ph.failed && ph.k == k <= |b.Parts()| && ph.tmp.None? && ph.job == b
  }

  ghost predicate LandedOn(disk: seq<byte>, s: State, t: nat, a: Job) {
    && t < |s.phases| && s.phases[t].Done? && s.phases[t].done == Some(a) && !s.phases[t].error
    && a.off + a.len <= |disk| && s.disk == Applied(a, a.len, disk)
    && s.phases[t].buf == (if a.write then [] else disk[a.off..a.off + a.len])
  }

  /** The aligned call, entered, makes its device call and returns. */
  lemma LandAligned(c: Config, run: seq<Action>, t: nat) returns (r: seq<Action>)
    requires c.Valid() && Positioned(c) && Exec(c, run).Some? && t < |c.calls|
    requires var ph := Exec(c, run).value.phases[t];
      ph.Running? && ph == Running(ph.job, 0, None, [], false) && !ph.job.Locked() && ph.job.len > 0
    ensures Exec(c, r).Some?
    ensures var s, s' := Exec(c, run).value, Exec(c, r).value;
      LandedOn(s.disk, s', t, s.phases[t].job) && |s'.phases| == |s.phases| && s'.phases == s.phases[t := s'.phases[t]]
  {
    hide Exec, StartJob, Pieces, Aligned, Enabled, Applied, Splice, Outgoing;
    var s := Exec(c, run).value;
    AlignedParts(s.phases[t].job);
    ShapeAlways(c, run);
    CanTransfer(c, run, t);
    Extend(c, run, Io(t, true));
    AlignedMoves(c, s, t);
    AlignedPhase(c, s, t);
    r := run + [Io(t, true)];
    r := LastSteps(c, r, t);
  }

  lemma AlignedPhase(c: Config, s: State, t: nat)
    requires c.Valid() && Shape(c, s) && Enabled(c, s, Io(t, true)) && !s.phases[t].job.Locked() && s.phases[t].k == 0
    ensures var s' := Apply(c, s, Io(t, true));
      && s'.phases == s.phases[t := s'.phases[t]] && |s'.phases| == |s.phases| && s'.phases[t].Running?
      && s'.phases[t].job == s.phases[t].job && s'.phases[t].k == 1 && !s'.phases[t].failed && |s.phases[t].job.Parts()| == 1
      && s'.phases[t].buf == Got(s'.phases[t])
  {
    hide Splice, Pieces, Aligned, Outgoing, StartJob;
    assert PhaseOk(c, s, t);
    AlignedParts(s.phases[t].job);
    IoMoves(s, t);
  }

  /** The aligned call between two parts it conflicts with, one of the two calls reading. */
  lemma TornRun(c: Config, t: nat, u: nat) returns (run: seq<Action>)
    requires TwoCalls(c, t, u) && MeetsTwoParts(JobOf(c, t).value, JobOf(c, u).value)
    requires var a, b := JobOf(c, t).value, JobOf(c, u).value; var w := if a.write then a else b;
      && a.write != b.write && |w.data| == w.len
      && forall x :: w.off <= x < w.off + w.len && x < |c.d0| ==> c.d0[x] != w.data[x - w.off]
    ensures Exec(c, run).Some? && Exec(c, run).value.phases[t].Done? && Exec(c, run).value.phases[u].Done?
    ensures !SomeOrder(c, Exec(c, run).value)
  {
    hide Exec, StartJob, Pieces, Aligned, SomeOrder, Consistent, Finished, AboutJobs, JobOf;
    var a, b := JobOf(c, t).value, JobOf(c, u).value;
    var j, k :| 0 <= j < k < |b.Parts()| && Meets(a, b.Parts()[j]) && Meets(a, b.Parts()[k]);
    OneWholePart(b, j, k);
    var x := SharedByte(a, b, j);
    var y := SharedByte(a, b, k);
    FilledBetween(b, j, k);
    var before, middle := BetweenParts(c, t, u, k);
    PairBefore(c, before, t, u);
    run := FinishParts(c, middle, u);
    var s, s1, s2 := Exec(c, before).value, Exec(c, middle).value, Exec(c, run).value;
    RunAboutJobs(c, before, t, u);
    JobsFit(c, t, u);
    TornBytes(c, s, s1, s2, t, u, k, x, y);
  }

  lemma FilledBetween(b: Job, j: nat, k: nat)
    requires j < k < |b.Parts()|
    ensures b.Parts()[j].hi <= b.Filled(k) <= b.Parts()[k].lo && b.Parts()[k].hi <= b.len
  {
    FilledStep(b, k);
    FilledUp(b, j + 1, k);
    FilledStep(b, j);
    hide Pieces;
  }

  lemma {:induction false} FilledUp(b: Job, j: nat, k: nat)
    requires j <= k <= |b.Parts()|
    ensures b.Filled(j) <= b.Filled(k)
    decreases k - j
  {
    if j < k {
      FilledStep(b, j);
      FilledUp(b, j + 1, k);
    }
    hide Pieces;
  }

  /** Before the aligned call lands, the disk and what is read are those of the other call alone. */
  lemma AloneSoFar(c: Config, s: State, t: nat, u: nat, k: nat)
    requires TwoCalls(c, t, u) && Consistent(c, s, t, u) && AboutJobs(c, s, t, u) && JobOf(c, t).value.len > 0
    requires AtPart(s.phases[u], JobOf(c, u).value, k) && NotLanded(s.phases[t])
    ensures var b := JobOf(c, u).value;
      s.disk == Applied(b, b.Filled(k), c.d0) && Holds(b, b.Filled(k), s.phases[u].buf, c.d0)
  {
    hide Pieces, StartJob, JobOf, Applied, Holds;
    var a, b := JobOf(c, t).value, JobOf(c, u).value;
    FilledStart(a);
    AppliedNothing(a, c.d0);
    FirstIfNothing(c.d0, s.disk, a, Got(s.phases[t]), b, b.Filled(k), Got(s.phases[u]));
  }

  lemma TornBytes(c: Config, s: State, s1: State, s2: State, t: nat, u: nat, k: nat, x: nat, y: nat)
    requires TwoCalls(c, t, u) && |s.phases| == 2 && Consistent(c, s, t, u) && AboutJobs(c, s, t, u)
    requires k <= |JobOf(c, u).value.Parts()| && AtPart(s.phases[u], JobOf(c, u).value, k) && NotLanded(s.phases[t])
    requires |s1.phases| == 2 && s1.phases[u] == s.phases[u] && LandedOn(s.disk, s1, t, JobOf(c, t).value) && Finished(s1, s2, u)
    requires var a, b := JobOf(c, t).value, JobOf(c, u).value; var w := if a.write then a else b;
      && a.Fits(|c.d0|) && b.Fits(|c.d0|) && a.write != b.write
      && a.off <= x < a.off + a.len && a.off <= y < a.off + a.len
      && b.off <= x < b.off + b.Filled(k) <= y < b.off + b.len
      && c.d0[x] != w.data[x - w.off] && c.d0[y] != w.data[y - w.off]
    ensures s2.phases[t].Done? && s2.phases[u].Done? && !SomeOrder(c, s2)
  {
    hide Pieces, StartJob, SomeOrder, JobOf, Consistent, AboutJobs, Splice, Applied, Holds, Finished, Torn, NotLanded;
    var a, b := JobOf(c, t).value, JobOf(c, u).value;
    var n := b.Filled(k);
    AloneSoFar(c, s, t, u, k);
    FinishedFacts(s1, s2, t, u, b, k);
    if a.write {
      ReadAcross(a, b, n, c.d0, s.disk, s.phases[u].buf, s1.disk, s2.phases[u].buf, x, y);
      TornRead(c, s2, t, u, u, t, x, y);
    } else {
      SeenHalf(a, b, n, c.d0, s.disk, s2.phases[t].buf, x, y);
      TornRead(c, s2, t, u, t, u, y, x);
    }
  }

  lemma FinishedFacts(s: State, s': State, t: nat, u: nat, b: Job, k: nat)
    requires t < |s.phases| && u < |s.phases| && t != u && AtPart(s.phases[u], b, k) && Finished(s, s', u)
    ensures |s'.phases| == |s.phases| && s'.phases[t] == s.phases[t]
    ensures s'.phases[u].Done? && s'.phases[u].done == Some(b) && !s'.phases[u].error
    ensures b.Filled(k) <= b.len && b.off + b.len <= |s.disk|
    ensures !b.write ==> s'.disk == s.disk && s'.phases[u].buf == s.phases[u].buf + s.disk[b.off + b.Filled(k)..b.off + b.len]
  {
    hide Pieces;
  }

  /** What the misaligned read has: bytes from before the aligned write, and from after it. */
  lemma ReadAcross(a: Job, b: Job, n: nat, d0: seq<byte>, disk: seq<byte>, buf: seq<byte>, after: seq<byte>, all: seq<byte>, x: nat, y: nat)
    requires a.write && !b.write && a.Fits(|d0|) && b.Fits(|d0|) && n <= b.len
    requires disk == Applied(b, n, d0) && Holds(b, n, buf, d0) && after == Applied(a, a.len, disk)
    requires all == buf + after[b.off + n..b.off + b.len]
    requires b.off <= x < b.off + n <= y < b.off + b.len && a.off <= y < a.off + a.len
    requires a.off <= x < a.off + a.len && d0[x] != a.data[x - a.off] && d0[y] != a.data[y - a.off]
    ensures Torn(b, a, all, d0, x, y)
  {
    hide Applied;
    ReadsChangeNothing(b, n, d0);
    LandedByte(a, d0, y);
  }

  /** What the aligned read has: bytes from before the misaligned write, and from after it. */
  lemma SeenHalf(a: Job, b: Job, n: nat, d0: seq<byte>, disk: seq<byte>, buf: seq<byte>, x: nat, y: nat)
    requires !a.write && b.write && a.Fits(|d0|) && b.Fits(|d0|) && n <= b.len
    requires disk == Applied(b, n, d0) && buf == disk[a.off..a.off + a.len]
    requires b.off <= x < b.off + n <= y < b.off + b.len && a.off <= x < a.off + a.len && a.off <= y < a.off + a.len
    requires d0[x] != b.data[x - b.off] && d0[y] != b.data[y - b.off]
    ensures Torn(a, b, buf, d0, y, x)
  {
    hide Applied;
    LandedPart(b, n, d0, x, y);
  }

  lemma LandedByte(a: Job, d: seq<byte>, y: nat)
    requires a.write && a.Fits(|d|) && a.off <= y < a.off + a.len
    ensures Applied(a, a.len, d)[y] == a.data[y - a.off]
  {
  }

  lemma LandedPart(b: Job, n: nat, d: seq<byte>, x: nat, y: nat)
    requires b.write && b.Fits(|d|) && n <= b.len && b.off <= x < b.off + n <= y < |d|
    ensures Applied(b, n, d)[x] == b.data[x - b.off] && Applied(b, n, d)[y] == d[y]
  {
  }

  lemma WrittenBack(c: Config, s: State, u: nat)
    requires c.Valid() && Shape(c, s) && Enabled(c, s, Io(u, true)) && Patching(s.phases[u])
    ensures var s' := Apply(c, s, Io(u, true)); var ph := s.phases[u];
      && |s'.phases| == |s.phases| && s'.phases == s.phases[u := ph.(k := ph.k + 1, tmp := None)]
  {
    hide Splice, Pieces, Aligned, Outgoing, StartJob, Transferable;
    assert PhaseOk(c, s, u);
  }

  /** The disk outside the misaligned call's range, before the aligned one lands. */
  lemma OutsideSoFar(c: Config, s: State, t: nat, u: nat)
    requires TwoCalls(c, t, u) && Consistent(c, s, t, u) && AboutJobs(c, s, t, u) && JobOf(c, t).value.len > 0 && NotLanded(s.phases[t])
    ensures var b := JobOf(c, u).value;
      |s.disk| == |c.d0| && forall i :: 0 <= i < |c.d0| && !(b.off <= i < b.off + b.len) ==> s.disk[i] == c.d0[i]
  {
    hide Pieces, StartJob, JobOf, Applied, Holds;
    var a, b := JobOf(c, t).value, JobOf(c, u).value;
    FilledStart(a);
    AppliedNothing(a, c.d0);
    ThroughFits(s.phases[u], b);
    JobsFit(c, t, u);
    FirstIfNothing(c.d0, s.disk, a, Got(s.phases[t]), b, Through(s.phases[u]), Got(s.phases[u]));
    AppliedOutside(b, Through(s.phases[u]), c.d0);
  }

  lemma AppliedOutside(b: Job, n: nat, d: seq<byte>)
    requires b.Fits(|d|) && n <= b.len
    ensures forall i :: 0 <= i < |d| && !(b.off <= i < b.off + b.len) ==> Applied(b, n, d)[i] == d[i]
  {
  }

  /** The aligned write falls between reading and writing back a sector it overlaps; both calls
      finish without an error, and no order has the aligned write's byte undone. */
  lemma UndoneRun(c: Config, t: nat, u: nat) returns (run: seq<Action>)
    requires TwoCalls(c, t, u) && AlignedWriter(c, t) && MisalignedWriter(c, u)
    requires CoversPartial(JobOf(c, t).value, JobOf(c, u).value) && JobOf(c, t).value.len > 0
    requires var a := JobOf(c, t).value;
      |a.data| == a.len && forall x :: a.off <= x < a.off + a.len && x < |c.d0| ==> c.d0[x] != a.data[x - a.off]
    ensures Exec(c, run).Some? && Exec(c, run).value.phases[t].Done? && Exec(c, run).value.phases[u].Done?
    ensures !SomeOrder(c, Exec(c, run).value)
  {
    hide Exec, StartJob, Pieces, Aligned, CoversPartial, Apply, Enabled, Consistent, AboutJobs, SomeOrder, Finished, FreshAt, Touches;
    var before := EnteredRun(c, t, u);
    var s := Exec(c, before).value;
    ShapeAlways(c, before);
    RunAboutJobs(c, before, t, u);
    PairBefore(c, before, t, u);
    OutsideSoFar(c, s, t, u);
    TouchesSomething(JobOf(c, t).value, PatchedSector(s.phases[u]));
    CanTransfer(c, before, t);
    Extend(c, before, Io(t, true));
    var landed := before + [Io(t, true)];
    var s1 := Exec(c, landed).value;
    ShapeAlways(c, landed);
    StoredAligned(c, s, s1, t, u);
    CanTransfer(c, landed, u);
    Extend(c, landed, Io(u, true));
    var undone := landed + [Io(u, true)];
    var s2 := Exec(c, undone).value;
    var i := StaleByte(c, s, s1, s2, t, u);
    WrittenBack(c, s1, u);
    run := FinishBoth(c, undone, t, u, i);
    TornUpdate(c, Exec(c, run).value, t, u, i);
  }

  /** Both calls finish, and a byte outside the misaligned one's range stays as it is. */
  lemma FinishBoth(c: Config, run: seq<Action>, t: nat, u: nat, i: nat) returns (r: seq<Action>)
    requires TwoCalls(c, t, u) && Exec(c, run).Some? && |Exec(c, run).value.phases| == 2
    requires var s := Exec(c, run).value; var pt, pu := s.phases[t], s.phases[u];
      && pt.Running? && !pt.failed && pt.k == |pt.job.Parts()| && Some(pt.job) == JobOf(c, t)
      && pu.Running? && !pu.failed && pu.k <= |pu.job.Parts()| && pu.tmp.None? && Some(pu.job) == JobOf(c, u)
      && pu.job.write && i < |s.disk| && !(pu.job.off <= i < pu.job.off + pu.job.len)
    ensures Exec(c, r).Some?
    ensures var s, s' := Exec(c, run).value, Exec(c, r).value;
      && |s'.phases| == 2 && |s'.disk| == |s.disk| && s'.disk[i] == s.disk[i]
      && s'.phases[t].Done? && s'.phases[t].done == JobOf(c, t) && !s'.phases[t].error
      && s'.phases[u].Done? && s'.phases[u].done == JobOf(c, u) && !s'.phases[u].error
  {
    hide Exec, StartJob, Pieces, Aligned, JobOf;
    var next := LastSteps(c, run, t);
    r := FinishParts(c, next, u);
  }

  // ----- the exact condition

  ghost predicate RunToEnd(c: Config, run: seq<Action>) {
    && Exec(c, run).Some?
    && forall v :: 0 <= v < |c.calls| ==> Exec(c, run).value.phases[v].Done?
  }

  lemma SamePair(c: Config, d0: seq<byte>, t: nat, u: nat)
    requires TwoCalls(c, t, u) && |d0| == |c.d0|
    ensures TwoCalls(c.(d0 := d0), t, u)
    ensures JobOf(c.(d0 := d0), t) == JobOf(c, t) && JobOf(c.(d0 := d0), u) == JobOf(c, u)
  {
    hide JobOf, PatchesClear;
    SameCalls(c, d0);
  }

  /** Calls that are not compatible have a disk and a schedule without an explanation. */
  lemma UnexplainedRun(c: Config, t: nat, u: nat) returns (d0: seq<byte>, run: seq<Action>)
    requires TwoCalls(c, t, u) && !Compatible(JobOf(c, t).value, JobOf(c, u).value)
    ensures |d0| == |c.d0| && RunToEnd(c.(d0 := d0), run) && !SomeOrder(c.(d0 := d0), Exec(c.(d0 := d0), run).value)
  {
    hide StartJob, Pieces, Aligned, CoversPartial, MeetsTwoParts, Exec, SomeOrder;
    var a, b := JobOf(c, t).value, JobOf(c, u).value;
    JobsFit(c, t, u);
    var w := if a.write then a else b;
    d0 := Against(w, |c.d0|);
    SamePair(c, d0, t, u);
    var e := c.(d0 := d0);
    if MeetsTwoParts(a, b) {
      TwoPartsPartial(a, b);
    }
    if a.write && b.write {
      CoversSomething(a, b);
      run := UndoneRun(e, t, u);
    } else {
      run := TornRun(e, t, u);
    }
  }

  lemma CoversSomething(a: Job, b: Job)
    requires !a.Locked() && CoversPartial(a, b)
    ensures a.len > 0
  {
    var sector := if b.off % SECTOR != 0 && Touches(a, b.off / SECTOR) then b.off / SECTOR else (b.off + b.len) / SECTOR;
    TouchCovers(a, sector);
  }

  /** The exact condition: on every disk, every finished schedule of the two calls is explained by
      one of their two orders, disk, data, counts and errors, if and only if they are compatible. */
  lemma PairExact(c: Config, t: nat, u: nat)
    requires TwoCalls(c, t, u)
    ensures Compatible(JobOf(c, t).value, JobOf(c, u).value) <==>
      forall d0, run :: |d0| == |c.d0| && RunToEnd(c.(d0 := d0), run) ==> SomeOrder(c.(d0 := d0), Exec(c.(d0 := d0), run).value)
  {
    hide Compatible, SomeOrder, Exec, JobOf;
    if Compatible(JobOf(c, t).value, JobOf(c, u).value) {
      forall d0, run | |d0| == |c.d0| && RunToEnd(c.(d0 := d0), run)
        ensures SomeOrder(c.(d0 := d0), Exec(c.(d0 := d0), run).value)
      {
        SamePair(c, d0, t, u);
        CompatibleHasOrder(c.(d0 := d0), run, t, u);
      }
    } else {
      var d0, run := UnexplainedRun(c, t, u);
    }
  }

  /** An aligned write over the middle of a misaligned one, as in the repository's test, is compatible
      with it: each of their finished schedules has an order. */
  lemma MiddleOverlapHasOrder(d0: seq<byte>, a: seq<byte>, b: seq<byte>, run: seq<Action>)
    requires |d0| % SECTOR == 0 && |d0| >= 3 * SECTOR && |a| == SECTOR + 14 && |b| == SECTOR
    requires RunToEnd(Config([WriteAt(500, a), WriteAt(SECTOR, b)], d0), run)
    ensures var c := Config([WriteAt(500, a), WriteAt(SECTOR, b)], d0);
      SomeOrder(c, Exec(c, run).value)
  {
    var c := Config([WriteAt(500, a), WriteAt(SECTOR, b)], d0);
    var p, q := Job(true, 500, SECTOR + 14, a), Job(true, SECTOR, SECTOR, b);
    assert JobOf(c, 0) == Some(p) && JobOf(c, 1) == Some(q) && TwoCalls(c, 1, 0);
    assert p.Parts() == [Piece(0, 1, 0, 12), Piece(1, 1, 12, 524), Piece(2, 1, 524, 526)];
    assert Compatible(q, p);
    CompatibleHasOrder(c, run, 1, 0);
  }
}
