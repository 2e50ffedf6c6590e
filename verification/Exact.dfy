/** Exactly which calls can lose an update. */
module Exact {
  import opened Options
  import opened Bytes
  import opened Layout
  import opened Protocol
  import opened Locks
  import opened LostUpdate
  import opened Updates
  import opened Apart

  /** Byte `i` is as at the start if no call has stored it, and otherwise as one of those calls left it. */
  ghost predicate KeepsByte(d0: seq<byte>, s: State, i: nat)
    requires |s.disk| == |d0| && i < |d0|
  {
    && ((forall t :: !Wrote(s, t, i)) ==> s.disk[i] == d0[i])
    && ((exists t :: Wrote(s, t, i)) ==> exists t :: Wrote(s, t, i) && s.disk[i] == ByteFrom(s, t, i))
  }

  ghost predicate LosesNothing(d0: seq<byte>, s: State) {
    |s.disk| == |d0| && forall i :: 0 <= i < |d0| ==> KeepsByte(d0, s, i)
  }

  // ----- a disk that differs from an aligned write everywhere in its range

  function Other(b: byte): byte {
    if b == 0 then 1 else 0
  }

  function Against(a: Job, size: nat): (d: seq<byte>)
    requires |a.data| == a.len
    ensures |d| == size
    ensures forall x :: 0 <= x < size ==> d[x] == if a.off <= x < a.off + a.len then Other(a.data[x - a.off]) else 0
  {
    seq(size, x requires 0 <= x < size => if a.off <= x < a.off + a.len then Other(a.data[x - a.off]) else 0)
  }

  /** What calls amount to does not depend on what the disk holds. */
  lemma SameCalls(c: Config, d0: seq<byte>)
    requires c.Valid() && Positioned(c) && |d0| == |c.d0|
    ensures c.(d0 := d0).Valid() && Positioned(c.(d0 := d0))
    ensures forall t :: 0 <= t < |c.calls| ==> JobOf(c.(d0 := d0), t) == JobOf(c, t)
    ensures PatchesClear(c.(d0 := d0)) <==> PatchesClear(c)
  {
    hide StartJob, CoversPartial, Aligned;
    var e := c.(d0 := d0);
    forall t | 0 <= t < |c.calls|
      ensures JobOf(e, t) == JobOf(c, t) && AlignedWriter(e, t) == AlignedWriter(c, t) && MisalignedWriter(e, t) == MisalignedWriter(c, t)
    {
    }
  }

  // ----- the byte that is lost

  /** A partly covered sector has a byte outside the whole transfer. */
  lemma SpareByte(b: Job, k: nat) returns (i: nat)
    requires k < |b.Parts()| && b.Parts()[k].Partial()
    ensures b.Parts()[k].start * SECTOR <= i < (b.Parts()[k].start + 1) * SECTOR
    ensures !(b.off <= i < b.off + b.len)
  {
    PatchedIsPartial(b, k);
    hide Pieces;
    var sector := b.Parts()[k].start;
    i := if b.off % SECTOR != 0 && sector == b.off / SECTOR then sector * SECTOR else (sector + 1) * SECTOR - 1;
  }

  /** An aligned transfer that overlaps a sector covers it. */
  lemma TouchCovers(a: Job, sector: nat)
    requires !a.Locked() && Touches(a, sector)
    ensures a.off <= sector * SECTOR && (sector + 1) * SECTOR <= a.off + a.len
  {
    assert a.off == a.off / SECTOR * SECTOR && a.len == a.len / SECTOR * SECTOR;
  }

  /** The write-back of a patched sector leaves the sector's other bytes as they were read. */
  lemma WriteBackKeeps(disk: seq<byte>, ph: Phase, i: nat)
    requires Patching(ph) && ph.job.write && RunOk(ph, |disk|) && Transferable(disk, ph)
    requires var at := PatchedSector(ph) * SECTOR; at <= i < at + SECTOR && !(ph.job.off <= i < ph.job.off + ph.job.len)
    ensures var at := PatchedSector(ph) * SECTOR;
      at + SECTOR <= |disk| && Splice(disk, at, Outgoing(ph))[i] == ph.tmp.value[i - at]
  {
    FilledStep(ph.job, ph.k);
    hide Pieces, Aligned, Tiles;
    var p := ph.job.Parts()[ph.k];
    var at, x := p.start * SECTOR, ph.job.off + p.lo - p.start * SECTOR;
    assert Outgoing(ph) == Splice(ph.tmp.value, x, ph.job.data[p.lo..p.hi]);
    assert p.hi <= ph.job.len;
  }

  /** Only thread `u` has begun to store anything, and byte `i` is outside its range. */
  lemma NobodyWrote(c: Config, s: State, t: nat, u: nat, i: nat)
    requires |s.phases| == |c.calls| && t < |c.calls| && u < |c.calls| && s.phases[u].Running? && s.phases[t].Running?
    requires s.phases[t].k == 0 && |s.phases[u].job.data| == s.phases[u].job.len
    requires !(s.phases[u].job.off <= i < s.phases[u].job.off + s.phases[u].job.len)
    requires forall v :: 0 <= v < |c.calls| && v != u && v != t ==> s.phases[v].Ready?
    ensures forall v :: !Wrote(s, v, i)
  {
    FilledStart(s.phases[t].job);
    hide Pieces;
  }

  lemma OnlyOneWrote(c: Config, s: State, t: nat, u: nat, i: nat)
    requires |s.phases| == |c.calls| && t < |c.calls| && u < |c.calls| && u != t && s.phases[u].Running? && s.phases[t].Running?
    requires var a := s.phases[t].job;
      a.write && !a.Locked() && |a.Parts()| == 1 && s.phases[t].k == 1 && |a.data| == a.len && a.off <= i < a.off + a.len
    requires |s.phases[u].job.data| == s.phases[u].job.len
    requires !(s.phases[u].job.off <= i < s.phases[u].job.off + s.phases[u].job.len)
    requires forall v :: 0 <= v < |c.calls| && v != u && v != t ==> s.phases[v].Ready?
    ensures Wrote(s, t, i) && ByteFrom(s, t, i) == s.phases[t].job.data[i - s.phases[t].job.off]
    ensures forall v :: Wrote(s, v, i) ==> v == t
  {
    FilledStart(s.phases[t].job);
    hide Pieces;
  }

  /** An aligned write falls between reading and writing back a sector it overlaps; then either the
      state before had already lost something, or the write-back undoes the aligned write's byte. */
  lemma LosingRun(c: Config, t: nat, u: nat) returns (run: seq<Action>)
    requires c.Valid() && Positioned(c) && t < |c.calls| && u < |c.calls| && AlignedWriter(c, t) && MisalignedWriter(c, u)
    requires CoversPartial(JobOf(c, t).value, JobOf(c, u).value)
    requires var a := JobOf(c, t).value;
      |a.data| == a.len && forall x :: a.off <= x < a.off + a.len && x < |c.d0| ==> c.d0[x] != a.data[x - a.off]
    ensures Exec(c, run).Some? && !LosesNothing(c.d0, Exec(c, run).value)
  {
    hide Exec, StartJob, Pieces, Aligned, CoversPartial, Apply, Enabled, LosesNothing;
    run := EnteredRun(c, t, u);
    var s := Exec(c, run).value;
    ShapeAlways(c, run);
    if LosesNothing(c.d0, s) {
      TouchesSomething(JobOf(c, t).value, PatchedSector(s.phases[u]));
      CanTransfer(c, run, t);
      Extend(c, run, Io(t, true));
      run := run + [Io(t, true)];
      var s1 := Exec(c, run).value;
      ShapeAlways(c, run);
      StoredAligned(c, s, s1, t, u);
      CanTransfer(c, run, u);
      Extend(c, run, Io(u, true));
      run := run + [Io(u, true)];
      UpdateLost(c, s, s1, Exec(c, run).value, t, u);
    }
  }

  /** The aligned write lands, and the patching thread knows nothing of it. */
  lemma StoredAligned(c: Config, s: State, s1: State, t: nat, u: nat)
    requires Shape(c, s) && Enabled(c, s, Io(t, true)) && s1 == Apply(c, s, Io(t, true)) && u < |c.calls| && u != t
    requires s.phases[t].k == 0 && s.phases[t].job.write && !s.phases[t].job.Locked() && |s.phases[t].job.Parts()| == 1
    ensures s1.phases == s.phases[t := s.phases[t].(k := 1, tmp := None)] && |s1.disk| == |s.disk|
  {
    AlignedWrite(c, s, t);
    IoMoves(s, t);
    hide ApplyIo, Aligned, Pieces, Shape;
  }

  lemma StaleByte(c: Config, s: State, s1: State, s2: State, t: nat, u: nat) returns (i: nat)
    requires c.Valid() && Shape(c, s) && Shape(c, s1) && t < |c.calls| && u < |c.calls| && u != t
    requires s.phases[t].Running? && !s.phases[t].job.Locked()
    requires Patching(s.phases[u]) && FreshAt(s.disk, s.phases[u]) && Touches(s.phases[t].job, PatchedSector(s.phases[u]))
    requires s1.phases[u] == s.phases[u]
    requires Enabled(c, s1, Io(u, true)) && s2 == Apply(c, s1, Io(u, true))
    ensures |s2.disk| == |s.disk| == |c.d0| && i < |c.d0| && s2.disk[i] == s.disk[i]
    ensures s.phases[t].job.off <= i < s.phases[t].job.off + s.phases[t].job.len
    ensures !(s.phases[u].job.off <= i < s.phases[u].job.off + s.phases[u].job.len)
    ensures |s.phases[u].job.data| == s.phases[u].job.len
    ensures s2.phases == s1.phases[u := s2.phases[u]] && s2.phases[u].Running? && s2.phases[u].job == s.phases[u].job
  {
    var ph := s.phases[u];
    PhaseOfShape(c, s, u);
    PhaseOfShape(c, s1, u);
    PatcherIsPartial(c, s, u);
    assert |s1.disk| == |s.disk| == |c.d0|;
    hide Shape, Pieces, Aligned, StartJob, Splice, Outgoing, CoversPartial;
    i := SpareByte(ph.job, ph.k);
    TouchCovers(s.phases[t].job, PatchedSector(ph));
    WriteBackKeeps(s1.disk, ph, i);
    assert ph.tmp.value[i - PatchedSector(ph) * SECTOR] == s.disk[i];
  }

  lemma UpdateLost(c: Config, s: State, s1: State, s2: State, t: nat, u: nat)
    requires c.Valid() && Shape(c, s) && Shape(c, s1) && t < |c.calls| && u < |c.calls| && u != t
    requires s.phases[t].Running? && s.phases[t].k == 0 && s.phases[t].job.write && !s.phases[t].job.Locked() && |s.phases[t].job.Parts()| == 1
    requires Patching(s.phases[u]) && FreshAt(s.disk, s.phases[u]) && Touches(s.phases[t].job, PatchedSector(s.phases[u]))
    requires forall v :: 0 <= v < |c.calls| && v != u && v != t ==> s.phases[v].Ready?
    requires s1.phases == s.phases[t := s.phases[t].(k := 1, tmp := None)] && |s1.disk| == |s.disk|
    requires Enabled(c, s1, Io(u, true)) && s2 == Apply(c, s1, Io(u, true))
    requires var a := s.phases[t].job;
      |a.data| == a.len && forall x :: a.off <= x < a.off + a.len && x < |c.d0| ==> c.d0[x] != a.data[x - a.off]
    requires LosesNothing(c.d0, s)
    ensures !LosesNothing(c.d0, s2)
  {
    hide Pieces, Aligned, StartJob, Splice, Outgoing, Apply, Enabled, FreshAt, Touches, PhaseOk, Wrote;
    var i := StaleByte(c, s, s1, s2, t, u);
    NobodyWrote(c, s, t, u, i);
    assert KeepsByte(c.d0, s, i);
    OnlyOneWrote(c, s2, t, u, i);
    assert !KeepsByte(c.d0, s2, i);
  }

  /** The exact condition: no schedule of the calls, on any disk, loses an update at any moment if
      and only if no aligned write overlaps a sector that a misaligned write only covers in part. */
  lemma LosesNothingExact(c: Config)
    requires c.Valid() && Positioned(c)
    ensures PatchesClear(c) <==>
      forall d0, run :: |d0| == |c.d0| && Exec(c.(d0 := d0), run).Some? ==> LosesNothing(d0, Exec(c.(d0 := d0), run).value)
  {
    if PatchesClear(c) {
      forall d0, run | |d0| == |c.d0| && Exec(c.(d0 := d0), run).Some?
        ensures LosesNothing(d0, Exec(c.(d0 := d0), run).value)
      {
        SameCalls(c, d0);
        ClearLosesNothing(c.(d0 := d0), run);
      }
    } else {
      var t, u :| 0 <= t < |c.calls| && 0 <= u < |c.calls| && AlignedWriter(c, t) && MisalignedWriter(c, u)
        && CoversPartial(JobOf(c, t).value, JobOf(c, u).value);
      var d0 := Against(JobOf(c, t).value, |c.d0|);
      SameCalls(c, d0);
      var run := LosingRun(c.(d0 := d0), t, u);
    }
  }

  lemma ClearLosesNothing(c: Config, run: seq<Action>)
    requires c.Valid() && Positioned(c) && PatchesClear(c) && Exec(c, run).Some?
    ensures LosesNothing(c.d0, Exec(c, run).value)
  {
    ShapeAlways(c, run);
    forall i | 0 <= i < |c.d0|
      ensures KeepsByte(c.d0, Exec(c, run).value, i)
    {
      ClearCallsLoseNothing(c, run, i);
    }
  }
}
