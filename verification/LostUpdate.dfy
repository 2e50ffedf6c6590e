/** When no update is lost. An aligned write takes no lock, so it can fall between the read and
    the write-back of a sector that a misaligned write is patching; these are exactly the device
    writes whose effect is not the byte splice they stand for. */
module LostUpdate {
  import opened Options
  import opened Bytes
  import opened Layout
  import opened DiskHandle
  import opened Protocol
  import opened Locks

  /** The disk after the byte splices that the device writes stand for, in their order. */
  function Replay(d: seq<byte>, frags: seq<Frag>): (r: seq<byte>)
    ensures |r| == |d|
  {
    if frags == [] then d
    else
      var f := frags[|frags| - 1];
      var before := Replay(d, frags[..|frags| - 1]);
      if f.off + |f.bytes| <= |d| then Splice(before, f.off, f.bytes) else before
  }

  predicate Hits(f: Frag, i: nat) {
    f.off <= i < f.off + |f.bytes|
  }

  /** The sector that a thread has read and not yet written back. */
  function PatchedSector(ph: Phase): nat
    requires ph.Running? && ph.k < |ph.job.Parts()|
  {
    ph.job.Parts()[ph.k].start
  }

  /** Step `a` is an aligned write that covers a sector some thread is in the middle of patching. */
  ghost predicate Disturbs(s: State, a: Action) {
    && a.Io? && a.ok && a.t < |s.phases|
    && s.phases[a.t].Running? && s.phases[a.t].job.write && !s.phases[a.t].job.Locked()
    && exists h :: 0 <= h < |s.phases| && Patching(s.phases[h])
        && s.phases[a.t].job.off < (PatchedSector(s.phases[h]) + 1) * SECTOR
        && PatchedSector(s.phases[h]) * SECTOR < s.phases[a.t].job.off + s.phases[a.t].job.len
  }

  predicate Patching(ph: Phase) {
    ph.Running? && ph.tmp.Some? && ph.k < |ph.job.Parts()|
  }

  ghost predicate Undisturbed(c: Config, run: seq<Action>)
    requires Exec(c, run).Some?
  {
    run != [] ==>
      && Undisturbed(c, run[..|run| - 1])
      && !Disturbs(Exec(c, run[..|run| - 1]).value, run[|run| - 1])
  }

  /** Every sector read for patching still has the contents it was read with. */
  ghost predicate Fresh(s: State) {
    forall h :: 0 <= h < |s.phases| && Patching(s.phases[h]) ==> FreshAt(s.disk, s.phases[h])
  }

  ghost predicate FreshAt(disk: seq<byte>, ph: Phase)
    requires Patching(ph)
  {
    var at := PatchedSector(ph) * SECTOR;
    at + SECTOR <= |disk| && ph.tmp.value == disk[at..at + SECTOR]
  }

  /** The device write of a piece, seen as bytes: with a fresh sector it is exactly the splice of
      the piece's own bytes. */
  lemma WriteBackIsSplice(disk: seq<byte>, ph: Phase)
    requires ph.Running? && ph.job.write && ph.k < |ph.job.Parts()| && RunOk(ph, |disk|)
    requires Transferable(disk, ph) && !Fetches(ph)
    requires Patching(ph) ==> FreshAt(disk, ph)
    ensures var p := ph.job.Parts()[ph.k];
      Splice(disk, p.start * SECTOR, Outgoing(ph)) == Splice(disk, ph.job.off + p.lo, ph.job.data[p.lo..p.hi])
  {
    hide Splice, Pieces, Aligned, HeadLen, BodyLen;
    var p := ph.job.Parts()[ph.k];
    var at, x := p.start * SECTOR, ph.job.off + p.lo - p.start * SECTOR;
    var data := ph.job.data[p.lo..p.hi];
    if Patching(ph) {
      assert at + SECTOR <= |disk| && x + |data| <= SECTOR;
      assert Outgoing(ph) == Splice(disk[at..at + SECTOR], x, data);
      hide *;
      PatchWindow(disk, at, SECTOR, x, data);
    }
  }

  /** The exact condition: a write-back acts as the splice of its own bytes if and only if the
      sector it was read from still agrees with the disk on every byte outside them. */
  lemma WriteBackExact(disk: seq<byte>, ph: Phase)
    requires Patching(ph) && ph.job.write && RunOk(ph, |disk|) && Transferable(disk, ph)
    ensures var p := ph.job.Parts()[ph.k];
      var at, x := p.start * SECTOR, ph.job.off + p.lo - p.start * SECTOR;
      Splice(disk, at, Outgoing(ph)) == Splice(disk, ph.job.off + p.lo, ph.job.data[p.lo..p.hi])
      <==> forall y :: 0 <= y < SECTOR && !(x <= y < x + p.hi - p.lo) ==> ph.tmp.value[y] == disk[at + y]
  {
    hide Splice, Pieces, Aligned, HeadLen, BodyLen;
    var p := ph.job.Parts()[ph.k];
    var at, x := p.start * SECTOR, ph.job.off + p.lo - p.start * SECTOR;
    var tmp, data := ph.tmp.value, ph.job.data[p.lo..p.hi];
    assert |tmp| == SECTOR && |data| == p.hi - p.lo && at + |tmp| <= |disk| && x + |data| <= |tmp|;
    assert Outgoing(ph) == Splice(tmp, x, data);
    hide *;
    PatchWindowExact(disk, at, tmp, x, data);
  }

  /** Only the holder of the handle mutex can be patching a sector. */
  lemma PatcherHoldsLock(c: Config, s: State, h: nat)
    requires Shape(c, s) && h < |c.calls| && Patching(s.phases[h])
    ensures s.handleLock == Some(h)
  {
    assert PhaseOk(c, s, h);
    if !s.phases[h].job.Locked() {
      AlignedParts(s.phases[h].job);
    }
  }

  /** A device call of the patching thread itself: it has just read the sector. */
  lemma FreshRead(disk: seq<byte>, ph: Phase)
    requires ph.Running? && ph.k < |ph.job.Parts()| && RunOk(ph, |disk|) && Transferable(disk, ph)
    requires Patching(NextPhase(disk, ph))
    ensures Fetches(ph) && FreshAt(disk, NextPhase(disk, ph))
  {
    PiecesTile(ph.job.off, ph.job.len);
    var p := ph.job.Parts()[ph.k];
    assert PieceFits(p, ph.job.off, ph.job.len);
    hide Pieces, Tiles;
  }

  /** An aligned write that does not cover the patched sector leaves it alone. */
  lemma FreshBeside(disk: seq<byte>, ph: Phase, job: Job)
    requires Patching(ph) && FreshAt(disk, ph)
    requires job.write && !job.Locked() && job.len > 0 && job.off + job.len <= |disk| && |job.data| == job.len
    requires !(job.off < (PatchedSector(ph) + 1) * SECTOR && PatchedSector(ph) * SECTOR < job.off + job.len)
    ensures FreshAt(Splice(disk, job.off, job.data), ph)
  {
    var at := PatchedSector(ph) * SECTOR;
    assert Splice(disk, job.off, job.data)[at..at + SECTOR] == disk[at..at + SECTOR];
  }

  /** What an aligned write does to the disk. */
  lemma AlignedWrite(c: Config, s: State, t: nat)
    requires Shape(c, s) && Enabled(c, s, Io(t, true))
    requires s.phases[t].job.write && !s.phases[t].job.Locked()
    ensures var job := s.phases[t].job;
      && job.len > 0 && job.off + job.len <= |s.disk| && |job.data| == job.len
      && ApplyIo(s, t).disk == Splice(s.disk, job.off, job.data)
      && ApplyIo(s, t).frags == s.frags + [Frag(t, 0, job.off, job.data)]
      && ApplyIo(s, t).log == s.log + [Entry(t, true, false, job.off, job.data)]
      && ApplyIo(s, t).phases[t] == s.phases[t].(k := 1, tmp := None)
  {
    assert PhaseOk(c, s, t);
    AlignedParts(s.phases[t].job);
    var job := s.phases[t].job;
    assert job.data[0..job.len] == job.data;
  }

  lemma FreshStep(c: Config, s: State, a: Action)
    requires c.Valid() && Shape(c, s) && Enabled(c, s, a) && Fresh(s) && !Disturbs(s, a)
    ensures Fresh(Apply(c, s, a))
  {
    var s' := Apply(c, s, a);
    ShapeStep(c, s, a);
    forall h | 0 <= h < |s'.phases| && Patching(s'.phases[h])
      ensures FreshAt(s'.disk, s'.phases[h])
    {
      PatcherHoldsLock(c, s', h);
      if !(a.Io? && a.ok) {
        FreshQuiet(c, s, a, h);
      } else if a.t == h {
        assert PhaseOk(c, s, h);
        FreshRead(s.disk, s.phases[h]);
      } else {
        FreshOther(c, s, a.t, h);
      }
    }
  }

  lemma FreshQuiet(c: Config, s: State, a: Action, h: nat)
    requires Shape(c, s) && Enabled(c, s, a) && Fresh(s) && !(a.Io? && a.ok)
    requires h < |s.phases| && Patching(Apply(c, s, a).phases[h])
    ensures FreshAt(Apply(c, s, a).disk, Apply(c, s, a).phases[h])
  {
    hide Pieces, Aligned, ClampLen, StartJob;
    assert Patching(s.phases[h]);
  }

  lemma FreshOther(c: Config, s: State, t: nat, h: nat)
    requires Shape(c, s) && Enabled(c, s, Io(t, true)) && Fresh(s) && !Disturbs(s, Io(t, true))
    requires h < |s.phases| && h != t && Patching(s.phases[h]) && s.handleLock == Some(h)
    ensures FreshAt(ApplyIo(s, t).disk, s.phases[h])
  {
    assert PhaseOk(c, s, t);
    assert !s.phases[t].job.Locked();
    if s.phases[t].job.write {
      AlignedWrite(c, s, t);
      FreshBeside(s.disk, s.phases[h], s.phases[t].job);
    }
  }

  /** In an undisturbed run the disk is, at every moment, the start disk with the byte splices of
      all device writes so far applied in their order: no byte outside a write's own range ever
      goes back to a stale value. */
  lemma {:induction false} DiskIsReplay(c: Config, run: seq<Action>)
    requires c.Valid() && Exec(c, run).Some? && Undisturbed(c, run)
    ensures Fresh(Exec(c, run).value)
    ensures Exec(c, run).value.disk == Replay(c.d0, Exec(c, run).value.frags)
  {
    if run != [] {
      var s, a := Exec(c, run[..|run| - 1]).value, run[|run| - 1];
      DiskIsReplay(c, run[..|run| - 1]);
      ShapeAlways(c, run[..|run| - 1]);
      FreshStep(c, s, a);
      if a.Io? && a.ok {
        ReplayIo(c, s, a.t);
      } else {
        hide Pieces, Aligned, ClampLen, StartJob, Replay;
        assert Apply(c, s, a).frags == s.frags && Apply(c, s, a).disk == s.disk;
      }
    }
  }

  lemma ReplayIo(c: Config, s: State, t: nat)
    requires c.Valid() && Shape(c, s) && Enabled(c, s, Io(t, true)) && Fresh(s)
    requires s.disk == Replay(c.d0, s.frags)
    ensures ApplyIo(s, t).disk == Replay(c.d0, ApplyIo(s, t).frags)
  {
    var ph := s.phases[t];
    assert PhaseOk(c, s, t);
    if ph.job.write && !Fetches(ph) {
      WriteBackIsSplice(s.disk, ph);
      var p := ph.job.Parts()[ph.k];
      var f := Frag(t, p.lo, ph.job.off + p.lo, ph.job.data[p.lo..p.hi]);
      assert (s.frags + [f])[..|s.frags|] == s.frags;
      hide Splice, Pieces, Outgoing, StartJob;
    }
  }

  lemma {:induction false} LastHit(d: seq<byte>, frags: seq<Frag>, i: nat, hit: nat) returns (j: nat)
    requires i < |d| && forall j :: 0 <= j < |frags| ==> frags[j].off + |frags[j].bytes| <= |d|
    requires hit < |frags| && Hits(frags[hit], i)
    ensures j < |frags| && Hits(frags[j], i) && Replay(d, frags)[i] == frags[j].bytes[i - frags[j].off]
    ensures forall m :: j < m < |frags| ==> !Hits(frags[m], i)
    decreases |frags|
  {
    var n := |frags| - 1;
    if Hits(frags[n], i) {
      j := n;
    } else {
      var init := frags[..n];
      j := LastHit(d, init, i, hit);
      assert init[j] == frags[j] && forall m :: 0 <= m < n ==> init[m] == frags[m];
    }
  }

  lemma {:induction false} NeverHit(d: seq<byte>, frags: seq<Frag>, i: nat)
    requires i < |d| && forall j :: 0 <= j < |frags| ==> frags[j].off + |frags[j].bytes| <= |d|
    requires forall j :: 0 <= j < |frags| ==> !Hits(frags[j], i)
    ensures Replay(d, frags)[i] == d[i]
  {
    if frags != [] {
      NeverHit(d, frags[..|frags| - 1], i);
      assert !Hits(frags[|frags| - 1], i);
    }
  }

  /** Byte by byte: the last device write that hits a byte decides it; a byte none hits is as it was. */
  lemma ReplayAt(d: seq<byte>, frags: seq<Frag>, i: nat)
    requires i < |d| && forall j :: 0 <= j < |frags| ==> frags[j].off + |frags[j].bytes| <= |d|
    ensures (forall j :: 0 <= j < |frags| ==> !Hits(frags[j], i)) ==> Replay(d, frags)[i] == d[i]
    ensures (exists j :: 0 <= j < |frags| && Hits(frags[j], i)) ==>
      exists j :: 0 <= j < |frags| && Hits(frags[j], i) && Replay(d, frags)[i] == frags[j].bytes[i - frags[j].off]
        && forall m :: j < m < |frags| ==> !Hits(frags[m], i)
  {
    if hit :| 0 <= hit < |frags| && Hits(frags[hit], i) {
      var j := LastHit(d, frags, i, hit);
    } else {
      NeverHit(d, frags, i);
    }
  }
}
