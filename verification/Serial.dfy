/** Serializability: what calls did to the disk and what reads delivered is what they would have
    done one after the other, in the order in which they appear in the log. */
module Serial {
  import opened Options
  import opened Bytes
  import opened Layout
  import opened DiskHandle
  import opened Protocol
  import opened Locks
  import opened LostUpdate

  /** The disk after the logged transfers, one after the other. */
  function ReplayLog(d: seq<byte>, log: seq<Entry>): (r: seq<byte>)
    ensures |r| == |d|
  {
    if log == [] then d
    else
      var e := log[|log| - 1];
      var before := ReplayLog(d, log[..|log| - 1]);
      if e.write && e.off + |e.bytes| <= |d| then Splice(before, e.off, e.bytes) else before
  }

  /** Every logged read delivered a slice of the disk as the transfers before it left it. */
  ghost predicate Legal(d: seq<byte>, log: seq<Entry>) {
    log != [] ==>
      var e := log[|log| - 1];
      && Legal(d, log[..|log| - 1])
      && e.off + |e.bytes| <= |d|
      && (!e.write ==> e.bytes == ReplayLog(d, log[..|log| - 1])[e.off..e.off + |e.bytes|])
  }

  /** The sector-aligned range around a job. */
  function HullStart(job: Job): nat {
    job.off / SECTOR * SECTOR
  }

  function HullEnd(job: Job): nat {
    CeilDiv(job.off + job.len) * SECTOR
  }

  /** Two transfers of which at least one writes, on overlapping sectors. */
  predicate Conflict(aligned: Job, locked: Job) {
    && (aligned.write || locked.write)
    && aligned.off < HullEnd(locked) && HullStart(locked) < aligned.off + aligned.len
  }

  /** Step `a` is an aligned transfer that conflicts with the misaligned one in progress. */
  ghost predicate Collides(s: State, a: Action) {
    && a.Io? && a.ok && a.t < |s.phases|
    && s.phases[a.t].Running? && !s.phases[a.t].job.Locked()
    && s.handleLock.Some? && s.handleLock.value < |s.phases|
    && s.phases[s.handleLock.value].Running?
    && Conflict(s.phases[a.t].job, s.phases[s.handleLock.value].job)
  }

  ghost predicate Isolated(c: Config, run: seq<Action>)
    requires Exec(c, run).Some?
  {
    run != [] ==>
      && Isolated(c, run[..|run| - 1])
      && !Collides(Exec(c, run[..|run| - 1]).value, run[|run| - 1])
  }

  /** How far the lock holder's transfer has come, on top of the logged ones. */
  ghost predicate Progress(base: seq<byte>, disk: seq<byte>, ph: Phase) {
    && ph.Running? && |disk| == |base| && ph.job.Fits(|base|) && ph.k <= |ph.job.Parts()|
    && ph.job.Filled(ph.k) <= ph.job.len
    && if ph.job.write then
         && disk == Splice(base, ph.job.off, ph.job.data[..ph.job.Filled(ph.k)])
         && (Patching(ph) ==> FreshAt(disk, ph))
       else
         && disk == base
         && |ph.buf| == ph.job.Filled(ph.k)
         && ph.buf == base[ph.job.off..ph.job.off + |ph.buf|]
  }

  ghost predicate Serialized(c: Config, s: State) {
    && Legal(c.d0, s.log)
    && |s.disk| == |c.d0|
    && (s.handleLock.None? ==> s.disk == ReplayLog(c.d0, s.log))
    && (s.handleLock.Some? ==>
          && s.handleLock.value < |s.phases|
          && Progress(ReplayLog(c.d0, s.log), s.disk, s.phases[s.handleLock.value]))
  }

  lemma LogAppend(d: seq<byte>, log: seq<Entry>, e: Entry)
    requires Legal(d, log) && e.off + |e.bytes| <= |d|
    requires !e.write ==> e.bytes == ReplayLog(d, log)[e.off..e.off + |e.bytes|]
    ensures Legal(d, log + [e])
    ensures ReplayLog(d, log + [e]) ==
      if e.write then Splice(ReplayLog(d, log), e.off, e.bytes) else ReplayLog(d, log)
  {
    assert (log + [e])[..|log|] == log;
  }

  /** The lock holder's own device call keeps its progress. */
  lemma ProgressOwn(base: seq<byte>, disk: seq<byte>, s: State, t: nat)
    requires t < |s.phases| && s.disk == disk && |disk| % SECTOR == 0
    requires Progress(base, disk, s.phases[t]) && RunOk(s.phases[t], |disk|)
    requires s.phases[t].k < |s.phases[t].job.Parts()| && Transferable(disk, s.phases[t])
    ensures Progress(base, ApplyIo(s, t).disk, ApplyIo(s, t).phases[t])
  {
    hide Splice, Pieces, Outgoing;
    var ph := s.phases[t];
    FilledStep(ph.job, ph.k);
    RunOkNext(disk, ph);
    if !ph.job.write {
      ProgressRead(base, ph);
    } else if Fetches(ph) {
      FreshRead(disk, ph);
    } else {
      WriteBackIsSplice(disk, ph);
      var p := ph.job.Parts()[ph.k];
      SpliceExtends(base, ph.job.off, ph.job.data, p.lo, p.hi);
    }
  }

  lemma ProgressRead(base: seq<byte>, ph: Phase)
    requires ph.Running? && !ph.job.write && ph.k < |ph.job.Parts()| && Transferable(base, ph)
    requires Progress(base, base, ph) && RunOk(ph, |base|)
    ensures Progress(base, base, NextPhase(base, ph))
  {
    hide Pieces;
    FilledStep(ph.job, ph.k);
    var p := ph.job.Parts()[ph.k];
    assert base[ph.job.off..ph.job.off + p.lo] + base[ph.job.off + p.lo..ph.job.off + p.hi] == base[ph.job.off..ph.job.off + p.hi];
  }

  /** An aligned write beside the lock holder's sectors goes before the holder's transfer in the
      log and changes nothing for it. */
  lemma ProgressBeside(base: seq<byte>, disk: seq<byte>, ph: Phase, job: Job)
    requires Progress(base, disk, ph) && RunOk(ph, |disk|)
    requires job.write && !job.Locked() && job.len > 0 && job.off + job.len <= |disk| && |job.data| == job.len
    requires !Conflict(job, ph.job)
    ensures Progress(Splice(base, job.off, job.data), Splice(disk, job.off, job.data), ph)
  {
    var n := ph.job.Filled(ph.k);
    hide Pieces;
    assert HullStart(ph.job) <= ph.job.off && ph.job.off + ph.job.len <= HullEnd(ph.job);
    if ph.job.write {
      SpliceCommutes(base, ph.job.off, ph.job.data[..n], job.off, job.data);
      if Patching(ph) {
        PatchedInHull(ph);
        FreshBeside(disk, ph, job);
      }
    } else {
      assert Splice(base, job.off, job.data)[ph.job.off..ph.job.off + n] == base[ph.job.off..ph.job.off + n];
    }
  }

  lemma PatchedInHull(ph: Phase)
    requires Patching(ph)
    ensures HullStart(ph.job) <= PatchedSector(ph) * SECTOR
    ensures (PatchedSector(ph) + 1) * SECTOR <= HullEnd(ph.job)
  {
    var ps := ph.job.Parts();
    PiecesTile(ph.job.off, ph.job.len);
    PiecesIncrease(ps, ph.job.off, ph.job.len, ph.k);
  }

  lemma PiecesIncrease(ps: seq<Piece>, off: nat, len: nat, k: nat)
    requires Tiles(ps, off, len) && k < |ps|
    ensures off / SECTOR <= ps[k].start && ps[k].start + ps[k].num <= CeilDiv(off + len)
  {
    var i := 0;
    while i < k
      invariant i <= k && ps[0].start <= ps[i].start
    {
      assert PieceFits(ps[i], off, len);
      i := i + 1;
    }
    while i < |ps| - 1
      invariant k <= i < |ps| && ps[k].start + ps[k].num <= ps[i].start + ps[i].num
    {
      assert PieceFits(ps[i + 1], off, len);
      i := i + 1;
    }
  }

  lemma SerialEnter(c: Config, s: State, t: nat)
    requires c.Valid() && Shape(c, s) && Serialized(c, s) && Enabled(c, s, Enter(t))
    ensures Serialized(c, Apply(c, s, Enter(t)))
  {
    var j := JobFor(c, s, t);
    if j.Some? {
      StartedJobFits(c.calls[t], StartOffset(c.calls[t], s.offset), |s.disk|);
      FilledStart(j.value);
      if j.value.write {
        SpliceNothing(s.disk, j.value.off);
        assert j.value.data[..0] == [];
      }
    }
    hide Pieces, Aligned, ClampLen, StartJob, Splice, Legal, ReplayLog;
  }

  lemma SerialReturn(c: Config, s: State, t: nat)
    requires c.Valid() && Shape(c, s) && Serialized(c, s) && Enabled(c, s, Return(t))
    ensures Serialized(c, Apply(c, s, Return(t)))
  {
    var ph := s.phases[t];
    assert PhaseOk(c, s, t);
    if ph.job.Locked() {
      LogAppend(c.d0, s.log, ReturnEntry(t, ph));
    }
    hide Pieces, Aligned, ClampLen, StartJob, Splice, Legal, ReplayLog;
  }

  /** An aligned read in one device call sees the logged transfers and nothing of the holder's. */
  lemma AlignedReadSlice(base: seq<byte>, disk: seq<byte>, ph: Phase, job: Job)
    requires Progress(base, disk, ph)
    requires !job.write && job.off + job.len <= |disk| && !Conflict(job, ph.job)
    ensures disk[job.off..job.off + job.len] == base[job.off..job.off + job.len]
  {
    hide Pieces;
    assert HullStart(ph.job) <= ph.job.off && ph.job.off + ph.job.len <= HullEnd(ph.job);
  }

  /** What an aligned read delivers. */
  lemma AlignedRead(c: Config, s: State, t: nat)
    requires Shape(c, s) && Enabled(c, s, Io(t, true))
    requires !s.phases[t].job.write && !s.phases[t].job.Locked()
    ensures var job := s.phases[t].job;
      && job.len > 0 && job.off + job.len <= |s.disk|
      && ApplyIo(s, t).disk == s.disk
      && ApplyIo(s, t).log == s.log + [Entry(t, false, false, job.off, s.disk[job.off..job.off + job.len])]
      && ApplyIo(s, t).phases[t] == s.phases[t].(k := 1, buf := s.disk[job.off..job.off + job.len])
  {
    hide Aligned, Splice;
    assert PhaseOk(c, s, t);
    AlignedParts(s.phases[t].job);
    FilledStart(s.phases[t].job);
    assert s.phases[t].k == 0 && s.phases[t].buf == [];
  }

  /** A step that leaves the disk, the log, the handle mutex and its holder alone. */
  lemma SerialFrame(c: Config, s: State, s': State)
    requires Serialized(c, s)
    requires s'.log == s.log && s'.disk == s.disk && s'.handleLock == s.handleLock && |s'.phases| == |s.phases|
    requires s.handleLock.Some? ==> s'.phases[s.handleLock.value] == s.phases[s.handleLock.value]
    ensures Serialized(c, s')
  {
  }

  /** A step that appends one transfer to the log, beside the holder's transfer if there is one. */
  lemma SerialLogged(c: Config, s: State, s': State, e: Entry)
    requires Serialized(c, s) && s'.log == s.log + [e] && s'.handleLock == s.handleLock && |s'.phases| == |s.phases|
    requires e.off + |e.bytes| <= |c.d0| && |s'.disk| == |s.disk|
    requires !e.write ==> e.bytes == ReplayLog(c.d0, s.log)[e.off..e.off + |e.bytes|]
    requires s'.disk == if e.write then Splice(s.disk, e.off, e.bytes) else s.disk
    requires s.handleLock.Some? ==>
      var h := s.handleLock.value;
      var base := ReplayLog(c.d0, s.log);
      && s'.phases[h] == s.phases[h]
      && Progress(if e.write then Splice(base, e.off, e.bytes) else base, s'.disk, s.phases[h])
    ensures Serialized(c, s')
  {
    LogAppend(c.d0, s.log, e);
  }

  lemma SerialAlignedWrite(c: Config, s: State, t: nat)
    requires c.Valid() && Shape(c, s) && Serialized(c, s) && Enabled(c, s, Io(t, true))
    requires s.phases[t].job.write && !s.phases[t].job.Locked() && !Collides(s, Io(t, true))
    ensures Serialized(c, ApplyIo(s, t))
  {
    var job, base := s.phases[t].job, ReplayLog(c.d0, s.log);
    IoMoves(s, t);
    AlignedWrite(c, s, t);
    if s.handleLock.Some? {
      assert PhaseOk(c, s, s.handleLock.value);
      ProgressBeside(base, s.disk, s.phases[s.handleLock.value], job);
    }
    hide ApplyIo, Splice, Legal, ReplayLog, Progress, Aligned, Pieces;
    SerialLogged(c, s, ApplyIo(s, t), Entry(t, true, false, job.off, job.data));
  }

  lemma SerialAlignedRead(c: Config, s: State, t: nat)
    requires c.Valid() && Shape(c, s) && Serialized(c, s) && Enabled(c, s, Io(t, true))
    requires !s.phases[t].job.write && !s.phases[t].job.Locked() && !Collides(s, Io(t, true))
    ensures Serialized(c, ApplyIo(s, t))
  {
    hide ApplyIo, Splice, Legal, ReplayLog, Progress, Aligned, Pieces;
    var job, base := s.phases[t].job, ReplayLog(c.d0, s.log);
    IoMoves(s, t);
    AlignedRead(c, s, t);
    if s.handleLock.Some? {
      AlignedReadSlice(base, s.disk, s.phases[s.handleLock.value], job);
    }
    SerialLogged(c, s, ApplyIo(s, t), Entry(t, false, false, job.off, s.disk[job.off..job.off + job.len]));
  }

  lemma SerialOwn(c: Config, s: State, t: nat)
    requires c.Valid() && Shape(c, s) && Serialized(c, s) && Enabled(c, s, Io(t, true))
    requires s.phases[t].job.Locked()
    ensures Serialized(c, ApplyIo(s, t))
  {
    assert PhaseOk(c, s, t);
    ProgressOwn(ReplayLog(c.d0, s.log), s.disk, s, t);
    IoMoves(s, t);
    assert ApplyIo(s, t).log == s.log;
    hide ApplyIo, Splice, Legal, ReplayLog, Progress, Aligned, Pieces;
  }

  lemma SerialFail(c: Config, s: State, t: nat)
    requires c.Valid() && Shape(c, s) && Serialized(c, s) && Enabled(c, s, Io(t, false))
    ensures Serialized(c, Apply(c, s, Io(t, false)))
  {
    PhaseOfShape(c, s, t);
    hide Shape, Splice, Legal, ReplayLog, Aligned, Pieces, FreshAt, StartJob;
    if s.handleLock == Some(t) {
    } else {
      SerialFrame(c, s, Apply(c, s, Io(t, false)));
    }
  }

  lemma SerialStep(c: Config, s: State, a: Action)
    requires c.Valid() && Shape(c, s) && Serialized(c, s) && Enabled(c, s, a) && !Collides(s, a)
    ensures Serialized(c, Apply(c, s, a))
  {
    hide Splice, Legal, ReplayLog, Progress, Aligned, Pieces, Serialized, ApplyIo, StartJob;
    match a {
      case Enter(t) => SerialEnter(c, s, t);
      case Return(t) => SerialReturn(c, s, t);
      case Io(t, ok) =>
        if !ok {
          SerialFail(c, s, t);
        } else if s.phases[t].job.Locked() {
          SerialOwn(c, s, t);
        } else if s.phases[t].job.write {
          SerialAlignedWrite(c, s, t);
        } else {
          SerialAlignedRead(c, s, t);
        }
      case Begin(t) => SerialFrame(c, s, Apply(c, s, a));
      case Leave(t) => SerialFrame(c, s, Apply(c, s, a));
    }
  }

  /** Serializability of every run in which no aligned transfer overlaps a misaligned one in
      progress: at any moment the log replays, with every read delivering a slice of the disk as
      the transfers before it left it; while no misaligned transfer is in progress the disk is
      exactly the replayed log, and otherwise it is the replayed log plus the part of the holder's
      transfer that is already stored. */
  lemma {:induction false} Serializable(c: Config, run: seq<Action>)
    requires c.Valid() && Exec(c, run).Some? && Isolated(c, run)
    ensures Serialized(c, Exec(c, run).value)
  {
    if run != [] {
      var s, a := Exec(c, run[..|run| - 1]).value, run[|run| - 1];
      Serializable(c, run[..|run| - 1]);
      ShapeAlways(c, run[..|run| - 1]);
      SerialStep(c, s, a);
    }
  }

  /** Runs in which only misaligned transfers reach the device. */
  ghost predicate OnlyMisaligned(c: Config, run: seq<Action>)
    requires Exec(c, run).Some?
  {
    run != [] ==>
      var s, a := Exec(c, run[..|run| - 1]).value, run[|run| - 1];
      OnlyMisaligned(c, run[..|run| - 1]) && (a.Io? ==> s.phases[a.t].job.Locked())
  }

  lemma {:induction false} MisalignedIsolated(c: Config, run: seq<Action>)
    requires Exec(c, run).Some? && OnlyMisaligned(c, run)
    ensures Isolated(c, run)
  {
    if run != [] {
      MisalignedIsolated(c, run[..|run| - 1]);
    }
  }

  /** The condition for serializability includes the weaker one for lost updates. */
  lemma DisturbingCollides(c: Config, s: State, a: Action)
    requires Shape(c, s) && Disturbs(s, a)
    ensures Collides(s, a)
  {
    var h :| 0 <= h < |s.phases| && Patching(s.phases[h])
      && s.phases[a.t].job.off < (PatchedSector(s.phases[h]) + 1) * SECTOR
      && PatchedSector(s.phases[h]) * SECTOR < s.phases[a.t].job.off + s.phases[a.t].job.len;
    PatcherHoldsLock(c, s, h);
    PatchedInHull(s.phases[h]);
    hide Pieces, Aligned;
  }

  lemma {:induction false} IsolatedUndisturbed(c: Config, run: seq<Action>)
    requires c.Valid() && Exec(c, run).Some? && Isolated(c, run)
    ensures Undisturbed(c, run)
  {
    if run != [] {
      var s, a := Exec(c, run[..|run| - 1]).value, run[|run| - 1];
      IsolatedUndisturbed(c, run[..|run| - 1]);
      ShapeAlways(c, run[..|run| - 1]);
      if Disturbs(s, a) {
        DisturbingCollides(c, s, a);
      }
    }
  }
}
