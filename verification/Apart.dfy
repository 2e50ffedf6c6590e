/** Conditions a caller can check from the calls alone, before any of them runs: they hold exactly
    when no schedule can disturb a patched sector, and they make every schedule atomic. */
module Apart {
  import opened Options
  import opened Bytes
  import opened Layout
  import opened DiskHandle
  import opened Protocol
  import opened Locks
  import opened LostUpdate
  import opened Updates
  import opened Serial
  import opened Order

  /** All calls name their own offset. */
  predicate Positioned(c: Config) {
    forall t :: 0 <= t < |c.calls| ==> c.calls[t].ReadAt? || c.calls[t].WriteAt?
  }

  /** The transfer that call `t` will make. */
  function JobOf(c: Config, t: nat): Option<Job>
    requires Positioned(c) && t < |c.calls|
  {
    StartJob(c.calls[t], c.calls[t].off, |c.d0|)
  }

  predicate Touches(a: Job, sector: nat) {
    a.off < (sector + 1) * SECTOR && sector * SECTOR < a.off + a.len
  }

  /** Transfer `a` overlaps a sector that `b` starts or ends inside of. */
  predicate CoversPartial(a: Job, b: Job) {
    || (b.off % SECTOR != 0 && Touches(a, b.off / SECTOR))
    || ((b.off + b.len) % SECTOR != 0 && Touches(a, (b.off + b.len) / SECTOR))
  }

  predicate AlignedWriter(c: Config, t: nat)
    requires Positioned(c) && t < |c.calls|
  {
    JobOf(c, t).Some? && JobOf(c, t).value.write && !JobOf(c, t).value.Locked()
  }

  predicate MisalignedWriter(c: Config, t: nat)
    requires Positioned(c) && t < |c.calls|
  {
    JobOf(c, t).Some? && JobOf(c, t).value.write && JobOf(c, t).value.Locked()
  }

  /** No aligned write overlaps a sector that a misaligned write only covers in part. */
  ghost predicate PatchesClear(c: Config)
    requires Positioned(c)
  {
    forall t, u :: 0 <= t < |c.calls| && 0 <= u < |c.calls| && AlignedWriter(c, t) && MisalignedWriter(c, u) ==>
      !CoversPartial(JobOf(c, t).value, JobOf(c, u).value)
  }

  /** The sectors a transfer patches are the ones it starts or ends inside of. */
  lemma PatchedIsPartial(job: Job, k: nat)
    requires k < |job.Parts()| && job.Parts()[k].Partial()
    ensures var sector := job.Parts()[k].start;
      (job.off % SECTOR != 0 && sector == job.off / SECTOR) || ((job.off + job.len) % SECTOR != 0 && sector == (job.off + job.len) / SECTOR)
  {
  }

  lemma PartialIsPatched(a: Job, b: Job) returns (k: nat)
    requires CoversPartial(a, b)
    ensures k < |b.Parts()| && b.Parts()[k].Partial() && Touches(a, b.Parts()[k].start)
  {
    if b.off % SECTOR != 0 && Touches(a, b.off / SECTOR) {
      k := 0;
    } else {
      k := |b.Parts()| - 1;
    }
  }

  /** A running transfer is the one its call announced. */
  lemma RunsItsJob(c: Config, run: seq<Action>, t: nat)
    requires c.Valid() && Positioned(c) && Exec(c, run).Some? && t < |c.calls| && Exec(c, run).value.phases[t].Running?
    ensures JobOf(c, t) == Some(Exec(c, run).value.phases[t].job)
  {
    ShapeAlways(c, run);
    assert PhaseOk(c, Exec(c, run).value, t);
  }

  lemma {:induction false} ClearRuns(c: Config, run: seq<Action>)
    requires c.Valid() && Positioned(c) && PatchesClear(c) && Exec(c, run).Some?
    ensures Undisturbed(c, run)
  {
    if run != [] {
      var before := run[..|run| - 1];
      var s, a := Exec(c, before).value, run[|run| - 1];
      ClearRuns(c, before);
      if Disturbs(s, a) {
        DisturbedNotClear(c, before, a);
      }
    }
  }

  lemma DisturbedNotClear(c: Config, run: seq<Action>, a: Action)
    requires c.Valid() && Positioned(c) && Exec(c, run).Some? && Disturbs(Exec(c, run).value, a)
    ensures !PatchesClear(c)
  {
    var s := Exec(c, run).value;
    ShapeAlways(c, run);
    hide Exec, StartJob, Pieces, Aligned;
    var h :| 0 <= h < |s.phases| && Patching(s.phases[h]) && Touches(s.phases[a.t].job, PatchedSector(s.phases[h]));
    PatcherHoldsLock(c, s, h);
    PatcherIsPartial(c, s, h);
    RunsItsJob(c, run, h);
    RunsItsJob(c, run, a.t);
    hide Shape, CoversPartial;
    assert AlignedWriter(c, a.t) && MisalignedWriter(c, h);
    assert CoversPartial(JobOf(c, a.t).value, JobOf(c, h).value) by {
      PartialIsCovered(s.phases[a.t].job, s.phases[h]);
    }
  }

  lemma PatcherIsPartial(c: Config, s: State, h: nat)
    requires Shape(c, s) && h < |c.calls| && Patching(s.phases[h])
    ensures s.phases[h].job.write && s.phases[h].job.Parts()[s.phases[h].k].Partial()
  {
    assert PhaseOk(c, s, h);
    hide Pieces, StartJob;
  }

  lemma PartialIsCovered(a: Job, ph: Phase)
    requires Patching(ph) && ph.job.Parts()[ph.k].Partial() && Touches(a, PatchedSector(ph))
    ensures CoversPartial(a, ph.job)
  {
    PatchedIsPartial(ph.job, ph.k);
    hide Pieces;
  }

  // ----- and otherwise some schedule does

  /** Thread `u` is about to serve piece `k` and no other thread has begun. */
  ghost predicate AtPiece(c: Config, s: State, u: nat, k: nat)
    requires Positioned(c) && u < |c.calls|
  {
    && |s.phases| == |c.calls|
    && s.phases[u].Running? && !s.phases[u].failed && s.phases[u].k == k && s.phases[u].tmp.None?
    && JobOf(c, u) == Some(s.phases[u].job)
    && forall t :: 0 <= t < |c.calls| && t != u ==> s.phases[t].Ready?
  }

  lemma Extend(c: Config, run: seq<Action>, a: Action)
    requires Exec(c, run).Some? && Enabled(c, Exec(c, run).value, a)
    ensures Exec(c, run + [a]) == Some(Apply(c, Exec(c, run).value, a))
  {
    assert (run + [a])[..|run|] == run;
  }

  /** A thread in the middle of a transfer can always make its next device call. */
  lemma CanTransfer(c: Config, run: seq<Action>, u: nat)
    requires c.Valid() && Exec(c, run).Some? && u < |c.calls|
    requires var ph := Exec(c, run).value.phases[u]; ph.Running? && !ph.failed && ph.k < |ph.job.Parts()|
    ensures Enabled(c, Exec(c, run).value, Io(u, true))
  {
    var s := Exec(c, run).value;
    ShapeAlways(c, run);
    assert PhaseOk(c, s, u);
    AlwaysTransferable(s.phases[u], s.disk);
  }

  /** The same, with the sector of the piece already read aside. */
  ghost predicate AtWriteBack(c: Config, s: State, u: nat, k: nat)
    requires Positioned(c) && u < |c.calls|
  {
    && |s.phases| == |c.calls|
    && s.phases[u].Running? && !s.phases[u].failed && s.phases[u].k == k && s.phases[u].tmp.Some? && s.phases[u].job.write
    && JobOf(c, u) == Some(s.phases[u].job)
    && forall t :: 0 <= t < |c.calls| && t != u ==> s.phases[t].Ready?
  }

  lemma Served(c: Config, s: State, u: nat, k: nat)
    requires Positioned(c) && u < |c.calls| && Enabled(c, s, Io(u, true))
    requires AtPiece(c, s, u, k) || AtWriteBack(c, s, u, k)
    ensures var s' := Apply(c, s, Io(u, true));
      if Fetches(s.phases[u]) then AtPiece(c, s, u, k) ==> AtWriteBack(c, s', u, k) else AtPiece(c, s', u, k + 1)
    ensures AtWriteBack(c, s, u, k) ==> !Fetches(s.phases[u])
  {
    hide Pieces, Aligned, ClampLen, StartJob;
  }

  lemma {:induction false} ReachPiece(c: Config, u: nat, k: nat) returns (run: seq<Action>)
    requires c.Valid() && Positioned(c) && u < |c.calls| && MisalignedCall(c, u) && k <= |JobOf(c, u).value.Parts()|
    ensures Exec(c, run).Some? && AtPiece(c, Exec(c, run).value, u, k)
  {
    hide Pieces, Aligned, ClampLen;
    if k == 0 {
      run := [] + [Enter(u)];
      assert Exec(c, []) == Some(c.Init());
      Extend(c, [], Enter(u));
    } else {
      run := ReachPiece(c, u, k - 1);
      run := NextPiece(c, run, u, k - 1);
    }
  }

  lemma NextPiece(c: Config, start: seq<Action>, u: nat, k: nat) returns (run: seq<Action>)
    requires c.Valid() && Positioned(c) && u < |c.calls| && MisalignedCall(c, u) && k < |JobOf(c, u).value.Parts()|
    requires Exec(c, start).Some? && AtPiece(c, Exec(c, start).value, u, k)
    ensures Exec(c, run).Some? && AtPiece(c, Exec(c, run).value, u, k + 1)
  {
    hide Exec, Enabled, Apply, Pieces, Aligned, ClampLen, StartJob, Fetches;
    run := start;
    var s := Exec(c, run).value;
    CanTransfer(c, run, u);
    Extend(c, run, Io(u, true));
    Served(c, s, u, k);
    run := run + [Io(u, true)];
    if Fetches(s.phases[u]) {
      s := Exec(c, run).value;
      CanTransfer(c, run, u);
      Extend(c, run, Io(u, true));
      Served(c, s, u, k);
      run := run + [Io(u, true)];
    }
  }

  /** A schedule after which thread `u` has read a sector that `a` overlaps and will patch it. */
  lemma PatchingRun(c: Config, u: nat, a: Job) returns (run: seq<Action>)
    requires c.Valid() && Positioned(c) && u < |c.calls| && MisalignedWriter(c, u) && CoversPartial(a, JobOf(c, u).value)
    ensures Exec(c, run).Some?
    ensures var s := Exec(c, run).value;
      && |s.phases| == |c.calls| && Patching(s.phases[u]) && !s.phases[u].failed && FreshAt(s.disk, s.phases[u])
      && Touches(a, PatchedSector(s.phases[u])) && s.phases[u].job == JobOf(c, u).value
      && forall t :: 0 <= t < |c.calls| && t != u ==> s.phases[t].Ready?
  {
    var k := PartialIsPatched(a, JobOf(c, u).value);
    run := ReachPiece(c, u, k);
    CanTransfer(c, run, u);
    ShapeAlways(c, run);
    Extend(c, run, Io(u, true));
    hide Exec, StartJob, Pieces, Aligned, CoversPartial;
    var s := Exec(c, run).value;
    assert PhaseOk(c, s, u) && Patching(NextPhase(s.disk, s.phases[u]));
    FreshRead(s.disk, s.phases[u]);
    run := run + [Io(u, true)];
  }

  lemma EnterAligned(c: Config, s: State, t: nat)
    requires c.Valid() && Positioned(c) && Shape(c, s) && t < |c.calls| && s.phases[t].Ready?
    requires JobOf(c, t).Some? && !JobOf(c, t).value.Locked()
    ensures Enabled(c, s, Enter(t))
    ensures Apply(c, s, Enter(t)) == s.(phases := s.phases[t := Running(JobOf(c, t).value, 0, None, [], false)])
  {
    hide Pieces, Aligned;
  }

  lemma TouchesSomething(a: Job, sector: nat)
    requires !a.Locked() && Touches(a, sector)
    ensures |a.Parts()| == 1
  {
    assert a.off == a.off / SECTOR * SECTOR;
    AlignedParts(a);
  }

  /** The schedule goes on with an aligned write that enters without waiting. */
  lemma EnteredRun(c: Config, t: nat, u: nat) returns (run: seq<Action>)
    requires c.Valid() && Positioned(c) && t < |c.calls| && u < |c.calls| && AlignedWriter(c, t) && MisalignedWriter(c, u)
    requires CoversPartial(JobOf(c, t).value, JobOf(c, u).value)
    ensures Exec(c, run).Some?
    ensures var s := Exec(c, run).value;
      && |s.phases| == |c.calls| && s.phases[t] == Running(JobOf(c, t).value, 0, None, [], false)
      && Patching(s.phases[u]) && !s.phases[u].failed && FreshAt(s.disk, s.phases[u])
      && Touches(JobOf(c, t).value, PatchedSector(s.phases[u])) && s.phases[u].job == JobOf(c, u).value
      && forall v :: 0 <= v < |c.calls| && v != u && v != t ==> s.phases[v].Ready?
  {
    assert u != t;
    var before := PatchingRun(c, u, JobOf(c, t).value);
    ShapeAlways(c, before);
    EnterAligned(c, Exec(c, before).value, t);
    hide Exec, Shape, StartJob, Pieces, Aligned, CoversPartial, Apply, Enabled, Touches, FreshAt;
    Extend(c, before, Enter(t));
    run := before + [Enter(t)];
  }

  lemma DisturbedRun(c: Config, t: nat, u: nat) returns (run: seq<Action>)
    requires c.Valid() && Positioned(c) && t < |c.calls| && u < |c.calls| && AlignedWriter(c, t) && MisalignedWriter(c, u)
    requires CoversPartial(JobOf(c, t).value, JobOf(c, u).value)
    ensures Exec(c, run).Some? && !Undisturbed(c, run)
  {
    hide Exec, Shape, StartJob, Pieces, Aligned, CoversPartial, Apply, Enabled, Touches, Undisturbed;
    var before := EnteredRun(c, t, u);
    TouchesSomething(JobOf(c, t).value, PatchedSector(Exec(c, before).value.phases[u]));
    CanTransfer(c, before, t);
    Extend(c, before, Io(t, true));
    DisturbsAtEnd(c, before, Io(t, true), u);
    run := before + [Io(t, true)];
  }

  lemma DisturbsAtEnd(c: Config, run: seq<Action>, a: Action, u: nat)
    requires Exec(c, run).Some? && Exec(c, run + [a]).Some?
    requires var s := Exec(c, run).value;
      && a.Io? && a.ok && a.t < |s.phases| && u < |s.phases|
      && s.phases[a.t].Running? && s.phases[a.t].job.write && !s.phases[a.t].job.Locked()
      && Patching(s.phases[u]) && Touches(s.phases[a.t].job, PatchedSector(s.phases[u]))
    ensures !Undisturbed(c, run + [a])
  {
    assert (run + [a])[..|run|] == run;
    hide Exec, Pieces, Aligned;
    assert Disturbs(Exec(c, run).value, a);
  }

  /** The exact condition: no schedule of the calls disturbs a patched sector if and only if no
      aligned write overlaps a sector that a misaligned write only covers in part. */
  lemma ClearExact(c: Config)
    requires c.Valid() && Positioned(c)
    ensures (forall run :: Exec(c, run).Some? ==> Undisturbed(c, run)) <==> PatchesClear(c)
  {
    if PatchesClear(c) {
      forall run | Exec(c, run).Some?
        ensures Undisturbed(c, run)
      {
        ClearRuns(c, run);
      }
    } else {
      var t, u :| 0 <= t < |c.calls| && 0 <= u < |c.calls| && AlignedWriter(c, t) && MisalignedWriter(c, u)
        && CoversPartial(JobOf(c, t).value, JobOf(c, u).value);
      var run := DisturbedRun(c, t, u);
    }
  }

  // ----- when every schedule is atomic

  /** No aligned transfer overlaps the sectors of a misaligned one, unless both only read. */
  ghost predicate TransfersApart(c: Config)
    requires Positioned(c)
  {
    forall t, u :: 0 <= t < |c.calls| && 0 <= u < |c.calls| && AlignedCall(c, t) && MisalignedCall(c, u) ==>
      !Conflict(JobOf(c, t).value, JobOf(c, u).value)
  }

  predicate AlignedCall(c: Config, t: nat)
    requires Positioned(c) && t < |c.calls|
  {
    JobOf(c, t).Some? && JobOf(c, t).value.len > 0 && !JobOf(c, t).value.Locked()
  }

  predicate MisalignedCall(c: Config, t: nat)
    requires Positioned(c) && t < |c.calls|
  {
    JobOf(c, t).Some? && JobOf(c, t).value.Locked()
  }

  lemma CollidingNotApart(c: Config, run: seq<Action>, a: Action)
    requires c.Valid() && Positioned(c) && Exec(c, run).Some? && Enabled(c, Exec(c, run).value, a)
    requires Collides(Exec(c, run).value, a)
    ensures !TransfersApart(c)
  {
    var s := Exec(c, run).value;
    ShapeAlways(c, run);
    RunsItsJob(c, run, a.t);
    RunsItsJob(c, run, s.handleLock.value);
    AlignedParts(s.phases[a.t].job);
    hide Exec, StartJob, Pieces, Aligned, Conflict;
    assert AlignedCall(c, a.t) && MisalignedCall(c, s.handleLock.value);
  }

  lemma {:induction false} ApartRuns(c: Config, run: seq<Action>)
    requires c.Valid() && Positioned(c) && TransfersApart(c) && Exec(c, run).Some?
    ensures Isolated(c, run)
  {
    if run != [] {
      var before := run[..|run| - 1];
      ApartRuns(c, before);
      if Collides(Exec(c, before).value, run[|run| - 1]) {
        CollidingNotApart(c, before, run[|run| - 1]);
      }
    }
  }

  lemma HoldingRun(c: Config, u: nat) returns (run: seq<Action>)
    requires c.Valid() && Positioned(c) && u < |c.calls| && MisalignedCall(c, u)
    ensures Exec(c, run).Some?
    ensures var s := Exec(c, run).value;
      && |s.phases| == |c.calls| && s.handleLock == Some(u)
      && s.phases[u] == Running(JobOf(c, u).value, 0, None, [], false)
      && forall t :: 0 <= t < |c.calls| && t != u ==> s.phases[t].Ready?
  {
    EnterFirst(c, u);
    hide *;
    run := [] + [Enter(u)];
    Extend(c, [], Enter(u));
  }

  /** A misaligned call takes the handle mutex when it is free. */
  lemma EnterFirst(c: Config, u: nat)
    requires c.Valid() && Positioned(c) && u < |c.calls| && MisalignedCall(c, u)
    ensures Exec(c, []) == Some(c.Init()) && Enabled(c, c.Init(), Enter(u))
    ensures var s := Apply(c, c.Init(), Enter(u));
      && |s.phases| == |c.calls| && s.handleLock == Some(u)
      && s.phases[u] == Running(JobOf(c, u).value, 0, None, [], false)
      && forall t :: 0 <= t < |c.calls| && t != u ==> s.phases[t].Ready?
  {
    hide Pieces, Aligned, ClampLen, StartJob;
  }

  lemma CollidingRun(c: Config, t: nat, u: nat) returns (run: seq<Action>)
    requires c.Valid() && Positioned(c) && t < |c.calls| && u < |c.calls| && AlignedCall(c, t) && MisalignedCall(c, u)
    requires Conflict(JobOf(c, t).value, JobOf(c, u).value)
    ensures Exec(c, run).Some? && !Isolated(c, run)
  {
    assert u != t;
    var before := HoldingRun(c, u);
    ShapeAlways(c, before);
    EnterAligned(c, Exec(c, before).value, t);
    AlignedParts(JobOf(c, t).value);
    hide Exec, Shape, StartJob, Pieces, Aligned, Conflict, Apply, Enabled, Isolated;
    Extend(c, before, Enter(t));
    before := before + [Enter(t)];
    CanTransfer(c, before, t);
    Extend(c, before, Io(t, true));
    CollidesAtEnd(c, before, Io(t, true));
    run := before + [Io(t, true)];
  }

  lemma CollidesAtEnd(c: Config, run: seq<Action>, a: Action)
    requires Exec(c, run).Some? && Exec(c, run + [a]).Some? && Collides(Exec(c, run).value, a)
    ensures !Isolated(c, run + [a])
  {
    assert (run + [a])[..|run|] == run;
  }

  /** The exact condition: every schedule of the calls keeps conflicting transfers apart if and
      only if no aligned transfer overlaps the sectors of a misaligned one of which one writes. */
  lemma ApartExact(c: Config)
    requires c.Valid() && Positioned(c)
    ensures (forall run :: Exec(c, run).Some? ==> Isolated(c, run)) <==> TransfersApart(c)
  {
    if TransfersApart(c) {
      forall run | Exec(c, run).Some?
        ensures Isolated(c, run)
      {
        ApartRuns(c, run);
      }
    } else {
      var t, u :| 0 <= t < |c.calls| && 0 <= u < |c.calls| && AlignedCall(c, t) && MisalignedCall(c, u)
        && Conflict(JobOf(c, t).value, JobOf(c, u).value);
      var run := CollidingRun(c, t, u);
    }
  }

  // ----- what callers get

  /** Calls whose aligned writes stay off partly written sectors lose no update in any schedule. */
  lemma ClearCallsLoseNothing(c: Config, run: seq<Action>, i: nat)
    requires c.Valid() && Positioned(c) && PatchesClear(c) && Exec(c, run).Some? && i < |c.d0|
    ensures var s := Exec(c, run).value;
      && |s.disk| == |c.d0|
      && ((forall t :: !Wrote(s, t, i)) ==> s.disk[i] == c.d0[i])
      && ((exists t :: Wrote(s, t, i)) ==> exists t :: Wrote(s, t, i) && s.disk[i] == ByteFrom(s, t, i))
  {
    ClearRuns(c, run);
    NoLostUpdate(c, run, i);
  }

  /** Calls that are apart are atomic in every schedule. */
  lemma ApartCallsAreAtomic(c: Config, run: seq<Action>)
    requires c.Valid() && Positioned(c) && TransfersApart(c) && Exec(c, run).Some?
    requires forall t :: 0 <= t < |c.calls| ==> Exec(c, run).value.phases[t].Done?
    ensures Atomic(c, Exec(c, run).value)
  {
    ApartRuns(c, run);
    CallsAreAtomic(c, run);
  }

  /** The two writes of the repository's misalignment test: the aligned one overlaps the middle of
      the other only. No schedule loses an update, although the two are not apart. */
  lemma MiddleOverlapIsClear(d0: seq<byte>, a: seq<byte>, b: seq<byte>)
    requires |d0| % SECTOR == 0 && |d0| >= 3 * SECTOR && |a| == SECTOR + 14 && |b| == SECTOR
    ensures var c := Config([WriteAt(500, a), WriteAt(SECTOR, b)], d0);
      c.Valid() && Positioned(c) && PatchesClear(c) && !TransfersApart(c)
  {
    var c := Config([WriteAt(500, a), WriteAt(SECTOR, b)], d0);
    assert JobOf(c, 0) == Some(Job(true, 500, SECTOR + 14, a)) && JobOf(c, 1) == Some(Job(true, SECTOR, SECTOR, b));
    assert MisalignedCall(c, 0) && AlignedCall(c, 1) && Conflict(JobOf(c, 1).value, JobOf(c, 0).value);
  }
}
