/** What every run keeps about locks, phases and ranges; no run of the protocol is ever stuck,
    and every run is finite. */
module Locks {
  import opened Options
  import opened Bytes
  import opened Layout
  import opened DiskHandle
  import opened Protocol

  /** A transfer in progress on a disk of `size` bytes. */
  ghost predicate RunOk(ph: Phase, size: nat)
    requires ph.Running?
  {
    && ph.job.Fits(size)
    && (ph.job.len == 0 ==> ph.job.off < size || !ph.job.Locked())
    && ph.k <= |ph.job.Parts()|
    && (ph.tmp.Some? ==>
          && ph.job.write && ph.k < |ph.job.Parts()|
          && ph.job.Parts()[ph.k].Partial() && |ph.tmp.value| == SECTOR)
    && |ph.buf| == if ph.job.write then 0 else ph.job.Filled(ph.k)
  }

  ghost predicate PhaseOk(c: Config, s: State, t: nat)
    requires t < |c.calls| && t < |s.phases|
  {
    var call, ph := c.calls[t], s.phases[t];
    match ph
    case Ready => true
    case Entered => call.Stream() && s.streamLock == Some(t)
    case Running(job, _, _, _, _) =>
      && !call.Seek? && StartOffset(call, s.offset) >= 0
      && StartJob(call, StartOffset(call, s.offset), |s.disk|) == Some(job)
      && RunOk(ph, |s.disk|)
      && (call.Stream() ==> s.streamLock == Some(t))
      && (job.Locked() ==> s.handleLock == Some(t))
    case Returned(done, n, buf, error) =>
      && !call.Seek? && StartOffset(call, s.offset) >= 0
      && StartJob(call, StartOffset(call, s.offset), |s.disk|) == done
      && (done.None? ==> n == 0 && error)
      && (call.Stream() ==> s.streamLock == Some(t))
    case Done(_, _, _, _) => true
  }

  ghost predicate Shape(c: Config, s: State) {
    && |s.phases| == |c.calls|
    && |s.disk| == |c.d0|
    && s.offset >= 0
    && (s.streamLock.Some? ==>
          var t := s.streamLock.value;
          && t < |c.calls| && c.calls[t].Stream()
          && (s.phases[t].Entered? || s.phases[t].Running? || s.phases[t].Returned?))
    && (s.handleLock.Some? ==>
          var t := s.handleLock.value;
          t < |c.calls| && s.phases[t].Running? && s.phases[t].job.Locked())
    && forall t :: 0 <= t < |c.calls| ==> PhaseOk(c, s, t)
  }

  lemma PhaseOfShape(c: Config, s: State, t: nat)
    requires Shape(c, s) && t < |c.calls|
    ensures PhaseOk(c, s, t)
  {
    hide StartJob, RunOk;
  }

  /** A job's pieces are served in buffer order, without gaps. */
  lemma FilledStep(job: Job, k: nat)
    requires k < |job.Parts()|
    ensures job.Filled(k) == job.Parts()[k].lo
    ensures job.Filled(k + 1) == job.Parts()[k].hi
    ensures k == 0 ==> job.Filled(k) == 0
    ensures job.Filled(k) <= job.Filled(k + 1) <= job.len
  {
    PiecesTile(job.off, job.len);
  }

  lemma FilledStart(job: Job)
    ensures job.Filled(0) == 0
    ensures job.Filled(|job.Parts()|) == job.len
  {
    PiecesTile(job.off, job.len);
  }

  /** The device call of the current piece stays inside the disk, the data and the sector buffer. */
  lemma AlwaysTransferable(ph: Phase, disk: seq<byte>)
    requires ph.Running? && RunOk(ph, |disk|) && ph.k < |ph.job.Parts()| && |disk| % SECTOR == 0
    ensures Transferable(disk, ph)
  {
    PiecesTile(ph.job.off, ph.job.len);
    PiecesInside(ph.job.off, ph.job.len, |disk| / SECTOR);
    var p := ph.job.Parts()[ph.k];
    assert PieceFits(p, ph.job.off, ph.job.len);
    assert (p.start + p.num) * SECTOR <= |disk| / SECTOR * SECTOR;
  }

  /** An aligned transfer is at most one device call, and never patches a sector. */
  lemma AlignedParts(job: Job)
    requires !job.Locked()
    ensures job.len == 0 ==> job.Parts() == []
    ensures job.len > 0 ==> job.Parts() == [Piece(job.off / SECTOR, job.len / SECTOR, 0, job.len)] && !job.Parts()[0].Partial()
  {
  }

  /** A range check that passes yields a job that fits the disk. */
  lemma StartedJobFits(call: Call, off: nat, size: nat)
    requires !call.Seek? && StartJob(call, off, size).Some? && size % SECTOR == 0
    ensures StartJob(call, off, size).value.Fits(size)
    ensures StartJob(call, off, size).value.len == 0 ==>
      off < size || !StartJob(call, off, size).value.Locked()
    ensures StartJob(call, off, size).value.off == off
  {
    if off < size {
      match call {
        case ReadAt(_, len) => ClampExact(len, off, size);
        case StreamRead(len) => ClampExact(len, off, size);
        case WriteAt(_, _) =>
        case StreamWrite(_) =>
      }
    }
  }

  lemma ShapeInit(c: Config)
    requires c.Valid()
    ensures Shape(c, c.Init())
  {
  }

  lemma ShapeBegin(c: Config, s: State, t: nat)
    requires c.Valid() && Shape(c, s) && Enabled(c, s, Begin(t))
    ensures Shape(c, Apply(c, s, Begin(t)))
  {
    var s' := Apply(c, s, Begin(t));
    forall u | 0 <= u < |c.calls| ensures PhaseOk(c, s', u) {
      assert PhaseOk(c, s, u);
    }
  }

  lemma ShapeEnter(c: Config, s: State, t: nat)
    requires c.Valid() && Shape(c, s) && Enabled(c, s, Enter(t))
    ensures Shape(c, Apply(c, s, Enter(t)))
  {
    var s' := Apply(c, s, Enter(t));
    var j := JobFor(c, s, t);
    if j.Some? {
      StartedJobFits(c.calls[t], StartOffset(c.calls[t], s.offset), |s.disk|);
      FilledStart(j.value);
    }
    hide Pieces, Aligned, ClampLen;
    forall u | 0 <= u < |c.calls| ensures PhaseOk(c, s', u) {
      assert PhaseOk(c, s, u);
    }
  }

  /** `s'` is `s` with thread `t` moved on within its transfer: no lock, no offset and no other
      thread changed. */
  ghost predicate OnlyMoved(s: State, s': State, t: nat)
    requires t < |s.phases|
  {
    && s'.offset == s.offset && s'.streamLock == s.streamLock && s'.handleLock == s.handleLock
    && s'.acquired == s.acquired && s'.moves == s.moves
    && |s'.disk| == |s.disk| && |s'.phases| == |s.phases|
    && (forall u :: 0 <= u < |s.phases| && u != t ==> s'.phases[u] == s.phases[u])
  }

  lemma IoMoves(s: State, t: nat)
    requires t < |s.phases| && s.phases[t].Running? && s.phases[t].k < |s.phases[t].job.Parts()|
    requires Transferable(s.disk, s.phases[t])
    ensures OnlyMoved(s, ApplyIo(s, t), t)
  {
  }

  /** A transfer stays well-formed across its own device call. */
  lemma RunOkNext(disk: seq<byte>, ph: Phase)
    requires ph.Running? && ph.k < |ph.job.Parts()| && RunOk(ph, |disk|) && Transferable(disk, ph)
    ensures NextPhase(disk, ph).Running? && RunOk(NextPhase(disk, ph), |disk|) && NextPhase(disk, ph).job == ph.job
  {
    FilledStep(ph.job, ph.k);
    if Fetches(ph) {
      PiecesTile(ph.job.off, ph.job.len);
      assert PieceFits(ph.job.Parts()[ph.k], ph.job.off, ph.job.len);
    }
  }

  lemma PhaseOkMoved(c: Config, s: State, s': State, t: nat, u: nat)
    requires t < |s.phases| && u < |c.calls| && u < |s.phases| && OnlyMoved(s, s', t)
    requires PhaseOk(c, s, u)
    requires u == t ==>
      && s.phases[t].Running? && s'.phases[t].Running?
      && RunOk(s'.phases[t], |s.disk|) && s'.phases[t].job == s.phases[t].job
    ensures PhaseOk(c, s', u)
  {
    hide RunOk, StartJob, Aligned;
  }

  lemma ShapeIo(c: Config, s: State, t: nat, ok: bool)
    requires c.Valid() && Shape(c, s) && Enabled(c, s, Io(t, ok))
    ensures Shape(c, Apply(c, s, Io(t, ok)))
  {
    var s' := Apply(c, s, Io(t, ok));
    assert PhaseOk(c, s, t);
    if ok {
      RunOkNext(s.disk, s.phases[t]);
      IoMoves(s, t);
    }
    assert OnlyMoved(s, s', t) && s'.phases[t].Running? && RunOk(s'.phases[t], |s.disk|) && s'.phases[t].job == s.phases[t].job;
    hide ApplyIo, Apply, RunOk, StartJob, NextPhase, PhaseOk;
    forall u | 0 <= u < |c.calls| ensures PhaseOk(c, s', u) {
      PhaseOkMoved(c, s, s', t, u);
    }
  }

  lemma ShapeReturn(c: Config, s: State, t: nat)
    requires c.Valid() && Shape(c, s) && Enabled(c, s, Return(t))
    ensures Shape(c, Apply(c, s, Return(t)))
  {
    var s' := Apply(c, s, Return(t));
    hide Pieces, Aligned, ClampLen, StartJob;
    assert PhaseOk(c, s, t);
    forall u | 0 <= u < |c.calls| ensures PhaseOk(c, s', u) {
      assert PhaseOk(c, s, u);
    }
  }

  lemma ShapeLeave(c: Config, s: State, t: nat)
    requires c.Valid() && Shape(c, s) && Enabled(c, s, Leave(t))
    ensures Shape(c, Apply(c, s, Leave(t)))
  {
    var s' := Apply(c, s, Leave(t));
    hide Pieces, Aligned, ClampLen, StartJob;
    assert PhaseOk(c, s, t);
    forall u | 0 <= u < |c.calls| ensures PhaseOk(c, s', u) {
      assert PhaseOk(c, s, u);
    }
  }

  lemma ShapeStep(c: Config, s: State, a: Action)
    requires c.Valid() && Shape(c, s) && Enabled(c, s, a)
    ensures Shape(c, Apply(c, s, a))
  {
    match a {
      case Begin(t) => ShapeBegin(c, s, t);
      case Enter(t) => ShapeEnter(c, s, t);
      case Io(t, ok) => ShapeIo(c, s, t, ok);
      case Return(t) => ShapeReturn(c, s, t);
      case Leave(t) => ShapeLeave(c, s, t);
    }
  }

  lemma {:induction false} ShapeAlways(c: Config, run: seq<Action>)
    requires c.Valid() && Exec(c, run).Some?
    ensures Shape(c, Exec(c, run).value)
  {
    if run == [] {
      ShapeInit(c);
    } else {
      ShapeAlways(c, run[..|run| - 1]);
      ShapeStep(c, Exec(c, run[..|run| - 1]).value, run[|run| - 1]);
    }
  }

  /** The lock holder, if there is one, and otherwise any thread that is not done, can step. */
  function NextAction(c: Config, s: State, t: nat): Action
    requires t < |c.calls| && t < |s.phases|
  {
    match s.phases[t]
    case Ready => if c.calls[t].Stream() then Begin(t) else Enter(t)
    case Entered => if c.calls[t].Seek? then Leave(t) else Enter(t)
    case Running(job, k, _, _, failed) =>
      if failed || k >= |job.Parts()| then Return(t) else Io(t, true)
    case _ => Leave(t)
  }

  /** Deadlock freedom: in every reachable state some thread that is not done has an enabled step. */
  lemma NoDeadlock(c: Config, run: seq<Action>, t: nat)
    requires c.Valid() && Exec(c, run).Some?
    requires t < |c.calls| && !Exec(c, run).value.phases[t].Done?
    ensures exists a :: Enabled(c, Exec(c, run).value, a)
  {
    hide Pieces, Aligned, ClampLen, StartJob, Transferable;
    var s := Exec(c, run).value;
    ShapeAlways(c, run);
    var u := if s.handleLock.Some? then s.handleLock.value
             else if s.streamLock.Some? then s.streamLock.value else t;
    assert PhaseOk(c, s, u);
    if s.phases[u].Running? && s.phases[u].k < |s.phases[u].job.Parts()| {
      AlwaysTransferable(s.phases[u], s.disk);
    }
    assert Enabled(c, s, NextAction(c, s, u));
  }

  /** When every thread is done both mutexes are free, whatever failed on the way. */
  lemma FreeAtTheEnd(c: Config, run: seq<Action>)
    requires c.Valid() && Exec(c, run).Some?
    requires forall t :: 0 <= t < |c.calls| ==> Exec(c, run).value.phases[t].Done?
    ensures Exec(c, run).value.streamLock.None? && Exec(c, run).value.handleLock.None?
  {
    ShapeAlways(c, run);
  }

  /** How many steps a thread can still take at most. */
  function Weight(ph: Phase): nat {
    match ph
    case Ready => 10
    case Entered => 9
    case Running(job, k, tmp, _, failed) =>
      if failed || k >= |job.Parts()| then 2
      else 2 + 2 * (|job.Parts()| - k) - (if tmp.Some? then 1 else 0)
    case Returned(_, _, _, _) => 1
    case Done(_, _, _, _) => 0
  }

  function Total(phases: seq<Phase>): nat {
    if phases == [] then 0 else Weight(phases[0]) + Total(phases[1..])
  }

  lemma {:induction false} TotalUpdate(phases: seq<Phase>, t: nat, ph: Phase)
    requires t < |phases|
    ensures Total(phases[t := ph]) == Total(phases) - Weight(phases[t]) + Weight(ph)
  {
    if t == 0 {
      assert phases[0 := ph][1..] == phases[1..];
    } else {
      assert phases[t := ph][1..] == phases[1..][t - 1 := ph];
      TotalUpdate(phases[1..], t - 1, ph);
    }
  }

  lemma {:induction false} TotalReady(n: nat)
    ensures Total(seq(n, i => Ready)) == 10 * n
  {
    if n > 0 {
      assert seq(n, i => Ready)[1..] == seq(n - 1, i => Ready);
      TotalReady(n - 1);
    }
  }

  lemma AtMostThree(off: nat, len: nat)
    ensures |Pieces(off, len)| <= 3
  {
  }

  lemma NextWeighs(disk: seq<byte>, ph: Phase)
    requires ph.Running? && !ph.failed && ph.k < |ph.job.Parts()| && Transferable(disk, ph)
    ensures Weight(NextPhase(disk, ph)) < Weight(ph)
  {
    hide Pieces, Transferable;
  }

  /** A step changes its own thread's phase only. */
  lemma StepsAlone(c: Config, s: State, a: Action)
    requires Enabled(c, s, a)
    ensures |Apply(c, s, a).phases| == |s.phases|
    ensures Apply(c, s, a).phases == s.phases[a.t := Apply(c, s, a).phases[a.t]]
  {
    hide Pieces, Aligned, ClampLen, StartJob, Splice, Outgoing, Transferable, NextPhase;
  }

  lemma StepWeighs(c: Config, s: State, a: Action)
    requires Enabled(c, s, a)
    ensures |Apply(c, s, a).phases| == |s.phases|
    ensures Weight(Apply(c, s, a).phases[a.t]) < Weight(s.phases[a.t])
  {
    match a {
      case Enter(t) =>
        if JobFor(c, s, t).Some? {
          AtMostThree(JobFor(c, s, t).value.off, JobFor(c, s, t).value.len);
        }
        hide Pieces, Aligned, ClampLen, StartJob;
      case Io(t, ok) =>
        if ok {
          NextWeighs(s.disk, s.phases[t]);
        }
        hide Pieces, Transferable, NextPhase, Splice, Outgoing;
      case _ =>
        hide Pieces, Aligned, Splice, Outgoing, NextPhase, ApplyIo, StartJob;
    }
  }

  /** Every run is finite: a thread takes at most ten steps. With `NoDeadlock`, a run that is
      extended for as long as a step is enabled ends with every call returned. */
  lemma {:induction false} RunsAreFinite(c: Config, run: seq<Action>)
    requires Exec(c, run).Some?
    ensures |run| + Total(Exec(c, run).value.phases) <= 10 * |c.calls|
  {
    if run == [] {
      TotalReady(|c.calls|);
    } else {
      var s, a := Exec(c, run[..|run| - 1]).value, run[|run| - 1];
      RunsAreFinite(c, run[..|run| - 1]);
      StepWeighs(c, s, a);
      StepsAlone(c, s, a);
      TotalUpdate(s.phases, a.t, Apply(c, s, a).phases[a.t]);
    }
  }
}
