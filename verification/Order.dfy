/** The log is an order of the calls themselves: each transfer that moved data appears in it
    exactly once, with the data it moved, and misaligned ones in the order in which they took
    the handle mutex. */
module Order {
  import opened Options
  import opened Bytes
  import opened Layout
  import opened DiskHandle
  import opened Protocol
  import opened Locks
  import opened LostUpdate
  import opened Serial

  /** The transfer a thread has finished with, or has moved all the data of. */
  function Settled(ph: Phase): Option<Entry> {
    match ph
    case Running(job, k, _, buf, _) =>
      if !job.Locked() && 1 <= k <= |job.Parts()|
      then Some(Entry(0, job.write, false, job.off, Moved(job, job.Filled(k), buf))) else None
    case Returned(Some(job), n, buf, _) => Some(Entry(0, job.write, job.Locked(), job.off, Moved(job, n, buf)))
    case Done(Some(job), n, buf, _) => Some(Entry(0, job.write, job.Locked(), job.off, Moved(job, n, buf)))
    case _ => None
  }

  /** Entry `e` records what its thread's call did. */
  ghost predicate Records(s: State, e: Entry) {
    e.tid < |s.phases| && Settled(s.phases[e.tid]) == Some(e.(tid := 0))
  }

  /** An aligned transfer that failed or was empty moved nothing and is not logged. */
  predicate Logged(ph: Phase) {
    Settled(ph).Some? && (Settled(ph).value.locked || Settled(ph).value.bytes != [])
  }

  ghost predicate InLog(log: seq<Entry>, t: nat) {
    exists i :: 0 <= i < |log| && log[i].tid == t
  }

  function LockedTids(log: seq<Entry>): seq<nat> {
    if log == [] then []
    else LockedTids(log[..|log| - 1]) + if log[|log| - 1].locked then [log[|log| - 1].tid] else []
  }

  ghost predicate Ordered(s: State) {
    && (forall i, j :: 0 <= i < j < |s.log| ==> s.log[i].tid != s.log[j].tid)
    && (forall i :: 0 <= i < |s.log| ==> Records(s, s.log[i]))
    && (forall t :: 0 <= t < |s.phases| && Logged(s.phases[t]) ==> InLog(s.log, t))
    && s.acquired == LockedTids(s.log) + if s.handleLock.Some? then [s.handleLock.value] else []
  }

  /** A step that logs nothing keeps the record of its thread, and finishes nothing that moved data. */
  lemma OrderedQuiet(c: Config, s: State, s': State, t: nat)
    requires Ordered(s) && t < |s.phases| && s'.log == s.log
    requires |s'.phases| == |s.phases| && s'.phases == s.phases[t := s'.phases[t]]
    requires Settled(s.phases[t]).Some? ==> Settled(s'.phases[t]) == Settled(s.phases[t])
    requires Settled(s.phases[t]).None? && Settled(s'.phases[t]).Some? ==>
      !Logged(s'.phases[t])
    requires s'.acquired == LockedTids(s.log) + if s'.handleLock.Some? then [s'.handleLock.value] else []
    ensures Ordered(s')
  {
    forall i | 0 <= i < |s'.log| ensures Records(s', s'.log[i]) {
      assert Records(s, s.log[i]);
    }
  }

  lemma OrderedLogged(c: Config, s: State, s': State, e: Entry)
    requires Ordered(s) && e.tid < |s.phases| && s'.log == s.log + [e]
    requires |s'.phases| == |s.phases| && s'.phases == s.phases[e.tid := s'.phases[e.tid]]
    requires Settled(s.phases[e.tid]).None? && Settled(s'.phases[e.tid]) == Some(e.(tid := 0))
    requires s'.acquired == LockedTids(s.log) + (if e.locked then [e.tid] else [])
                            + if s'.handleLock.Some? then [s'.handleLock.value] else []
    ensures Ordered(s')
  {
    var n := |s.log|;
    assert s'.log[..n] == s.log;
    forall i | 0 <= i < n ensures s'.log[i] == s.log[i] && s.log[i].tid != e.tid && Records(s', s'.log[i]) {
      assert Records(s, s.log[i]);
    }
    forall t | 0 <= t < |s'.phases| && InLog(s.log, t) ensures InLog(s'.log, t) {
      var i :| 0 <= i < |s.log| && s.log[i].tid == t;
      assert s'.log[i].tid == t;
    }
    assert s'.log[n].tid == e.tid;
  }

  lemma OrderedStep(c: Config, s: State, a: Action)
    requires c.Valid() && Shape(c, s) && Ordered(s) && Enabled(c, s, a)
    ensures Ordered(Apply(c, s, a))
  {
    hide Pieces, Aligned, ClampLen, StartJob, LockedTids;
    StepsAlone(c, s, a);
    assert PhaseOk(c, s, a.t);
    match a {
      case Enter(t) => OrderedEnter(c, s, t);
      case Return(t) => OrderedReturn(c, s, t);
      case Io(t, ok) => OrderedIo(c, s, t, ok);
      case Begin(t) => OrderedQuiet(c, s, Apply(c, s, a), t);
      case Leave(t) => OrderedQuiet(c, s, Apply(c, s, a), t);
    }
  }

  lemma OrderedEnter(c: Config, s: State, t: nat)
    requires Shape(c, s) && Ordered(s) && Enabled(c, s, Enter(t))
    ensures Ordered(Apply(c, s, Enter(t)))
  {
    hide Pieces, Aligned, ClampLen, StartJob, LockedTids;
    OrderedQuiet(c, s, Apply(c, s, Enter(t)), t);
  }

  lemma OrderedReturn(c: Config, s: State, t: nat)
    requires Shape(c, s) && Ordered(s) && Enabled(c, s, Return(t))
    ensures Ordered(Apply(c, s, Return(t)))
  {
    var ph := s.phases[t];
    assert PhaseOk(c, s, t);
    if ph.job.Locked() {
      hide Pieces, Aligned, ClampLen, StartJob, LockedTids;
      OrderedLogged(c, s, Apply(c, s, Return(t)), ReturnEntry(t, ph));
    } else {
      AlignedParts(ph.job);
      FilledStart(ph.job);
      hide Pieces, Aligned, ClampLen, StartJob, LockedTids;
      OrderedQuiet(c, s, Apply(c, s, Return(t)), t);
    }
  }

  lemma OrderedIo(c: Config, s: State, t: nat, ok: bool)
    requires c.Valid() && Shape(c, s) && Ordered(s) && Enabled(c, s, Io(t, ok))
    ensures Ordered(Apply(c, s, Io(t, ok)))
  {
    var s', ph := Apply(c, s, Io(t, ok)), s.phases[t];
    StepsAlone(c, s, Io(t, ok));
    if !ok || ph.job.Locked() {
      hide Pieces, Aligned, ClampLen, StartJob, LockedTids, Outgoing, Splice, Transferable;
      OrderedQuiet(c, s, s', t);
    } else {
      OrderedAligned(c, s, t);
    }
  }

  /** An aligned transfer moves all its data in its one device call, and is logged with it. */
  lemma AlignedSettles(c: Config, s: State, t: nat)
    requires c.Valid() && Shape(c, s) && Enabled(c, s, Io(t, true)) && !s.phases[t].job.Locked()
    ensures var s', job := ApplyIo(s, t), s.phases[t].job;
      && |s'.log| == |s.log| + 1 && s'.log[|s.log|].tid == t && s'.log == s.log + [s'.log[|s.log|]]
      && !s'.log[|s.log|].locked
      && Settled(s.phases[t]).None? && Settled(s'.phases[t]) == Some(s'.log[|s.log|].(tid := 0))
  {
    var job := s.phases[t].job;
    assert PhaseOk(c, s, t);
    AlignedParts(job);
    FilledStart(job);
    hide Pieces, StartJob, Splice, Aligned, Transferable;
    if job.write {
      AlignedWrite(c, s, t);
      assert job.data[..job.len] == job.data;
    } else {
      AlignedRead(c, s, t);
    }
    hide ApplyIo;
  }

  lemma OrderedAligned(c: Config, s: State, t: nat)
    requires c.Valid() && Shape(c, s) && Ordered(s) && Enabled(c, s, Io(t, true)) && !s.phases[t].job.Locked()
    ensures Ordered(ApplyIo(s, t))
  {
    var s' := ApplyIo(s, t);
    AlignedSettles(c, s, t);
    IoMoves(s, t);
    assert s'.phases == s.phases[t := s'.phases[t]];
    assert s'.acquired == s.acquired && s'.handleLock == s.handleLock;
    assert s.acquired == LockedTids(s.log) + if s.handleLock.Some? then [s.handleLock.value] else [];
    hide *;
    var e := s'.log[|s.log|];
    assert s'.acquired == LockedTids(s.log) + [] + if s'.handleLock.Some? then [s'.handleLock.value] else [];
    OrderedLogged(c, s, s', e);
  }

  /** In every run the log lists each transfer that moved data exactly once, with the data it
      moved; the misaligned ones are in the order in which they took the handle mutex, the holder
      last. */
  lemma {:induction false} OrderedAlways(c: Config, run: seq<Action>)
    requires c.Valid() && Exec(c, run).Some?
    ensures Ordered(Exec(c, run).value)
  {
    if run != [] {
      OrderedAlways(c, run[..|run| - 1]);
      ShapeAlways(c, run[..|run| - 1]);
      OrderedStep(c, Exec(c, run[..|run| - 1]).value, run[|run| - 1]);
    }
  }

  /** The calls of a finished run took effect one at a time: the disk is the start disk with the
      logged transfers applied one after the other; every read delivered a slice of the disk as
      the transfers before it left it; each call that moved data is in the log exactly once, with
      what it delivered or stored; and misaligned calls are in lock order. */
  ghost predicate Atomic(c: Config, s: State) {
    && s.disk == ReplayLog(c.d0, s.log)
    && Legal(c.d0, s.log)
    && s.acquired == LockedTids(s.log)
    && (forall i, j :: 0 <= i < j < |s.log| ==> s.log[i].tid != s.log[j].tid)
    && (forall t :: 0 <= t < |s.phases| && Logged(s.phases[t]) ==> Settled(s.phases[t]).value.(tid := t) in s.log)
  }

  /** Every call is atomic in a run where no aligned transfer overlaps a misaligned one in
      progress of which one writes, whatever the interleaving and the failures. */
  lemma CallsAreAtomic(c: Config, run: seq<Action>)
    requires c.Valid() && Exec(c, run).Some? && Isolated(c, run)
    requires forall t :: 0 <= t < |c.calls| ==> Exec(c, run).value.phases[t].Done?
    ensures Atomic(c, Exec(c, run).value)
  {
    Serializable(c, run);
    OrderedAlways(c, run);
    FreeAtTheEnd(c, run);
    var s := Exec(c, run).value;
    forall t | 0 <= t < |s.phases| && Logged(s.phases[t])
      ensures Settled(s.phases[t]).value.(tid := t) in s.log
    {
      InLogEntry(s, t);
    }
  }

  /** Misaligned calls are always atomic: the aligned ones alone can break it. */
  lemma MisalignedAreAtomic(c: Config, run: seq<Action>)
    requires c.Valid() && Exec(c, run).Some? && OnlyMisaligned(c, run)
    requires forall t :: 0 <= t < |c.calls| ==> Exec(c, run).value.phases[t].Done?
    ensures Atomic(c, Exec(c, run).value)
  {
    MisalignedIsolated(c, run);
    CallsAreAtomic(c, run);
  }

  lemma InLogEntry(s: State, t: nat)
    requires Ordered(s) && t < |s.phases| && Logged(s.phases[t])
    ensures Settled(s.phases[t]).value.(tid := t) in s.log
  {
    assert InLog(s.log, t);
    var i :| 0 <= i < |s.log| && s.log[i].tid == t;
    assert Records(s, s.log[i]);
    assert s.log[i] == Settled(s.phases[t]).value.(tid := t);
  }

  // ----- the log respects real time

  /** A step is one of a thread that is not done, and logs at most one entry, that thread's. */
  lemma StepLogs(c: Config, s: State, a: Action)
    requires Enabled(c, s, a)
    ensures !s.phases[a.t].Done?
    ensures var log := Apply(c, s, a).log;
      log == s.log || (|log| == |s.log| + 1 && log[..|s.log|] == s.log && log[|s.log|].tid == a.t)
  {
    hide Pieces, Aligned, ClampLen, StartJob, Splice, Outgoing, Transferable, NextPhase;
  }

  /** After a moment of a run the log only grows, and only by calls that were not done then. */
  ghost predicate Later(s: State, r: State) {
    && |r.phases| == |s.phases|
    && |s.log| <= |r.log| && r.log[..|s.log|] == s.log
    && (forall t :: 0 <= t < |s.phases| && s.phases[t].Done? ==> r.phases[t] == s.phases[t])
    && (forall k :: |s.log| <= k < |r.log| ==> r.log[k].tid < |s.phases| && !s.phases[r.log[k].tid].Done?)
  }

  lemma LaterStep(c: Config, s: State, r: State, a: Action)
    requires Later(s, r) && Enabled(c, r, a)
    ensures Later(s, Apply(c, r, a))
  {
    StepLogs(c, r, a);
    StepsAlone(c, r, a);
    hide Apply, Enabled;
  }

  lemma {:induction false} LaterAlways(c: Config, run: seq<Action>, cut: nat)
    requires Exec(c, run).Some? && cut <= |run|
    ensures Exec(c, run[..cut]).Some? && Later(Exec(c, run[..cut]).value, Exec(c, run).value)
    decreases |run|
  {
    if cut == |run| {
      assert run[..cut] == run;
    } else {
      var before := run[..|run| - 1];
      LaterAlways(c, before, cut);
      assert before[..cut] == run[..cut];
      LaterStep(c, Exec(c, run[..cut]).value, Exec(c, before).value, run[|run| - 1]);
      hide Later, Enabled, Apply;
    }
  }

  /** The log respects real time: a call that is done before another begins comes before it, in
      every run, whatever the calls and the failures. */
  lemma RealTime(c: Config, run: seq<Action>, cut: nat, i: nat, j: nat)
    requires c.Valid() && Exec(c, run).Some? && cut <= |run| && Exec(c, run[..cut]).Some?
    requires i < |Exec(c, run).value.log| && j < |Exec(c, run).value.log|
    requires var s, log := Exec(c, run[..cut]).value, Exec(c, run).value.log;
      && log[i].tid < |s.phases| && s.phases[log[i].tid].Done?
      && log[j].tid < |s.phases| && s.phases[log[j].tid].Ready?
    ensures i < j
  {
    OrderedAlways(c, run[..cut]);
    LaterAlways(c, run, cut);
    hide Exec;
    var s, log := Exec(c, run[..cut]).value, Exec(c, run).value.log;
    assert j < |s.log| ==> s.log[j] == log[j] && Records(s, s.log[j]);
  }
}
