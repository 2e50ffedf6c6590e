/** A concurrent run and the sequential methods: each logged call did to the disk and to its
    buffer, and returned, what `ReadAt` or `WriteAt` does when called alone at its place in the log. */
module Sequential {
  import opened Options
  import opened Bytes
  import opened Layout
  import opened DiskHandle
  import opened Protocol
  import opened Locks
  import opened Serial
  import opened Order

  /** The job is the one call `t` asks for, at its own offset if it names one. */
  predicate IsJob(c: Config, t: nat, job: Job)
    requires t < |c.calls|
  {
    && !c.calls[t].Seek?
    && (c.calls[t].ReadAt? || c.calls[t].WriteAt? ==> job.off == c.calls[t].off)
    && StartJob(c.calls[t], job.off, |c.d0|) == Some(job)
  }

  /** A call that names its own offset and never became a job failed its range check. */
  predicate Refused(c: Config, t: nat)
    requires t < |c.calls|
  {
    c.calls[t].ReadAt? || c.calls[t].WriteAt? ==> StartJob(c.calls[t], c.calls[t].off, |c.d0|).None?
  }

  /** The count fits what was moved: all of it, or up to a boundary between two parts if a device
      call failed. */
  ghost predicate Tally(job: Job, n: nat, buf: seq<byte>, failed: bool) {
    && (job.write ==> buf == [])
    && if failed then
         && Boundary(job.off, job.len, n) && n <= job.len && (n < job.len || job.len == 0)
         && (!job.write ==> |buf| == n)
       else if job.write then n == job.len
       else |buf| == job.len && n == ReadCount(job.off, job.len)
  }

  ghost predicate Counted(c: Config, t: nat, ph: Phase)
    requires t < |c.calls|
  {
    match ph
    case Running(job, k, _, _, failed) => IsJob(c, t, job) && (failed ==> k < |job.Parts()|)
    case Returned(Some(job), n, buf, failed) => IsJob(c, t, job) && Tally(job, n, buf, failed)
    case Done(Some(job), n, buf, failed) => IsJob(c, t, job) && Tally(job, n, buf, failed)
    case Returned(None, n, buf, failed) => n == 0 && buf == [] && failed && Refused(c, t)
    case Done(None, n, buf, failed) => n == 0 && buf == [] && (!c.calls[t].Seek? ==> failed) && Refused(c, t)
    case _ => true
  }

  ghost predicate AllCounted(c: Config, s: State) {
    |s.phases| == |c.calls| && forall t :: 0 <= t < |c.calls| ==> Counted(c, t, s.phases[t])
  }

  lemma PartStartsAtBoundary(job: Job, k: nat)
    requires k < |job.Parts()|
    ensures Boundary(job.off, job.len, job.Filled(k)) && (job.Filled(k) < job.len || job.len == 0)
  {
    PiecesTile(job.off, job.len);
    assert PieceFits(job.Parts()[k], job.off, job.len);
    hide Tiles, PieceFits;
  }

  lemma ReturnTallies(ph: Phase, size: nat)
    requires ph.Running? && RunOk(ph, size) && (ph.failed ==> ph.k < |ph.job.Parts()|) && (ph.failed || ph.k == |ph.job.Parts()|)
    ensures var r := ReturnPhase(ph); Tally(ph.job, r.n, r.buf, r.error)
  {
    if ph.failed {
      PartStartsAtBoundary(ph.job, ph.k);
    }
    hide Pieces;
  }

  lemma CountedStep(c: Config, s: State, a: Action)
    requires c.Valid() && Shape(c, s) && AllCounted(c, s) && Enabled(c, s, a)
    ensures Counted(c, a.t, Apply(c, s, a).phases[a.t])
  {
    assert PhaseOk(c, s, a.t) && Counted(c, a.t, s.phases[a.t]);
    match a {
      case Return(t) =>
        ReturnTallies(s.phases[t], |s.disk|);
        hide Pieces, Aligned, StartJob, Tally, RunOk;
      case Enter(t) =>
        hide Pieces, Aligned, ClampLen, Tally;
        if JobFor(c, s, t).Some? {
          StartedJobFits(c.calls[t], StartOffset(c.calls[t], s.offset), |s.disk|);
        }
      case _ =>
        hide Pieces, Aligned, StartJob, Tally, RunOk, Splice, Outgoing, Transferable;
    }
  }

  lemma {:induction false} CountedAlways(c: Config, run: seq<Action>)
    requires c.Valid() && Exec(c, run).Some?
    ensures AllCounted(c, Exec(c, run).value)
  {
    if run != [] {
      var s, a := Exec(c, run[..|run| - 1]).value, run[|run| - 1];
      CountedAlways(c, run[..|run| - 1]);
      ShapeAlways(c, run[..|run| - 1]);
      CountedStep(c, s, a);
      StepsAlone(c, s, a);
      hide Apply, Enabled, Counted;
    }
  }

  // ----- the log, one entry at a time

  lemma {:induction false} LogAt(d: seq<byte>, log: seq<Entry>, i: nat)
    requires Legal(d, log) && i < |log|
    ensures log[i].off + |log[i].bytes| <= |d|
    ensures !log[i].write ==> log[i].bytes == ReplayLog(d, log[..i])[log[i].off..log[i].off + |log[i].bytes|]
    ensures ReplayLog(d, log[..i + 1]) ==
      if log[i].write then Splice(ReplayLog(d, log[..i]), log[i].off, log[i].bytes) else ReplayLog(d, log[..i])
    decreases |log|
  {
    var init := log[..|log| - 1];
    if i == |log| - 1 {
      assert log[..i + 1] == log;
    } else {
      LogAt(d, init, i);
      assert init[..i] == log[..i] && init[..i + 1] == log[..i + 1];
    }
  }

  /** The call returned an error exactly when a device call failed. */
  ghost predicate WritesAs(before: seq<byte>, after: seq<byte>, off: nat, data: seq<byte>, n: nat, failed: bool) {
    exists err :: (err != NoError <==> failed) && WriteOutcome(before, after, off, data, n, err)
  }

  ghost predicate ReadsAs(disk: seq<byte>, off: nat, p0: seq<byte>, buf: seq<byte>, n: nat, failed: bool) {
    |buf| <= |p0| && exists err :: (err != NoError <==> failed) && ReadOutcome(disk, off, p0, Splice(p0, 0, buf), n, err)
  }

  /** What a finished call moved and returned is what the sequential method does on disk `before`. */
  ghost predicate ActsAlone(call: Call, job: Job, n: nat, buf: seq<byte>, failed: bool, before: seq<byte>, after: seq<byte>)
    requires !call.Seek?
  {
    match call
    case WriteAt(off, data) => WritesAs(before, after, off, data, n, failed)
    case StreamWrite(data) => WritesAs(before, after, job.off, data, n, failed)
    case ReadAt(off, len) => after == before && forall p0: seq<byte> :: |p0| == len ==> ReadsAs(before, off, p0, buf, n, failed)
    case StreamRead(len) => after == before && forall p0: seq<byte> :: |p0| == len ==> ReadsAs(before, job.off, p0, buf, n, failed)
  }

  lemma WriteActsAlone(before: seq<byte>, job: Job, n: nat, failed: bool)
    requires job.write && job.Fits(|before|) && Tally(job, n, [], failed) && n <= |job.data|
    ensures WritesAs(before, Splice(before, job.off, job.data[..n]), job.off, job.data, n, failed)
  {
    var after := Splice(before, job.off, job.data[..n]);
    assert WriteOutcome(before, after, job.off, job.data, n, if failed then Vddk(1) else NoError);
  }

  lemma ReadActsAlone(disk: seq<byte>, job: Job, len: nat, p0: seq<byte>, buf: seq<byte>, n: nat, failed: bool)
    requires !job.write && ReadJob(job.off, len, |disk|) == Some(job) && job.Fits(|disk|)
    requires Tally(job, n, buf, failed) && |p0| == len && job.off + |buf| <= |disk| && buf == disk[job.off..job.off + |buf|]
    ensures ReadsAs(disk, job.off, p0, buf, n, failed)
  {
    ClampExact(len, job.off, |disk|);
    var err := if failed then Vddk(1) else NoError;
    hide Splice, ReadCount, Boundary, ClampLen;
    assert ReadOutcome(disk, job.off, p0, Splice(p0, 0, buf), n, err);
  }

  lemma LoggedIsSettled(c: Config, s: State, i: nat)
    requires Shape(c, s) && Ordered(s) && AllCounted(c, s) && i < |s.log|
    requires forall t :: 0 <= t < |c.calls| ==> s.phases[t].Done?
    ensures var e := s.log[i]; var t := e.tid;
      && t < |c.calls| && s.phases[t].done.Some?
      && var job := s.phases[t].done.value;
      && IsJob(c, t, job) && Tally(job, s.phases[t].n, s.phases[t].buf, s.phases[t].error)
      && e.write == job.write && e.off == job.off && e.bytes == Moved(job, s.phases[t].n, s.phases[t].buf)
  {
    assert Records(s, s.log[i]);
    assert Counted(c, s.log[i].tid, s.phases[s.log[i].tid]);
    hide IsJob, Tally, Shape, Moved;
  }

  lemma EntryActsAlone(c: Config, t: nat, job: Job, n: nat, buf: seq<byte>, failed: bool, before: seq<byte>, after: seq<byte>)
    requires c.Valid() && t < |c.calls| && IsJob(c, t, job) && Tally(job, n, buf, failed) && |before| == |c.d0|
    requires job.off + |Moved(job, n, buf)| <= |before|
    requires !job.write ==> buf == before[job.off..job.off + |buf|]
    requires after == if job.write then Splice(before, job.off, Moved(job, n, buf)) else before
    ensures ActsAlone(c.calls[t], job, n, buf, failed, before, after)
  {
    StartedJobFits(c.calls[t], job.off, |c.d0|);
    hide Tally, ReadsAs, WritesAs, Splice, ClampLen;
    if job.write {
      assert job.data[..n] == Moved(job, n, buf) by {
        TallyBounds(job, n, buf, failed);
      }
      WriteActsAlone(before, job, n, failed);
    } else {
      var len := c.calls[t].len;
      forall p0: seq<byte> | |p0| == len
        ensures ReadsAs(before, job.off, p0, buf, n, failed)
      {
        ReadActsAlone(before, job, len, p0, buf, n, failed);
      }
    }
  }

  lemma TallyBounds(job: Job, n: nat, buf: seq<byte>, failed: bool)
    requires Tally(job, n, buf, failed) && job.write && |job.data| == job.len
    ensures n <= |job.data| && Tally(job, n, [], failed)
  {
  }

  /** The concurrent run is the sequential one: in a finished run without conflicting transfers,
      the call at each place of the log did, to the disk as the calls before it left it, exactly
      what `ReadAt` or `WriteAt` does when called alone, with the same count, the same bytes, and an
      error exactly when a device call failed. */
  lemma CallsActAlone(c: Config, run: seq<Action>, i: nat)
    requires c.Valid() && Exec(c, run).Some? && Isolated(c, run)
    requires forall t :: 0 <= t < |c.calls| ==> Exec(c, run).value.phases[t].Done?
    requires i < |Exec(c, run).value.log|
    ensures var s := Exec(c, run).value; var t := s.log[i].tid;
      && t < |c.calls| && !c.calls[t].Seek? && s.phases[t].done.Some?
      && ActsAlone(c.calls[t], s.phases[t].done.value, s.phases[t].n, s.phases[t].buf, s.phases[t].error,
                   ReplayLog(c.d0, s.log[..i]), ReplayLog(c.d0, s.log[..i + 1]))
  {
    ShapeAlways(c, run);
    OrderedAlways(c, run);
    CountedAlways(c, run);
    Serializable(c, run);
    hide *;
    EntryIsCall(c, Exec(c, run).value, i);
  }

  lemma EntryIsCall(c: Config, s: State, i: nat)
    requires c.Valid() && Shape(c, s) && Ordered(s) && AllCounted(c, s) && Serialized(c, s) && i < |s.log|
    requires forall t :: 0 <= t < |c.calls| ==> s.phases[t].Done?
    ensures var t := s.log[i].tid;
      && t < |c.calls| && !c.calls[t].Seek? && s.phases[t].done.Some?
      && ActsAlone(c.calls[t], s.phases[t].done.value, s.phases[t].n, s.phases[t].buf, s.phases[t].error,
                   ReplayLog(c.d0, s.log[..i]), ReplayLog(c.d0, s.log[..i + 1]))
  {
    hide Tally, ActsAlone, StartJob, Pieces;
    LoggedIsSettled(c, s, i);
    LogAt(c.d0, s.log, i);
    var t := s.log[i].tid;
    var ph := s.phases[t];
    var before, after := ReplayLog(c.d0, s.log[..i]), ReplayLog(c.d0, s.log[..i + 1]);
    hide *;
    EntryActsAlone(c, t, ph.done.value, ph.n, ph.buf, ph.error, before, after);
  }

  /** What a finished call that moved nothing did, at any disk `d`. */
  ghost predicate IdlesAlone(call: Call, ph: Phase, d: seq<byte>)
    requires ph.Done?
  {
    && (ph.done.Some? ==> !call.Seek? && ActsAlone(call, ph.done.value, ph.n, ph.buf, ph.error, d, d))
    && (ph.done.None? && !call.Seek? ==> ph.error)
    && (ph.done.None? && call.WriteAt? ==> WriteOutcome(d, d, call.off, call.data, ph.n, ShortWrite))
    && (ph.done.None? && call.ReadAt? ==>
          forall p0: seq<byte> :: |p0| == call.len ==> ReadOutcome(d, call.off, p0, p0, ph.n, EOF))
  }

  lemma UnmovedActsAlone(c: Config, t: nat, job: Job, n: nat, buf: seq<byte>, failed: bool, d: seq<byte>)
    requires c.Valid() && t < |c.calls| && IsJob(c, t, job) && Tally(job, n, buf, failed) && |d| == |c.d0|
    requires Moved(job, n, buf) == []
    ensures ActsAlone(c.calls[t], job, n, buf, failed, d, d)
  {
    StartedJobFits(c.calls[t], job.off, |c.d0|);
    hide Tally, IsJob, ActsAlone;
    if job.write {
      SpliceNothing(d, job.off);
    }
    EntryActsAlone(c, t, job, n, buf, failed, d, d);
  }

  lemma RefusedActsAlone(c: Config, t: nat, ph: Phase, d: seq<byte>)
    requires c.Valid() && t < |c.calls| && Refused(c, t) && |d| == |c.d0| && ph.Done? && ph.done.None? && ph.n == 0
    requires !c.calls[t].Seek? ==> ph.error
    ensures IdlesAlone(c.calls[t], ph, d)
  {
    if c.calls[t].ReadAt? && c.calls[t].off < |d| {
      ClampExact(c.calls[t].len, c.calls[t].off, |d|);
    }
  }

  /** A finished call that is not in the log moved nothing, and does so at any place of it. */
  lemma UnloggedActsAlone(c: Config, run: seq<Action>, t: nat, d: seq<byte>)
    requires c.Valid() && Exec(c, run).Some? && t < |c.calls| && Exec(c, run).value.phases[t].Done?
    requires !InLog(Exec(c, run).value.log, t) && |d| == |c.d0|
    ensures IdlesAlone(c.calls[t], Exec(c, run).value.phases[t], d)
  {
    var s := Exec(c, run).value;
    OrderedAlways(c, run);
    CountedAlways(c, run);
    var ph := s.phases[t];
    assert Counted(c, t, ph);
    if ph.done.Some? {
      assert Moved(ph.done.value, ph.n, ph.buf) == [];
      hide *;
      UnmovedActsAlone(c, t, ph.done.value, ph.n, ph.buf, ph.error, d);
      AlsoIdles(c.calls[t], ph, d);
    } else {
      RefusedActsAlone(c, t, ph, d);
    }
  }

  lemma AlsoIdles(call: Call, ph: Phase, d: seq<byte>)
    requires ph.Done? && ph.done.Some? && !call.Seek? && ActsAlone(call, ph.done.value, ph.n, ph.buf, ph.error, d, d)
    ensures IdlesAlone(call, ph, d)
  {
  }

  // ----- an order of the calls

  /** On disk `d`, what finished call `t` did and returned is what it does alone, leaving `e`. */
  ghost predicate StepsTo(c: Config, s: State, t: nat, d: seq<byte>, e: seq<byte>)
    requires t < |c.calls| && t < |s.phases| && s.phases[t].Done?
  {
    var ph := s.phases[t];
    if ph.done.Some? then !c.calls[t].Seek? && ActsAlone(c.calls[t], ph.done.value, ph.n, ph.buf, ph.error, d, e)
    else e == d && IdlesAlone(c.calls[t], ph, d)
  }

  /** `order` lists each of the first `n` numbers once. */
  ghost predicate OnceEach(n: nat, order: seq<nat>) {
    && (forall t :: 0 <= t < n <==> t in order)
    && (forall i, j :: 0 <= i < j < |order| ==> order[i] != order[j])
  }

  /** Making the calls one after the other in this order goes through these disks. */
  ghost predicate Explains(c: Config, s: State, order: seq<nat>, disks: seq<seq<byte>>) {
    && |s.phases| == |c.calls| && (forall t :: 0 <= t < |s.phases| ==> s.phases[t].Done?)
    && OnceEach(|c.calls|, order)
    && |disks| == |order| + 1 && disks[0] == c.d0 && disks[|order|] == s.disk
    && (forall i :: 0 <= i < |order| ==> order[i] < |c.calls| && StepsTo(c, s, order[i], disks[i], disks[i + 1]))
  }

  /** Some order of the finished calls explains the disk and everything they returned. */
  ghost predicate SomeOrder(c: Config, s: State) {
    exists order, disks :: Explains(c, s, order, disks)
  }

  function Tids(log: seq<Entry>): (r: seq<nat>)
    ensures |r| == |log| && forall i :: 0 <= i < |log| ==> r[i] == log[i].tid
  {
    seq(|log|, i requires 0 <= i < |log| => log[i].tid)
  }

  /** The numbers below `n` that are not in `seen`. */
  function Missing(n: nat, seen: seq<nat>): (r: seq<nat>)
    ensures forall x: nat :: x in r <==> x < n && x !in seen
    ensures forall i, j :: 0 <= i < j < |r| ==> r[i] != r[j]
  {
    if n == 0 then []
    else
      var rest := Missing(n - 1, seen);
      if n - 1 in seen then rest else rest + [n - 1]
  }

  function Disks(d: seq<byte>, log: seq<Entry>, idle: nat): (r: seq<seq<byte>>)
    ensures |r| == |log| + idle + 1
    ensures forall i :: 0 <= i < |r| ==> r[i] == ReplayLog(d, if i < |log| then log[..i] else log)
  {
    seq(|log| + idle + 1, i requires 0 <= i < |log| + idle + 1 => ReplayLog(d, if i < |log| then log[..i] else log))
  }

  lemma LogOrders(c: Config, s: State)
    requires Ordered(s) && |s.phases| == |c.calls|
    ensures OnceEach(|c.calls|, Tids(s.log) + Missing(|c.calls|, Tids(s.log)))
  {
    var tids := Tids(s.log);
    var rest := Missing(|c.calls|, tids);
    forall i | 0 <= i < |s.log|
      ensures tids[i] < |c.calls|
    {
      assert Records(s, s.log[i]);
    }
    forall i, j | 0 <= i < j < |tids + rest|
      ensures (tids + rest)[i] != (tids + rest)[j]
    {
      if i < |tids| && j >= |tids| {
        assert rest[j - |tids|] in rest && tids[i] in tids;
      }
    }
    forall t | 0 <= t < |c.calls|
      ensures t in tids + rest
    {
      assert t in tids || t in rest;
    }
  }

  /** The log, and then the calls that moved nothing. */
  lemma LogExplains(c: Config, s: State)
    requires Ordered(s) && |s.phases| == |c.calls| && s.disk == ReplayLog(c.d0, s.log)
    requires forall t :: 0 <= t < |c.calls| ==> s.phases[t].Done?
    requires forall i :: 0 <= i < |s.log| ==>
      s.log[i].tid < |c.calls| && StepsTo(c, s, s.log[i].tid, ReplayLog(c.d0, s.log[..i]), ReplayLog(c.d0, s.log[..i + 1]))
    requires forall t :: 0 <= t < |c.calls| && !InLog(s.log, t) ==> StepsTo(c, s, t, s.disk, s.disk)
    ensures SomeOrder(c, s)
  {
    hide Ordered, StepsTo, ReplayLog, Missing, InLog, Tids, Disks, OnceEach;
    LogOrders(c, s);
    var tids := Tids(s.log);
    var order := tids + Missing(|c.calls|, tids);
    var disks := Disks(c.d0, s.log, |order| - |tids|);
    DisksAre(c.d0, s.log, |order| - |tids|);
    forall i | 0 <= i < |order|
      ensures order[i] < |c.calls| && StepsTo(c, s, order[i], disks[i], disks[i + 1])
    {
      if i >= |tids| {
        NotInLog(s.log, |c.calls|, i - |tids|);
        assert order[i] == Missing(|c.calls|, tids)[i - |tids|];
      } else {
        assert order[i] == s.log[i].tid;
      }
    }
    Explained(c, s, order, disks);
  }

  lemma Explained(c: Config, s: State, order: seq<nat>, disks: seq<seq<byte>>)
    requires |s.phases| == |c.calls| && forall t :: 0 <= t < |c.calls| ==> s.phases[t].Done?
    requires OnceEach(|c.calls|, order)
    requires |disks| == |order| + 1 && disks[0] == c.d0 && disks[|order|] == s.disk
    requires forall i :: 0 <= i < |order| ==> order[i] < |c.calls| && StepsTo(c, s, order[i], disks[i], disks[i + 1])
    ensures SomeOrder(c, s)
  {
    hide StepsTo, OnceEach;
    assert Explains(c, s, order, disks);
  }

  lemma DisksAre(d: seq<byte>, log: seq<Entry>, idle: nat)
    ensures var disks := Disks(d, log, idle);
      && disks[0] == d
      && (forall i :: 0 <= i <= |log| ==> disks[i] == ReplayLog(d, log[..i]))
      && (forall i :: |log| <= i <= |log| + idle ==> disks[i] == ReplayLog(d, log))
  {
    assert log[..|log|] == log && log[..0] == [];
    hide ReplayLog;
    assert ReplayLog(d, []) == d by {
      EmptyLog(d);
    }
  }

  lemma EmptyLog(d: seq<byte>)
    ensures ReplayLog(d, []) == d
  {
  }

  lemma NotInLog(log: seq<Entry>, n: nat, k: nat)
    requires k < |Missing(n, Tids(log))|
    ensures Missing(n, Tids(log))[k] < n && !InLog(log, Missing(n, Tids(log))[k])
  {
    var tids, rest := Tids(log), Missing(n, Tids(log));
    assert rest[k] in rest;
    assert forall j :: 0 <= j < |log| ==> tids[j] in tids;
  }

  /** A finished run without conflicting transfers is explained by an order of its calls. */
  lemma IsolatedHasOrder(c: Config, run: seq<Action>)
    requires c.Valid() && Exec(c, run).Some? && Isolated(c, run)
    requires forall t :: 0 <= t < |c.calls| ==> Exec(c, run).value.phases[t].Done?
    ensures SomeOrder(c, Exec(c, run).value)
  {
    var s := Exec(c, run).value;
    CallsAreAtomic(c, run);
    OrderedAlways(c, run);
    assert s.disk == ReplayLog(c.d0, s.log);
    hide Exec, Isolated, Ordered, Atomic, ReplayLog, ActsAlone, InLog;
    forall i | 0 <= i < |s.log|
      ensures s.log[i].tid < |c.calls| && StepsTo(c, s, s.log[i].tid, ReplayLog(c.d0, s.log[..i]), ReplayLog(c.d0, s.log[..i + 1]))
    {
      CallsActAlone(c, run, i);
    }
    forall t | 0 <= t < |c.calls| && !InLog(s.log, t)
      ensures StepsTo(c, s, t, s.disk, s.disk)
    {
      ShapeAlways(c, run);
      UnloggedActsAlone(c, run, t, s.disk);
    }
    LogExplains(c, s);
  }
}
