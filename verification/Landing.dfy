/** Where the calls through the shared offset take effect: each at the offset the stream calls
    before it left, in the order in which they moved it. */
module Landing {
  import opened Options
  import opened Bytes
  import opened Layout
  import opened DiskHandle
  import opened Protocol
  import opened Locks
  import opened LostUpdate
  import opened Updates
  import opened Serial
  import opened Order
  import opened Sequential
  import opened Stream

  // ----- device writes

  /** A device write that succeeds adds one to the list, and its bytes are on the disk then. */
  lemma FragStored(c: Config, s: State, a: Action)
    requires c.Valid() && Shape(c, s) && Enabled(c, s, a)
    ensures var s' := Apply(c, s, a);
      || (s'.frags == s.frags && s'.disk == s.disk)
      || (|s'.frags| == |s.frags| + 1 && s'.frags[..|s.frags|] == s.frags
          && var f := s'.frags[|s.frags|];
          f.tid == a.t && f.off + |f.bytes| <= |s'.disk| && s'.disk[f.off..f.off + |f.bytes|] == f.bytes)
  {
    if a.Io? && a.ok && s.phases[a.t].job.write && !Fetches(s.phases[a.t]) {
      WriteStored(c, s, a.t);
    }
    hide Pieces, Aligned, ClampLen, StartJob, Splice, Outgoing, Transferable;
  }

  lemma WriteStored(c: Config, s: State, t: nat)
    requires c.Valid() && Shape(c, s) && Enabled(c, s, Io(t, true)) && s.phases[t].job.write && !Fetches(s.phases[t])
    ensures var s' := ApplyIo(s, t); var ph := s.phases[t]; var p := ph.job.Parts()[ph.k];
      && s'.frags == s.frags + [Frag(t, p.lo, ph.job.off + p.lo, ph.job.data[p.lo..p.hi])]
      && ph.job.off + p.hi <= |s'.disk| && s'.disk[ph.job.off + p.lo..ph.job.off + p.hi] == ph.job.data[p.lo..p.hi]
  {
    var ph := s.phases[t];
    var p := ph.job.Parts()[ph.k];
    PhaseOfShape(c, s, t);
    hide Shape, Pieces, StartJob, Aligned, Splice, HeadLen, BodyLen;
    var bytes := ph.job.data[p.lo..p.hi];
    if ph.tmp.None? {
      SpliceShows(s.disk, p.start * SECTOR, bytes);
    } else {
      SpliceWithin(s.disk, p.start * SECTOR, ph.tmp.value, ph.job.off + p.lo - p.start * SECTOR, bytes);
    }
    hide PhaseOk;
  }

  lemma SpliceShows(d: seq<byte>, at: nat, bytes: seq<byte>)
    requires at + |bytes| <= |d|
    ensures |Splice(d, at, bytes)| == |d| && Splice(d, at, bytes)[at..at + |bytes|] == bytes
  {
  }

  lemma SpliceWithin(d: seq<byte>, at: nat, window: seq<byte>, x: nat, bytes: seq<byte>)
    requires at + |window| <= |d| && x + |bytes| <= |window|
    ensures |Splice(window, x, bytes)| == |window| && |Splice(d, at, Splice(window, x, bytes))| == |d|
    ensures Splice(d, at, Splice(window, x, bytes))[at + x..at + x + |bytes|] == bytes
  {
  }

  /** Every device write of a thread that wrote through the shared offset carries the part of its
      data that belongs to its place, counted from the offset the call found; and every byte the
      call counted as stored went out in one. */
  lemma StreamWriteLands(c: Config, run: seq<Action>, k: nat)
    requires c.Valid() && Exec(c, run).Some? && k < |Exec(c, run).value.moves|
    requires var m := Exec(c, run).value.moves[k]; m.tid < |c.calls| && c.calls[m.tid].StreamWrite?
    ensures var s := Exec(c, run).value; var m := s.moves[k]; var data := c.calls[m.tid].data;
      && (forall j :: 0 <= j < |s.frags| && s.frags[j].tid == m.tid ==> Carries(s.frags[j], m.from, m.to, data))
      && (forall i: nat :: m.from <= i < m.to ==> Delivered(s.frags, m.tid, i))
  {
    OffsetHistory(c, run);
    AccountedAlways(c, run);
    var s := Exec(c, run).value;
    assert MoveOk(c, s, s.moves[k]);
    hide *;
    LandsInPlace(c, s, s.moves[k]);
  }

  lemma LandsInPlace(c: Config, s: State, m: Move)
    requires Accounted(s) && MoveOk(c, s, m) && c.calls[m.tid].StreamWrite?
    ensures forall j :: 0 <= j < |s.frags| && s.frags[j].tid == m.tid ==> Carries(s.frags[j], m.from, m.to, c.calls[m.tid].data)
    ensures forall i: nat :: m.from <= i < m.to ==> Delivered(s.frags, m.tid, i)
  {
    hide Delivered;
    forall j | 0 <= j < |s.frags| && s.frags[j].tid == m.tid
      ensures Carries(s.frags[j], m.from, m.to, c.calls[m.tid].data)
    {
      assert FragOk(s, s.frags[j]);
    }
    forall i: nat | m.from <= i < m.to
      ensures Delivered(s.frags, m.tid, i)
    {
      assert Wrote(s, m.tid, i);
    }
  }

  /** The device write `f` lies in [from, to) and carries the bytes of `data` that belong there. */
  ghost predicate Carries(f: Frag, from: int, to: int, data: seq<byte>) {
    && from <= f.off && f.off + |f.bytes| <= to && to - from <= |data|
    && f.bytes == data[f.off - from..f.off - from + |f.bytes|]
  }

  // ----- order

  lemma MovesGrow(c: Config, s: State, a: Action)
    requires Enabled(c, s, a)
    ensures var moves := Apply(c, s, a).moves;
      moves == s.moves || (a.Leave? && c.calls[a.t].Stream() && |moves| == |s.moves| + 1 && moves[..|s.moves|] == s.moves && moves[|s.moves|].tid == a.t)
  {
    hide Pieces, Aligned, ClampLen, StartJob, Splice, Outgoing, Transferable, NextPhase;
  }

  /** The moment at which the offset has just been moved for the `n`-th time. */
  lemma {:induction false} MomentOf(c: Config, run: seq<Action>, n: nat) returns (cut: nat)
    requires c.Valid() && Exec(c, run).Some? && 0 < n <= |Exec(c, run).value.moves|
    ensures cut <= |run| && Exec(c, run[..cut]).Some?
    ensures var s := Exec(c, run[..cut]).value;
      s.moves == Exec(c, run).value.moves[..n] && s.streamLock == None
  {
    var before := run[..|run| - 1];
    var s := Exec(c, before).value;
    MovesGrow(c, s, run[|run| - 1]);
    if n <= |s.moves| {
      cut := MomentOf(c, before, n);
      assert before[..cut] == run[..cut];
    } else {
      cut := |run|;
      assert run[..cut] == run;
      LeaveUnlocks(c, s, run[|run| - 1]);
    }
  }

  lemma LeaveUnlocks(c: Config, s: State, a: Action)
    requires Enabled(c, s, a) && a.Leave? && c.calls[a.t].Stream()
    ensures Apply(c, s, a).streamLock == None
  {
    hide Pieces, Aligned, ClampLen, StartJob;
  }

  /** While nobody holds the stream mutex, a stream call is done or has not begun. */
  lemma UnlockedStream(c: Config, s: State, t: nat)
    requires Shape(c, s) && s.streamLock == None && t < |c.calls| && c.calls[t].Stream()
    ensures s.phases[t].Ready? || s.phases[t].Done?
  {
    assert PhaseOk(c, s, t);
    hide StartJob;
  }

  /** The calls that moved the offset took effect on the disk in the order in which they moved it. */
  lemma StreamOrder(c: Config, run: seq<Action>, k: nat, l: nat, i: nat, j: nat)
    requires c.Valid() && Exec(c, run).Some?
    requires var s := Exec(c, run).value;
      && k < l < |s.moves| && i < |s.log| && j < |s.log| && s.log[i].tid == s.moves[k].tid && s.log[j].tid == s.moves[l].tid
    ensures i < j
  {
    var r := Exec(c, run).value;
    var cut := MomentOf(c, run, k + 1);
    OffsetHistory(c, run);
    OffsetHistory(c, run[..cut]);
    ShapeAlways(c, run[..cut]);
    MovesAre(c, Exec(c, run[..cut]).value, r, k, l);
    RealTime(c, run, cut, i, j);
  }

  lemma MovesAre(c: Config, s: State, r: State, k: nat, l: nat)
    requires Chained(c, r) && Chained(c, s) && Shape(c, s) && |r.phases| == |s.phases|
    requires k < l < |r.moves| && s.moves == r.moves[..k + 1] && s.streamLock == None
    ensures r.moves[k].tid < |s.phases| && s.phases[r.moves[k].tid].Done?
    ensures r.moves[l].tid < |s.phases| && s.phases[r.moves[l].tid].Ready?
  {
    var t := r.moves[l].tid;
    hide Shape, Linked, TransfersAt, OffsetAfter;
    assert s.moves[k] == r.moves[k] && MoveOk(c, s, s.moves[k]) && MoveOk(c, r, r.moves[l]);
    UnlockedStream(c, s, t);
    NotYetMoved(r.moves, k, l);
    hide MoveOk, MovedBy;
  }

  lemma NotYetMoved(moves: seq<Move>, k: nat, l: nat)
    requires k < l < |moves| && forall i, j :: 0 <= i < j < |moves| ==> moves[i].tid != moves[j].tid
    ensures !MovedBy(moves[..k + 1], moves[l].tid)
  {
  }

  // ----- alone

  /** What a finished stream call did to the disk, delivered and returned is what `Read` or `Write`
      does alone with the stream offset at `from`. */
  ghost predicate StreamAlone(call: Call, from: nat, ph: Phase, before: seq<byte>, after: seq<byte>)
    requires (call.StreamRead? || call.StreamWrite?) && ph.Done?
  {
    if call.StreamWrite? then WritesAs(before, after, from, call.data, ph.n, ph.error)
    else after == before && forall p0: seq<byte> :: |p0| == call.len ==> ReadsAs(before, from, p0, ph.buf, ph.n, ph.error)
  }

  /** In a finished run without conflicting transfers, a stream call acts as the sequential method
      does at the offset it found: on the disk as the calls before it in the log left it. */
  lemma StreamActsAlone(c: Config, run: seq<Action>, k: nat, i: nat)
    requires c.Valid() && Exec(c, run).Some? && Isolated(c, run)
    requires forall t :: 0 <= t < |c.calls| ==> Exec(c, run).value.phases[t].Done?
    requires var s := Exec(c, run).value;
      k < |s.moves| && i < |s.log| && s.log[i].tid == s.moves[k].tid
    ensures var s := Exec(c, run).value; var m := s.moves[k];
      && m.tid < |c.calls| && (c.calls[m.tid].StreamRead? || c.calls[m.tid].StreamWrite?) && m.from >= 0
      && StreamAlone(c.calls[m.tid], m.from, s.phases[m.tid], ReplayLog(c.d0, s.log[..i]), ReplayLog(c.d0, s.log[..i + 1]))
  {
    var s := Exec(c, run).value;
    OffsetHistory(c, run);
    CallsActAlone(c, run, i);
    assert MoveOk(c, s, s.moves[k]);
    hide Exec, Isolated, Chained, ReplayLog, WritesAs, ReadsAs, ClampLen;
  }

  /** A finished stream call outside the log moved no data, and so it would alone, on any disk. */
  lemma UnloggedStreamAlone(c: Config, run: seq<Action>, k: nat, d: seq<byte>)
    requires c.Valid() && Exec(c, run).Some? && k < |Exec(c, run).value.moves| && |d| == |c.d0|
    requires var s := Exec(c, run).value; var t := s.moves[k].tid;
      t < |c.calls| && !c.calls[t].Seek? && s.phases[t].Done? && !InLog(s.log, t)
    ensures var s := Exec(c, run).value; var m := s.moves[k];
      && (c.calls[m.tid].StreamRead? || c.calls[m.tid].StreamWrite?) && m.from >= 0
      && StreamAlone(c.calls[m.tid], m.from, s.phases[m.tid], d, d)
  {
    var s := Exec(c, run).value;
    OffsetHistory(c, run);
    CountedAlways(c, run);
    var m := s.moves[k];
    assert MoveOk(c, s, m) && Counted(c, m.tid, s.phases[m.tid]);
    UnloggedActsAlone(c, run, m.tid, d);
    hide Exec, Chained, WritesAs, ReadsAs, ClampLen;
    if s.phases[m.tid].done.None? {
      RefusedStream(c.calls[m.tid], m.from, s.phases[m.tid], d);
    }
  }

  lemma RefusedStream(call: Call, from: nat, ph: Phase, d: seq<byte>)
    requires (call.StreamRead? || call.StreamWrite?) && ph.Done? && ph.done.None? && ph.buf == [] && TransfersAt(call, |d|, from, ph)
    requires call.StreamRead? ==> call.len <= 0x8000_0000
    ensures StreamAlone(call, from, ph, d, d)
  {
    if call.StreamWrite? {
      assert WriteOutcome(d, d, from, call.data, ph.n, ShortWrite);
    } else {
      if from < |d| {
        ClampExact(call.len, from, |d|);
      }
      forall p0: seq<byte> | |p0| == call.len
        ensures ReadsAs(d, from, p0, ph.buf, ph.n, ph.error)
      {
        SpliceNothing(p0, 0);
        assert ReadOutcome(d, from, p0, Splice(p0, 0, []), ph.n, EOF);
      }
    }
  }
}
