/** The shared stream offset over whole runs: how calls move it, and what consecutive reads
    deliver. */
module Stream {
  import opened Options
  import opened Bytes
  import opened Layout
  import opened DiskHandle
  import opened Protocol
  import opened Locks

  /** What a stream read or write that found the offset at `from` came to: a transfer of its data or
      its length at `from`, or, if that range is not on a disk of `size` bytes, a refusal. */
  ghost predicate TransfersAt(call: Call, size: nat, from: nat, ph: Phase)
    requires (call.StreamRead? || call.StreamWrite?) && ph.Done?
  {
    if ph.done.Some? then
      var job := ph.done.value;
      && job.off == from && job.write == call.StreamWrite?
      && (call.StreamWrite? ==> job.data == call.data && job.len == |call.data| && from + |call.data| <= size)
      && (call.StreamRead? ==> from < size && job.len == ClampLen(call.len, from, size))
    else
      && ph.n == 0 && ph.error
      && (call.StreamWrite? ==> from + |call.data| > size)
      && (call.StreamRead? ==> from >= size || ClampLen(call.len, from, size) < 0)
  }

  /** A movement of the offset by an accepted seek, or by the count its call returned for a transfer
      at the old offset. */
  ghost predicate MoveOk(c: Config, s: State, m: Move) {
    && m.tid < |c.calls| && m.tid < |s.phases| && s.phases[m.tid].Done? && m.from >= 0 && m.to >= 0
    && c.calls[m.tid].Stream()
    && var call, ph := c.calls[m.tid], s.phases[m.tid];
    if call.Seek? then
      && (call.whence == 0 ==> m.to == if call.delta >= 0 then call.delta else m.from)
      && (call.whence == 1 ==> m.to == if m.from + call.delta >= 0 then m.from + call.delta else m.from)
      && (call.whence < 0 || call.whence > 1 ==> m.to == m.from)
      && (ph.error <==>
            call.whence == 2 || (call.whence == 0 && call.delta < 0) || (call.whence == 1 && m.from + call.delta < 0))
      && m.bytes == []
    else
      m.to == m.from + ph.n && TransfersAt(call, |c.d0|, m.from, ph)
  }

  function OffsetAfter(moves: seq<Move>): int {
    if moves == [] then 0 else moves[|moves| - 1].to
  }

  /** Each movement starts where the one before ended, the first at 0. */
  ghost predicate Linked(moves: seq<Move>) {
    forall k :: 0 <= k < |moves| ==> moves[k].from == OffsetAfter(moves[..k])
  }

  ghost predicate MovedBy(moves: seq<Move>, t: nat) {
    exists k :: 0 <= k < |moves| && moves[k].tid == t
  }

  /** Each stream call that is done moved the offset exactly once. */
  ghost predicate Chained(c: Config, s: State) {
    && s.offset == OffsetAfter(s.moves)
    && Linked(s.moves)
    && (forall k :: 0 <= k < |s.moves| ==> MoveOk(c, s, s.moves[k]))
    && (forall j, k :: 0 <= j < k < |s.moves| ==> s.moves[j].tid != s.moves[k].tid)
    && (forall t :: 0 <= t < |s.phases| && t < |c.calls| && s.phases[t].Done? && c.calls[t].Stream() ==> MovedBy(s.moves, t))
  }

  lemma ChainedQuiet(c: Config, s: State, s': State, t: nat)
    requires Chained(c, s) && t < |s.phases| && |s'.phases| == |s.phases| && s'.phases == s.phases[t := s'.phases[t]]
    requires s'.offset == s.offset && s'.moves == s.moves && !s.phases[t].Done?
    requires s'.phases[t].Done? ==> t < |c.calls| && !c.calls[t].Stream()
    ensures Chained(c, s')
  {
    forall k | 0 <= k < |s'.moves| ensures MoveOk(c, s', s'.moves[k]) {
      assert MoveOk(c, s, s.moves[k]);
    }
  }

  lemma MoveOkKept(c: Config, s: State, s': State, m: Move, t: nat)
    requires t < |s.phases| && |s'.phases| == |s.phases| && s'.phases == s.phases[t := s'.phases[t]]
    requires MoveOk(c, s, m) && !s.phases[t].Done?
    ensures MoveOk(c, s', m) && m.tid != t
  {
  }

  lemma LinkedMore(moves: seq<Move>, m: Move)
    requires Linked(moves) && m.from == OffsetAfter(moves)
    ensures Linked(moves + [m]) && OffsetAfter(moves + [m]) == m.to
  {
    forall k | 0 <= k < |moves| + 1
      ensures (moves + [m])[k].from == OffsetAfter((moves + [m])[..k])
    {
      assert (moves + [m])[..k] == moves[..k];
    }
  }

  lemma MovedByMore(moves: seq<Move>, m: Move, t: nat)
    requires MovedBy(moves, t) || m.tid == t
    ensures MovedBy(moves + [m], t)
  {
    if MovedBy(moves, t) {
      var k :| 0 <= k < |moves| && moves[k].tid == t;
      assert (moves + [m])[k].tid == t;
    } else {
      assert (moves + [m])[|moves|].tid == t;
    }
  }

  lemma ChainedMoved(c: Config, s: State, s': State, m: Move)
    requires Chained(c, s) && m.tid < |s.phases| && |s'.phases| == |s.phases|
    requires s'.phases == s.phases[m.tid := s'.phases[m.tid]] && !s.phases[m.tid].Done?
    requires s'.moves == s.moves + [m] && s'.offset == m.to && m.from == s.offset && MoveOk(c, s', m)
    ensures Chained(c, s')
  {
    hide MoveOk, Linked, MovedBy, OffsetAfter;
    LinkedMore(s.moves, m);
    forall k | 0 <= k < |s.moves|
      ensures MoveOk(c, s', s.moves[k]) && s.moves[k].tid != m.tid
    {
      MoveOkKept(c, s, s', s.moves[k], m.tid);
    }
    forall t | 0 <= t < |s'.phases| && t < |c.calls| && s'.phases[t].Done? && c.calls[t].Stream()
      ensures MovedBy(s'.moves, t)
    {
      MovedByMore(s.moves, m, t);
    }
  }

  lemma OffsetKept(c: Config, s: State, a: Action)
    requires Enabled(c, s, a) && !(a.Leave? && c.calls[a.t].Stream())
    ensures Apply(c, s, a).offset == s.offset && Apply(c, s, a).moves == s.moves && !s.phases[a.t].Done?
    ensures Apply(c, s, a).phases[a.t].Done? ==> !c.calls[a.t].Stream()
  {
    hide Pieces, StartJob, Transferable, Aligned, Splice, Outgoing;
  }

  /** A stream call that leaves moves the offset as it should. */
  lemma LeaveMoves(c: Config, s: State, t: nat)
    requires c.Valid() && Shape(c, s) && Enabled(c, s, Leave(t)) && c.calls[t].Stream()
    ensures var s' := Apply(c, s, Leave(t));
      && |s'.moves| == |s.moves| + 1 && s'.moves == s.moves + [s'.moves[|s.moves|]] && !s.phases[t].Done?
      && var m := s'.moves[|s.moves|];
      m.tid == t && m.from == s.offset && m.to == s'.offset && MoveOk(c, s', m)
  {
    assert PhaseOk(c, s, t);
    hide Pieces, ClampLen, Aligned;
  }

  lemma ChainedStep(c: Config, s: State, a: Action)
    requires c.Valid() && Shape(c, s) && Chained(c, s) && Enabled(c, s, a)
    ensures Chained(c, Apply(c, s, a))
  {
    var s' := Apply(c, s, a);
    StepsAlone(c, s, a);
    if a.Leave? && c.calls[a.t].Stream() {
      LeaveMoves(c, s, a.t);
      hide Apply, Enabled, Chained, MoveOk;
      ChainedMoved(c, s, s', s'.moves[|s.moves|]);
    } else {
      OffsetKept(c, s, a);
      hide Apply, Chained, Enabled;
      ChainedQuiet(c, s, s', a.t);
    }
  }

  /** Over every run the offset is never negative, and it is what the finished stream calls made of
      it, one after the other: each read or write moved it by exactly the count it returned, each
      accepted seek to its target, and each refused seek left it. */
  lemma {:induction false} OffsetHistory(c: Config, run: seq<Action>)
    requires c.Valid() && Exec(c, run).Some?
    ensures Chained(c, Exec(c, run).value) && Exec(c, run).value.offset >= 0
  {
    ShapeAlways(c, run);
    if run != [] {
      OffsetHistory(c, run[..|run| - 1]);
      ShapeAlways(c, run[..|run| - 1]);
      ChainedStep(c, Exec(c, run[..|run| - 1]).value, run[|run| - 1]);
    }
  }

  /** The bytes of `d` between two offsets. */
  function Window(d: seq<byte>, from: int, to: int): seq<byte> {
    if 0 <= from < to <= |d| then d[from..to] else []
  }

  /** What a read has in its buffer is what the disk holds from its offset on. */
  ghost predicate HoldsSlice(d: seq<byte>, ph: Phase) {
    match ph
    case Running(job, k, _, buf, _) =>
      !job.write ==> job.off + |buf| <= |d| && buf == d[job.off..job.off + |buf|]
    case Returned(Some(job), n, buf, _) =>
      !job.write ==> job.off + |buf| <= |d| && buf == d[job.off..job.off + |buf|] && n <= |buf|
    case _ => true
  }

  /** As long as no device write has happened, reads hold slices of the start disk. */
  ghost predicate Faithful(c: Config, s: State) {
    && s.disk == c.d0
    && (forall t :: 0 <= t < |s.phases| ==> HoldsSlice(c.d0, s.phases[t]))
    && (forall k :: 0 <= k < |s.moves| && s.moves[k].tid < |c.calls| && c.calls[s.moves[k].tid].StreamRead? ==>
          Delivers(c.d0, s.moves[k]))
  }

  ghost predicate Delivers(d: seq<byte>, m: Move) {
    && 0 <= m.from <= m.to && (m.from == m.to || m.to <= |d|)
    && m.bytes == Window(d, m.from, m.to)
  }

  lemma FragsGrow(c: Config, s: State, a: Action)
    requires Enabled(c, s, a)
    ensures |s.frags| <= |Apply(c, s, a).frags|
    ensures Apply(c, s, a).frags == s.frags ==> Apply(c, s, a).disk == s.disk
  {
    hide Pieces, StartJob, Aligned, Outgoing, NextPhase;
  }

  lemma HoldsRead(d: seq<byte>, ph: Phase)
    requires ph.Running? && ph.k < |ph.job.Parts()| && RunOk(ph, |d|) && Transferable(d, ph) && HoldsSlice(d, ph)
    ensures HoldsSlice(d, NextPhase(d, ph))
  {
    FilledStep(ph.job, ph.k);
    var p := ph.job.Parts()[ph.k];
    hide Pieces;
    if !ph.job.write {
      assert d[ph.job.off..ph.job.off + p.lo] + d[ph.job.off + p.lo..ph.job.off + p.hi] == d[ph.job.off..ph.job.off + p.hi];
    }
  }

  lemma HoldsReturn(d: seq<byte>, ph: Phase)
    requires ph.Running? && ph.k <= |ph.job.Parts()| && RunOk(ph, |d|) && HoldsSlice(d, ph)
    requires ph.failed || ph.k == |ph.job.Parts()|
    ensures HoldsSlice(d, ReturnPhase(ph))
  {
    FilledStart(ph.job);
    PartLengths(ph.job.off, ph.job.len);
    hide Pieces, BodyLen;
  }

  lemma HoldsNext(c: Config, s: State, a: Action)
    requires c.Valid() && Shape(c, s) && Enabled(c, s, a) && s.disk == c.d0 && HoldsSlice(c.d0, s.phases[a.t])
    ensures HoldsSlice(c.d0, Apply(c, s, a).phases[a.t])
  {
    hide ClampLen, Shape, SeekTarget;
    var ph := s.phases[a.t];
    assert PhaseOk(c, s, a.t) by {
      PhaseOfShape(c, s, a.t);
    }
    match a {
      case Io(t, ok) =>
        if ok {
          HoldsRead(s.disk, ph);
        }
        hide Pieces, StartJob, Aligned, Splice, Outgoing, NextPhase, Transferable;
      case Return(t) =>
        HoldsReturn(s.disk, ph);
        hide Pieces, StartJob, Aligned, ReturnPhase;
      case Enter(t) =>
        if JobFor(c, s, t).Some? {
          StartedJobFits(c.calls[t], StartOffset(c.calls[t], s.offset), |s.disk|);
        }
        hide Pieces, StartJob, Aligned;
      case _ =>
        hide Pieces, StartJob, Aligned;
    }
  }

  /** A stream read that leaves delivered the window between the old and the new offset. */
  lemma LeaveDelivers(c: Config, s: State, t: nat)
    requires c.Valid() && Shape(c, s) && Enabled(c, s, Leave(t)) && c.calls[t].StreamRead?
    requires s.disk == c.d0 && HoldsSlice(c.d0, s.phases[t])
    ensures var s' := Apply(c, s, Leave(t));
      |s'.moves| == |s.moves| + 1 && Delivers(c.d0, s'.moves[|s.moves|])
  {
    var ph := s.phases[t];
    assert PhaseOk(c, s, t);
    if ph.done.Some? {
      StartedJobFits(c.calls[t], s.offset, |s.disk|);
      var job := ph.done.value;
      assert ph.buf[..ph.n] == c.d0[job.off..job.off + ph.n];
    }
    hide Pieces;
  }

  lemma FaithfulStep(c: Config, s: State, a: Action)
    requires c.Valid() && Shape(c, s) && Enabled(c, s, a) && Faithful(c, s)
    requires s.frags == [] && Apply(c, s, a).frags == []
    ensures Faithful(c, Apply(c, s, a))
  {
    var s' := Apply(c, s, a);
    FragsGrow(c, s, a);
    StepsAlone(c, s, a);
    HoldsNext(c, s, a);
    if a.Leave? && c.calls[a.t].StreamRead? {
      LeaveDelivers(c, s, a.t);
    }
    assert s'.moves == s.moves || (a.Leave? && s'.moves == s.moves + [s'.moves[|s.moves|]] && s'.moves[|s.moves|].tid == a.t) by {
      hide Pieces, StartJob, Transferable, Aligned, Splice, Outgoing, NextPhase, Faithful;
    }
    hide Apply, Enabled, HoldsSlice, Window;
  }

  lemma {:induction false} FaithfulAlways(c: Config, run: seq<Action>)
    requires c.Valid() && Exec(c, run).Some? && Exec(c, run).value.frags == []
    ensures Faithful(c, Exec(c, run).value)
  {
    if run != [] {
      var s, a := Exec(c, run[..|run| - 1]).value, run[|run| - 1];
      FragsGrow(c, s, a);
      FaithfulAlways(c, run[..|run| - 1]);
      ShapeAlways(c, run[..|run| - 1]);
      FaithfulStep(c, s, a);
    }
  }

  function Concat(moves: seq<Move>): seq<byte> {
    if moves == [] then [] else Concat(moves[..|moves| - 1]) + moves[|moves| - 1].bytes
  }

  lemma {:induction false} JoinMoves(d: seq<byte>, moves: seq<Move>, i: nat, j: nat)
    requires i <= j <= |moves| && Linked(moves)
    requires forall k :: i <= k < j ==> Delivers(d, moves[k])
    requires OffsetAfter(moves[..i]) >= 0
    ensures OffsetAfter(moves[..i]) <= OffsetAfter(moves[..j])
    ensures Concat(moves[i..j]) == Window(d, OffsetAfter(moves[..i]), OffsetAfter(moves[..j]))
    decreases j
  {
    hide *;
    if i == j {
      JoinNothing(d, moves, i);
    } else {
      JoinMoves(d, moves, i, j - 1);
      OffsetLast(moves, j);
      ConcatLast(moves, i, j);
      JoinOne(d, Concat(moves[i..j - 1]), OffsetAfter(moves[..i]), moves[j - 1]);
    }
  }

  lemma JoinOne(d: seq<byte>, joined: seq<byte>, from: int, m: Move)
    requires 0 <= from <= m.from && joined == Window(d, from, m.from) && Delivers(d, m)
    ensures from <= m.to && joined + m.bytes == Window(d, from, m.to)
  {
    hide Window;
    Rejoin(d, from, m.from, m.to);
  }

  lemma JoinNothing(d: seq<byte>, moves: seq<Move>, i: nat)
    requires i <= |moves|
    ensures Concat(moves[i..i]) == Window(d, OffsetAfter(moves[..i]), OffsetAfter(moves[..i]))
  {
    assert moves[i..i] == [];
  }

  lemma OffsetLast(moves: seq<Move>, j: nat)
    requires 0 < j <= |moves| && Linked(moves)
    ensures moves[j - 1].from == OffsetAfter(moves[..j - 1])
    ensures moves[j - 1].to == OffsetAfter(moves[..j])
  {
  }

  lemma ConcatLast(moves: seq<Move>, i: nat, j: nat)
    requires i < j <= |moves|
    ensures Concat(moves[i..j]) == Concat(moves[i..j - 1]) + moves[j - 1].bytes
  {
    var w := moves[i..j];
    assert w[..|w| - 1] == moves[i..j - 1] && w[|w| - 1] == moves[j - 1];
  }

  lemma Rejoin(d: seq<byte>, a: int, b: int, e: int)
    requires 0 <= a <= b <= e && (b == e || e <= |d|)
    ensures Window(d, a, b) + Window(d, b, e) == Window(d, a, e)
  {
  }

  /** Nothing skipped and nothing delivered twice: on a disk that no write has touched, what
      consecutive stream reads of any threads delivered is, put together, the slice of the disk
      between the offset before the first and the offset after the last, whatever the buffer sizes,
      the short counts and the failures. */
  lemma ReadsAreContiguous(c: Config, run: seq<Action>, i: nat, j: nat)
    requires c.Valid() && Exec(c, run).Some? && Exec(c, run).value.frags == []
    requires i <= j <= |Exec(c, run).value.moves|
    requires var moves := Exec(c, run).value.moves;
      forall k :: i <= k < j ==> moves[k].tid < |c.calls| && c.calls[moves[k].tid].StreamRead?
    ensures var moves := Exec(c, run).value.moves;
      && OffsetAfter(moves[..i]) <= OffsetAfter(moves[..j])
      && Concat(moves[i..j]) == Window(c.d0, OffsetAfter(moves[..i]), OffsetAfter(moves[..j]))
  {
    var s := Exec(c, run).value;
    OffsetHistory(c, run);
    FaithfulAlways(c, run);
    if i > 0 {
      assert MoveOk(c, s, s.moves[i - 1]);
    }
    hide Exec, Window, Concat, Delivers;
    JoinMoves(c.d0, s.moves, i, j);
  }
}
