/** Which calls the device writes of a run belong to, and what undisturbed runs leave on the
    disk, stated per byte and per call. */
module Updates {
  import opened Options
  import opened Bytes
  import opened Layout
  import opened DiskHandle
  import opened Protocol
  import opened Locks
  import opened LostUpdate

  /** The write a thread has begun or finished, if its call is one. */
  function WriteOf(ph: Phase): Option<Job> {
    match ph
    case Running(job, _, _, _, _) => if job.write then Some(job) else None
    case Returned(Some(job), _, _, _) => if job.write then Some(job) else None
    case Done(Some(job), _, _, _) => if job.write then Some(job) else None
    case _ => None
  }

  /** How much of its data a write has stored so far: the count it returns in the end. */
  function Stored(ph: Phase): nat {
    match ph
    case Running(job, k, _, _, _) => if k <= |job.Parts()| then job.Filled(k) else 0
    case Returned(_, n, _, _) => n
    case Done(_, n, _, _) => n
    case _ => 0
  }

  /** Thread `t` has stored byte `i` of the disk. */
  predicate Wrote(s: State, t: nat, i: nat) {
    && t < |s.phases| && WriteOf(s.phases[t]).Some?
    && var job := WriteOf(s.phases[t]).value;
    job.off <= i < job.off + Stored(s.phases[t]) && i - job.off < |job.data|
  }

  function ByteFrom(s: State, t: nat, i: nat): byte
    requires Wrote(s, t, i)
  {
    var job := WriteOf(s.phases[t]).value;
    job.data[i - job.off]
  }

  /** A device write carries a part of its thread's data to the place where that part belongs. */
  ghost predicate FragOk(s: State, f: Frag) {
    && f.tid < |s.phases| && WriteOf(s.phases[f.tid]).Some?
    && var job := WriteOf(s.phases[f.tid]).value;
    && f.off == job.off + f.lo
    && f.lo + |f.bytes| <= Stored(s.phases[f.tid]) <= |job.data|
    && f.off + |f.bytes| <= |s.disk|
    && f.bytes == job.data[f.lo..f.lo + |f.bytes|]
  }

  ghost predicate Delivered(frags: seq<Frag>, t: nat, i: nat) {
    exists j :: 0 <= j < |frags| && frags[j].tid == t && Hits(frags[j], i)
  }

  /** Every device write belongs to a call, and every byte a call has stored went out in one. */
  ghost predicate Accounted(s: State) {
    && (forall j :: 0 <= j < |s.frags| ==> FragOk(s, s.frags[j]))
    && (forall t, i :: 0 <= t < |s.phases| && Wrote(s, t, i) ==> Delivered(s.frags, t, i))
    && (forall t :: 0 <= t < |s.phases| && WriteOf(s.phases[t]).Some? ==> Stored(s.phases[t]) <= |WriteOf(s.phases[t]).value.data|)
  }

  /** A step that is not a successful device write neither stores nor forgets anything. */
  lemma StoresNothing(c: Config, s: State, a: Action)
    requires Shape(c, s) && Enabled(c, s, a)
    requires !(a.Io? && a.ok && s.phases[a.t].job.write && !Fetches(s.phases[a.t]))
    ensures Apply(c, s, a).frags == s.frags && |Apply(c, s, a).disk| == |s.disk|
    ensures WriteOf(s.phases[a.t]).Some? ==>
      WriteOf(Apply(c, s, a).phases[a.t]) == WriteOf(s.phases[a.t])
      && Stored(Apply(c, s, a).phases[a.t]) == Stored(s.phases[a.t])
    ensures WriteOf(s.phases[a.t]).None? && WriteOf(Apply(c, s, a).phases[a.t]).Some? ==>
      Stored(Apply(c, s, a).phases[a.t]) == 0
  {
    hide Pieces, Aligned, ClampLen, StartJob, Transferable;
    assert PhaseOk(c, s, a.t);
    if a.Enter? && JobFor(c, s, a.t).Some? {
      FilledStart(JobFor(c, s, a.t).value);
    }
  }

  lemma AccountedQuiet(c: Config, s: State, a: Action)
    requires c.Valid() && Shape(c, s) && Enabled(c, s, a) && Accounted(s)
    requires !(a.Io? && a.ok && s.phases[a.t].job.write && !Fetches(s.phases[a.t]))
    ensures Accounted(Apply(c, s, a))
  {
    var s' := Apply(c, s, a);
    StoresNothing(c, s, a);
    StepsAlone(c, s, a);
    hide Apply, Enabled, WriteOf, Stored, Hits;
    forall j | 0 <= j < |s'.frags| ensures FragOk(s', s'.frags[j]) {
      assert FragOk(s, s.frags[j]);
    }
    forall t, i | 0 <= t < |s'.phases| && Wrote(s', t, i) ensures Delivered(s'.frags, t, i) {
      assert Wrote(s, t, i);
    }
  }

  /** One more device write is appended, and the thread has stored that much more. */
  lemma AccountedMore(s: State, s': State, t: nat, f: Frag)
    requires Accounted(s) && t < |s.phases| && |s'.phases| == |s.phases| && s'.phases == s.phases[t := s'.phases[t]]
    requires s'.frags == s.frags + [f] && |s'.disk| == |s.disk| && f.tid == t && FragOk(s', f)
    requires WriteOf(s.phases[t]) == WriteOf(s'.phases[t])
    requires f.lo == Stored(s.phases[t]) && f.lo + |f.bytes| == Stored(s'.phases[t])
    ensures Accounted(s')
  {
    hide WriteOf, Stored;
    forall j | 0 <= j < |s'.frags| ensures FragOk(s', s'.frags[j]) {
      if j < |s.frags| {
        assert FragOk(s, s.frags[j]);
      }
    }
    forall u, i | 0 <= u < |s'.phases| && Wrote(s', u, i) ensures Delivered(s'.frags, u, i) {
      if Wrote(s, u, i) {
        var j :| 0 <= j < |s.frags| && s.frags[j].tid == u && Hits(s.frags[j], i);
        assert s'.frags[j] == s.frags[j];
      } else {
        assert s'.frags[|s.frags|] == f && Hits(f, i);
      }
    }
  }

  lemma AccountedWrite(c: Config, s: State, t: nat)
    requires c.Valid() && Shape(c, s) && Enabled(c, s, Io(t, true)) && Accounted(s)
    requires s.phases[t].job.write && !Fetches(s.phases[t])
    ensures Accounted(ApplyIo(s, t))
  {
    hide Pieces, Splice, Outgoing, Hits, Aligned;
    var s', ph := ApplyIo(s, t), s.phases[t];
    var p := ph.job.Parts()[ph.k];
    var f := Frag(t, p.lo, ph.job.off + p.lo, ph.job.data[p.lo..p.hi]);
    assert PhaseOk(c, s, t);
    FilledStep(ph.job, ph.k);
    IoMoves(s, t);
    assert s'.phases == s.phases[t := ph.(k := ph.k + 1, tmp := None)];
    AccountedMore(s, s', t, f);
  }

  lemma {:induction false} AccountedAlways(c: Config, run: seq<Action>)
    requires c.Valid() && Exec(c, run).Some?
    ensures Accounted(Exec(c, run).value)
  {
    if run != [] {
      var s, a := Exec(c, run[..|run| - 1]).value, run[|run| - 1];
      AccountedAlways(c, run[..|run| - 1]);
      ShapeAlways(c, run[..|run| - 1]);
      if a.Io? && a.ok && s.phases[a.t].job.write && !Fetches(s.phases[a.t]) {
        AccountedWrite(c, s, a.t);
      } else {
        AccountedQuiet(c, s, a);
      }
    }
  }

  lemma HitIsWrite(s: State, f: Frag, i: nat)
    requires FragOk(s, f) && Hits(f, i)
    ensures Wrote(s, f.tid, i) && ByteFrom(s, f.tid, i) == f.bytes[i - f.off]
  {
  }

  lemma HitsAreWrites(s: State, i: nat)
    requires Accounted(s)
    ensures forall j :: 0 <= j < |s.frags| ==> s.frags[j].off + |s.frags[j].bytes| <= |s.disk|
    ensures forall j :: 0 <= j < |s.frags| && Hits(s.frags[j], i) ==>
      Wrote(s, s.frags[j].tid, i) && ByteFrom(s, s.frags[j].tid, i) == s.frags[j].bytes[i - s.frags[j].off]
  {
    assert forall j :: 0 <= j < |s.frags| ==> FragOk(s, s.frags[j]);
    forall j | 0 <= j < |s.frags| && Hits(s.frags[j], i)
      ensures Wrote(s, s.frags[j].tid, i) && ByteFrom(s, s.frags[j].tid, i) == s.frags[j].bytes[i - s.frags[j].off]
    {
      HitIsWrite(s, s.frags[j], i);
    }
  }

  lemma FirstHit(s: State, i: nat, t: nat) returns (hit: nat)
    requires Accounted(s) && Wrote(s, t, i)
    ensures hit < |s.frags| && Hits(s.frags[hit], i)
  {
    assert Delivered(s.frags, t, i);
    hide Accounted, Wrote, Hits;
    hit :| 0 <= hit < |s.frags| && s.frags[hit].tid == t && Hits(s.frags[hit], i);
  }

  lemma StoredByte(s: State, d0: seq<byte>, i: nat, t: nat)
    requires Accounted(s) && |s.disk| == |d0| && s.disk == Replay(d0, s.frags) && i < |d0| && Wrote(s, t, i)
    ensures exists t :: Wrote(s, t, i) && s.disk[i] == ByteFrom(s, t, i)
  {
    HitsAreWrites(s, i);
    hide *;
    var hit := FirstHit(s, i, t);
    var frags := s.frags;
    var j := LastHit(d0, frags, i, hit);
    assert s.disk[i] == ByteFrom(s, frags[j].tid, i);
  }

  lemma ByteOrigin(s: State, d0: seq<byte>, i: nat)
    requires Accounted(s) && |s.disk| == |d0| && s.disk == Replay(d0, s.frags) && i < |d0|
    ensures (forall t :: !Wrote(s, t, i)) ==> s.disk[i] == d0[i]
    ensures (exists t :: Wrote(s, t, i)) ==> exists t :: Wrote(s, t, i) && s.disk[i] == ByteFrom(s, t, i)
  {
    HitsAreWrites(s, i);
    hide FragOk, Wrote, ByteFrom, Replay, Accounted, Hits, Delivered;
    if t :| Wrote(s, t, i) {
      StoredByte(s, d0, i, t);
    } else {
      NeverHit(d0, s.frags, i);
    }
  }

  /** No lost update. Whatever the calls, the interleaving and the failures: if no aligned write
      covers a sector while another thread is between reading and writing it back, then at every
      moment a byte that no call has stored is as it was at the start, and a byte that some call
      has stored holds what one of the calls that stored it put there. */
  lemma NoLostUpdate(c: Config, run: seq<Action>, i: nat)
    requires c.Valid() && Exec(c, run).Some? && Undisturbed(c, run)
    requires i < |c.d0|
    ensures var s := Exec(c, run).value;
      && |s.disk| == |c.d0|
      && ((forall t :: !Wrote(s, t, i)) ==> s.disk[i] == c.d0[i])
      && ((exists t :: Wrote(s, t, i)) ==> exists t :: Wrote(s, t, i) && s.disk[i] == ByteFrom(s, t, i))
  {
    var s := Exec(c, run).value;
    ShapeAlways(c, run);
    AccountedAlways(c, run);
    DiskIsReplay(c, run);
    ByteOrigin(s, c.d0, i);
  }
}
