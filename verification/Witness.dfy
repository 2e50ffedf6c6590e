/** The conditions of `NoLostUpdate` and `CallsAreAtomic` are needed: runs in which an aligned
    write falls into a read-modify-write, for every disk and every data. */
module Witness {
  import opened Options
  import opened Bytes
  import opened Layout
  import opened Protocol
  import opened LostUpdate
  import opened Updates
  import opened Serial

  /** A misaligned write inside one sector and an aligned write of that sector. */
  function TwoWrites(d0: seq<byte>, off: nat, p: seq<byte>, q: seq<byte>): Config {
    Config([WriteAt(off, p), WriteAt(off / SECTOR * SECTOR, q)], d0)
  }

  const SCHEDULE: seq<Action> :=
    [Enter(0), Io(0, true), Enter(1), Io(1, true), Return(1), Leave(1), Io(0, true), Return(0), Leave(0)]

  ghost predicate InOneSector(d0: seq<byte>, off: nat, p: seq<byte>, q: seq<byte>) {
    && |d0| % SECTOR == 0 && |q| == SECTOR && 0 < |p| < SECTOR
    && off % SECTOR + |p| <= SECTOR && off < |d0|
  }

  lemma ExecStep(c: Config, run: seq<Action>, s: State, a: Action)
    requires Exec(c, run) == Some(s) && Enabled(c, s, a)
    ensures Exec(c, run + [a]) == Some(Apply(c, s, a))
  {
    assert (run + [a])[..|run|] == run;
  }

  /** The parts of the two writes: one patched sector, one whole sector. */
  lemma TheirParts(d0: seq<byte>, off: nat, p: seq<byte>, q: seq<byte>)
    requires InOneSector(d0, off, p, q)
    ensures Pieces(off, |p|) == [Piece(off / SECTOR, 1, 0, |p|)]
    ensures Pieces(off / SECTOR * SECTOR, SECTOR) == [Piece(off / SECTOR, 1, 0, SECTOR)]
    ensures !Aligned(|p|, off) && Aligned(SECTOR, off / SECTOR * SECTOR)
    ensures off / SECTOR * SECTOR + SECTOR <= |d0| && off + |p| <= off / SECTOR * SECTOR + SECTOR
  {
  }

  /** A moment of the run: the disk, the two phases, and what has been recorded. */
  function At(disk: seq<byte>, p0: Phase, p1: Phase, lock: Option<nat>, log: seq<Entry>, frags: seq<Frag>): State {
    State(disk, 0, None, lock, [p0, p1], log, [0], frags, [])
  }

  function Patcher(off: nat, p: seq<byte>, k: nat, tmp: Option<seq<byte>>): Phase {
    Running(Job(true, off, |p|, p), k, tmp, [], false)
  }

  function Whole(at: nat, q: seq<byte>): Job {
    Job(true, at, SECTOR, q)
  }

  lemma Step1(c: Config, d0: seq<byte>, off: nat, p: seq<byte>, q: seq<byte>)
    requires InOneSector(d0, off, p, q) && c == TwoWrites(d0, off, p, q)
    ensures Enabled(c, c.Init(), Enter(0))
    ensures Apply(c, c.Init(), Enter(0)) == At(d0, Patcher(off, p, 0, None), Ready, Some(0), [], [])
  {
    TheirParts(d0, off, p, q);
    hide Pieces, Aligned;
  }

  lemma Step2(c: Config, d0: seq<byte>, off: nat, p: seq<byte>, q: seq<byte>, at: nat)
    requires InOneSector(d0, off, p, q) && c == TwoWrites(d0, off, p, q) && at == off / SECTOR * SECTOR && at + SECTOR <= |d0|
    ensures var s := At(d0, Patcher(off, p, 0, None), Ready, Some(0), [], []);
      Enabled(c, s, Io(0, true))
      && Apply(c, s, Io(0, true)) == At(d0, Patcher(off, p, 0, Some(d0[at..at + SECTOR])), Ready, Some(0), [], [])
  {
    TheirParts(d0, off, p, q);
    hide Pieces, Aligned;
  }

  lemma Step3(c: Config, d0: seq<byte>, off: nat, p: seq<byte>, q: seq<byte>, at: nat, ph: Phase)
    requires InOneSector(d0, off, p, q) && c == TwoWrites(d0, off, p, q) && at == off / SECTOR * SECTOR && at + SECTOR <= |d0|
    ensures var s := At(d0, ph, Ready, Some(0), [], []);
      Enabled(c, s, Enter(1))
      && Apply(c, s, Enter(1)) == At(d0, ph, Running(Whole(at, q), 0, None, [], false), Some(0), [], [])
  {
    TheirParts(d0, off, p, q);
    hide Pieces, Aligned;
  }

  lemma Step4(c: Config, d0: seq<byte>, off: nat, p: seq<byte>, q: seq<byte>, at: nat, ph: Phase)
    requires InOneSector(d0, off, p, q) && c == TwoWrites(d0, off, p, q) && at == off / SECTOR * SECTOR && at + SECTOR <= |d0|
    ensures var s := At(d0, ph, Running(Whole(at, q), 0, None, [], false), Some(0), [], []);
      Enabled(c, s, Io(1, true))
      && Apply(c, s, Io(1, true)) == At(Splice(d0, at, q), ph, Running(Whole(at, q), 1, None, [], false), Some(0),
                                        [Entry(1, true, false, at, q)], [Frag(1, 0, at, q)])
  {
    TheirParts(d0, off, p, q);
    assert at / SECTOR * SECTOR == at && q[0..SECTOR] == q;
    hide Pieces, Aligned, Splice;
  }

  lemma Step56(c: Config, d: seq<byte>, off: nat, p: seq<byte>, q: seq<byte>, at: nat, ph: Phase, log: seq<Entry>, frags: seq<Frag>)
    requires InOneSector(d, off, p, q) && |c.calls| == 2 && c.calls[1].WriteAt? && at == off / SECTOR * SECTOR
    ensures var s, r := At(d, ph, Running(Whole(at, q), 1, None, [], false), Some(0), log, frags),
                        At(d, ph, Returned(Some(Whole(at, q)), SECTOR, [], false), Some(0), log, frags);
      && Enabled(c, s, Return(1)) && Apply(c, s, Return(1)) == r
      && Enabled(c, r, Leave(1)) && Apply(c, r, Leave(1)) == At(d, ph, Done(Some(Whole(at, q)), SECTOR, [], false), Some(0), log, frags)
  {
    TheirParts(d, off, p, q);
    hide Pieces, Aligned;
  }

  lemma Step7(c: Config, d: seq<byte>, off: nat, p: seq<byte>, q: seq<byte>, at: nat, w: seq<byte>, ph: Phase, log: seq<Entry>, frags: seq<Frag>)
    requires InOneSector(d, off, p, q) && |c.calls| == 2 && at == off / SECTOR * SECTOR && at + SECTOR <= |d| && |w| == SECTOR
    ensures var s := At(d, Patcher(off, p, 0, Some(w)), ph, Some(0), log, frags);
      && Enabled(c, s, Io(0, true))
      && Apply(c, s, Io(0, true)) == At(Splice(d, at, Splice(w, off - at, p)), Patcher(off, p, 1, None), ph, Some(0), log,
                                        frags + [Frag(0, 0, off, p)])
  {
    hide Pieces, Aligned, Splice, StartJob;
    TheirParts(d, off, p, q);
    assert p[0..|p|] == p;
  }

  lemma Step89(c: Config, d: seq<byte>, off: nat, p: seq<byte>, q: seq<byte>, ph: Phase, log: seq<Entry>, frags: seq<Frag>)
    requires InOneSector(d, off, p, q) && |c.calls| == 2 && c.calls[0].WriteAt?
    ensures var s, log' := At(d, Patcher(off, p, 1, None), ph, Some(0), log, frags), log + [Entry(0, true, true, off, p)];
      var r := At(d, Returned(Some(Job(true, off, |p|, p)), |p|, [], false), ph, None, log', frags);
      && Enabled(c, s, Return(0)) && Apply(c, s, Return(0)) == r
      && Enabled(c, r, Leave(0)) && Apply(c, r, Leave(0)) == At(d, Done(Some(Job(true, off, |p|, p)), |p|, [], false), ph, None, log', frags)
  {
    TheirParts(d, off, p, q);
    assert p[..|p|] == p;
    hide Pieces, Aligned;
  }

  lemma ThreeSteps(c: Config, run: seq<Action>, s0: State, a1: Action, s1: State, a2: Action, s2: State, a3: Action, s3: State)
    requires Exec(c, run) == Some(s0)
    requires Enabled(c, s0, a1) && Apply(c, s0, a1) == s1
    requires Enabled(c, s1, a2) && Apply(c, s1, a2) == s2
    requires Enabled(c, s2, a3) && Apply(c, s2, a3) == s3
    ensures Exec(c, run + [a1, a2, a3]) == Some(s3)
  {
    hide Enabled, Apply;
    ExecStep(c, run, s0, a1);
    ExecStep(c, run + [a1], s1, a2);
    ExecStep(c, run + [a1] + [a2], s2, a3);
    assert run + [a1] + [a2] + [a3] == run + [a1, a2, a3];
  }

  lemma BothEnter(c: Config, d0: seq<byte>, off: nat, p: seq<byte>, q: seq<byte>, at: nat)
    requires InOneSector(d0, off, p, q) && c == TwoWrites(d0, off, p, q) && at == off / SECTOR * SECTOR && at + SECTOR <= |d0|
    ensures Exec(c, [] + [Enter(0), Io(0, true), Enter(1)])
      == Some(At(d0, Patcher(off, p, 0, Some(d0[at..at + SECTOR])), Running(Whole(at, q), 0, None, [], false), Some(0), [], []))
  {
    var ph0 := Patcher(off, p, 0, Some(d0[at..at + SECTOR]));
    Step1(c, d0, off, p, q);
    Step2(c, d0, off, p, q, at);
    Step3(c, d0, off, p, q, at, ph0);
    hide Enabled, Apply, Splice, Pieces, At, Patcher, Whole;
    ThreeSteps(c, [], c.Init(), Enter(0), At(d0, Patcher(off, p, 0, None), Ready, Some(0), [], []),
               Io(0, true), At(d0, ph0, Ready, Some(0), [], []),
               Enter(1), At(d0, ph0, Running(Whole(at, q), 0, None, [], false), Some(0), [], []));
  }

  lemma AlignedAcknowledged(c: Config, run: seq<Action>, d0: seq<byte>, off: nat, p: seq<byte>, q: seq<byte>, at: nat, ph: Phase)
    requires InOneSector(d0, off, p, q) && c == TwoWrites(d0, off, p, q) && at == off / SECTOR * SECTOR && at + SECTOR <= |d0|
    requires Exec(c, run) == Some(At(d0, ph, Running(Whole(at, q), 0, None, [], false), Some(0), [], []))
    ensures Exec(c, run + [Io(1, true), Return(1), Leave(1)])
      == Some(At(Splice(d0, at, q), ph, Done(Some(Whole(at, q)), SECTOR, [], false), Some(0), [Entry(1, true, false, at, q)], [Frag(1, 0, at, q)]))
  {
    var d1, log, frags := Splice(d0, at, q), [Entry(1, true, false, at, q)], [Frag(1, 0, at, q)];
    Step4(c, d0, off, p, q, at, ph);
    Step56(c, d1, off, p, q, at, ph, log, frags);
    hide Enabled, Apply, Splice, Pieces, At, Whole;
    ThreeSteps(c, run, At(d0, ph, Running(Whole(at, q), 0, None, [], false), Some(0), [], []),
               Io(1, true), At(d1, ph, Running(Whole(at, q), 1, None, [], false), Some(0), log, frags),
               Return(1), At(d1, ph, Returned(Some(Whole(at, q)), SECTOR, [], false), Some(0), log, frags),
               Leave(1), At(d1, ph, Done(Some(Whole(at, q)), SECTOR, [], false), Some(0), log, frags));
  }

  lemma PatchWrittenBack(c: Config, run: seq<Action>, d: seq<byte>, off: nat, p: seq<byte>, q: seq<byte>, at: nat, w: seq<byte>,
                         ph: Phase, log: seq<Entry>, frags: seq<Frag>)
    requires InOneSector(d, off, p, q) && |c.calls| == 2 && c.calls[0].WriteAt?
    requires at == off / SECTOR * SECTOR && at + SECTOR <= |d| && |w| == SECTOR && off + |p| <= at + SECTOR
    requires Exec(c, run) == Some(At(d, Patcher(off, p, 0, Some(w)), ph, Some(0), log, frags))
    ensures Exec(c, run + [Io(0, true), Return(0), Leave(0)])
      == Some(At(Splice(d, at, Splice(w, off - at, p)), Done(Some(Job(true, off, |p|, p)), |p|, [], false), ph, None,
                 log + [Entry(0, true, true, off, p)], frags + [Frag(0, 0, off, p)]))
  {
    var d2, log', frags' := Splice(d, at, Splice(w, off - at, p)), log + [Entry(0, true, true, off, p)], frags + [Frag(0, 0, off, p)];
    Step7(c, d, off, p, q, at, w, ph, log, frags);
    Step89(c, d2, off, p, q, ph, log, frags');
    hide Enabled, Apply, Splice, Pieces, At, Patcher;
    ThreeSteps(c, run, At(d, Patcher(off, p, 0, Some(w)), ph, Some(0), log, frags),
               Io(0, true), At(d2, Patcher(off, p, 1, None), ph, Some(0), log, frags'),
               Return(0), At(d2, Returned(Some(Job(true, off, |p|, p)), |p|, [], false), ph, None, log', frags'),
               Leave(0), At(d2, Done(Some(Job(true, off, |p|, p)), |p|, [], false), ph, None, log', frags'));
  }

  lemma ScheduleParts()
    ensures SCHEDULE == [] + [Enter(0), Io(0, true), Enter(1)] + [Io(1, true), Return(1), Leave(1)] + [Io(0, true), Return(0), Leave(0)]
  {
  }

  lemma WholeRun(c: Config, d0: seq<byte>, off: nat, p: seq<byte>, q: seq<byte>, at: nat)
    requires InOneSector(d0, off, p, q) && c == TwoWrites(d0, off, p, q)
    requires at == off / SECTOR * SECTOR && at + SECTOR <= |d0| && off + |p| <= at + SECTOR
    ensures Exec(c, SCHEDULE) == Some(At(Splice(Splice(d0, at, q), at, Splice(d0[at..at + SECTOR], off - at, p)),
                                         Done(Some(Job(true, off, |p|, p)), |p|, [], false), Done(Some(Whole(at, q)), SECTOR, [], false), None,
                                         [Entry(1, true, false, at, q)] + [Entry(0, true, true, off, p)],
                                         [Frag(1, 0, at, q)] + [Frag(0, 0, off, p)]))
  {
    ScheduleParts();
    SameSector(c, d0, Splice(d0, at, q), off, p, q);
    hide *;
    var r1, r2 := [] + [Enter(0), Io(0, true), Enter(1)], [Io(1, true), Return(1), Leave(1)];
    BothEnter(c, d0, off, p, q, at);
    AlignedAcknowledged(c, r1, d0, off, p, q, at, Patcher(off, p, 0, Some(d0[at..at + SECTOR])));
    PatchWrittenBack(c, r1 + r2, Splice(d0, at, q), off, p, q, at, d0[at..at + SECTOR], Done(Some(Whole(at, q)), SECTOR, [], false),
                     [Entry(1, true, false, at, q)], [Frag(1, 0, at, q)]);
  }

  lemma SameSector(c: Config, d0: seq<byte>, d1: seq<byte>, off: nat, p: seq<byte>, q: seq<byte>)
    requires InOneSector(d0, off, p, q) && c == TwoWrites(d0, off, p, q) && |d1| == |d0|
    ensures InOneSector(d1, off, p, q) && |c.calls| == 2 && c.calls[0].WriteAt?
  {
  }

  /** The aligned write was acknowledged after storing the whole sector, and nothing of it is left:
      the disk is the start disk with the misaligned write alone. */
  lemma LostUpdateRun(d0: seq<byte>, off: nat, p: seq<byte>, q: seq<byte>)
    requires InOneSector(d0, off, p, q)
    ensures var c := TwoWrites(d0, off, p, q);
      && Exec(c, SCHEDULE).Some?
      && var s := Exec(c, SCHEDULE).value;
      && s.phases == [Done(Some(Job(true, off, |p|, p)), |p|, [], false), Done(Some(Whole(off / SECTOR * SECTOR, q)), SECTOR, [], false)]
      && s.disk == Splice(d0, off, p)
  {
    hide Splice, Pieces, Exec, SCHEDULE;
    TheirParts(d0, off, p, q);
    var c, at := TwoWrites(d0, off, p, q), off / SECTOR * SECTOR;
    WholeRun(c, d0, off, p, q, at);
    StaleSector(d0, at, q, off - at, p);
  }

  /** Writing back the patched stale sector undoes whatever was written to it in between. */
  lemma StaleSector(d0: seq<byte>, at: nat, q: seq<byte>, x: nat, p: seq<byte>)
    requires at + |q| <= |d0| && x + |p| <= |q|
    ensures Splice(Splice(d0, at, q), at, Splice(d0[at..at + |q|], x, p)) == Splice(d0, at + x, p)
  {
    PatchWindow(d0, at, |q|, x, p);
  }

  lemma ByteBothWays(d0: seq<byte>, off: nat, p: seq<byte>, at: nat, q: seq<byte>, i: nat)
    requires at <= i < at + |q| <= |d0| && off + |p| <= |d0| && !(off <= i < off + |p|)
    ensures Splice(d0, off, p)[i] == d0[i]
    ensures Splice(Splice(d0, off, p), at, q)[i] == q[i - at]
    ensures Splice(Splice(d0, at, q), off, p)[i] == q[i - at]
  {
  }

  /** A byte that does not hold what its only writer stored gives away a disturbed run. */
  lemma BadByte(c: Config, run: seq<Action>, i: nat, t: nat)
    requires c.Valid() && Exec(c, run).Some? && i < |c.d0| && |Exec(c, run).value.disk| == |c.d0|
    requires Wrote(Exec(c, run).value, t, i) && forall u :: Wrote(Exec(c, run).value, u, i) ==> u == t
    requires Exec(c, run).value.disk[i] != ByteFrom(Exec(c, run).value, t, i)
    ensures !Undisturbed(c, run) && !Isolated(c, run)
  {
    hide Exec, Undisturbed, Isolated, ByteFrom, Wrote;
    if Isolated(c, run) {
      IsolatedUndisturbed(c, run);
    }
    if Undisturbed(c, run) {
      NoLostUpdate(c, run, i);
    }
  }

  /** So the conditions are needed: unless the aligned write brought nothing new, some byte that
      only it stored is back to its old value, and no order of the two writes explains the disk. */
  lemma ConditionsNeeded(d0: seq<byte>, off: nat, p: seq<byte>, q: seq<byte>, i: nat)
    requires InOneSector(d0, off, p, q)
    requires off / SECTOR * SECTOR <= i < off / SECTOR * SECTOR + SECTOR && i < |d0| && off + |p| <= |d0|
    requires off / SECTOR * SECTOR + SECTOR <= |d0|
    requires !(off <= i < off + |p|) && q[i - off / SECTOR * SECTOR] != d0[i]
    ensures Exec(TwoWrites(d0, off, p, q), SCHEDULE).Some?
    ensures var s := Exec(TwoWrites(d0, off, p, q), SCHEDULE).value;
      && s.disk != Splice(Splice(d0, off, p), off / SECTOR * SECTOR, q)
      && s.disk != Splice(Splice(d0, off / SECTOR * SECTOR, q), off, p)
    ensures !Undisturbed(TwoWrites(d0, off, p, q), SCHEDULE)
    ensures !Isolated(TwoWrites(d0, off, p, q), SCHEDULE)
  {
    hide Exec, SCHEDULE, Splice, Pieces, Undisturbed, Isolated;
    LostUpdateRun(d0, off, p, q);
    var c, at := TwoWrites(d0, off, p, q), off / SECTOR * SECTOR;
    var s := Exec(c, SCHEDULE).value;
    ByteBothWays(d0, off, p, at, q, i);
    assert Wrote(s, 1, i) && ByteFrom(s, 1, i) == q[i - at];
    assert forall t :: Wrote(s, t, i) ==> t == 1;
    BadByte(c, SCHEDULE, i, 1);
  }
}
