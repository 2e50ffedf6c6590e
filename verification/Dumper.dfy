/** `VadpDumper`: opening the remote and the local disk, and the clean-up that releases them. */
module Dumper {
  import opened Options
  import opened Device
  import opened Layout
  import opened Lifecycle

  datatype DumpMode = DumpBlocks | DumpBackup | DumpClone | DumpRestore

  datatype DumpError = NoError | ConnParam | Vix(code: nat)

  /** The connections and disk handles a dumper has noted down. */
  datatype Held = Held(remoteConnect: Option<nat>, remoteHandle: Option<nat>, localConnect: Option<nat>, localHandle: Option<nat>)

  // ----- acquiring

  /** What is outstanding while a disk is being opened on connection `conn` with handle `conn + 1`. */
  ghost predicate Acquiring(l0: Ledger, l: Ledger, conn: nat, events: seq<Event>) {
    && l.access == l0.access && l.breaches == l0.breaches
    && l.conns == l0.conns + (if Succeeds(events, Connect(conn)) then {conn} else {})
    && l.handles == (if Succeeds(events, OpenDli(conn + 1, conn)) then l0.handles[conn + 1 := conn] else l0.handles)
  }

  ghost predicate NextCall(events: seq<Event>, conn: nat, call: Call) {
    || (call == Connect(conn) && events == [])
    || (Succeeds(events, Connect(conn)) && call.Create? && call.on == conn)
    || (Succeeds(events, Connect(conn)) && call == OpenDli(conn + 1, conn))
    || (Succeeds(events, OpenDli(conn + 1, conn)) && call == GetInfo(conn + 1))
  }

  lemma AcquireMore(l0: Ledger, l: Ledger, conn: nat, events: seq<Event>, e: Event)
    requires Fresh(l0, conn) && Fresh(l0, conn + 1)
    requires Acquiring(l0, l, conn, events) && FirstFailure(events, VIX_OK) && NextCall(events, conn, e.call)
    ensures Acquiring(l0, Step(l, e), conn, events + [e]) && FirstFailure(events + [e], e.code)
  {
    assert (events + [e])[|events|] == e;
    assert forall x :: x in events + [e] <==> x in events || x == e;
    assert Succeeds(events + [e], Connect(conn)) <==> Succeeds(events, Connect(conn)) || e == Event(Connect(conn), VIX_OK);
    assert Succeeds(events + [e], OpenDli(conn + 1, conn)) <==>
           Succeeds(events, OpenDli(conn + 1, conn)) || e == Event(OpenDli(conn + 1, conn), VIX_OK);
  }

  /** What a dumper has noted down after the calls `events`, for the remote or the local disk. */
  function HeldAfter(h0: Held, remote: bool, conn: nat, events: seq<Event>): Held {
    var connected := Succeeds(events, Connect(conn));
    var isOpen := Succeeds(events, OpenDli(conn + 1, conn));
    if remote then
      h0.(remoteConnect := if connected then Some(conn) else h0.remoteConnect,
          remoteHandle := if isOpen then Some(conn + 1) else h0.remoteHandle)
    else
      h0.(localConnect := if connected then Some(conn) else h0.localConnect,
          localHandle := if isOpen then Some(conn + 1) else h0.localHandle)
  }

  function Note(h: Held, remote: bool, e: Event): Held {
    match e.call
    case Connect(conn) =>
      if e.code != VIX_OK then h else if remote then h.(remoteConnect := Some(conn)) else h.(localConnect := Some(conn))
    case OpenDli(dli, _) =>
      if e.code != VIX_OK then h else if remote then h.(remoteHandle := Some(dli)) else h.(localHandle := Some(dli))
    case _ => h
  }

  /** The calls made so far to open a disk. */
  datatype Progress = Progress(start: seq<Event>, l0: Ledger, h0: Held, remote: bool, conn: nat, events: seq<Event>)

  ghost predicate Outcome(p: Progress, l: Ledger, h: Held, err: nat) {
    && FirstFailure(p.events, err)
    && h == HeldAfter(p.h0, p.remote, p.conn, p.events)
    && Acquiring(p.l0, l, p.conn, p.events)
  }

  ghost predicate Opening(p: Progress, trace: seq<Event>, l: Ledger, h: Held, code: nat) {
    trace == p.start + p.events && Fresh(p.l0, p.conn) && Fresh(p.l0, p.conn + 1) && Outcome(p, l, h, code)
  }

  lemma OutcomeMore(p: Progress, l: Ledger, h: Held, e: Event)
    requires Fresh(p.l0, p.conn) && Fresh(p.l0, p.conn + 1)
    requires Outcome(p, l, h, VIX_OK) && NextCall(p.events, p.conn, e.call)
    ensures Outcome(p.(events := p.events + [e]), Step(l, e), Note(h, p.remote, e), e.code)
  {
    var events, conn := p.events, p.conn;
    AcquireMore(p.l0, l, conn, events, e);
    assert forall x :: x in events + [e] <==> x in events || x == e;
    assert Succeeds(events + [e], Connect(conn)) <==> Succeeds(events, Connect(conn)) || e == Event(Connect(conn), VIX_OK);
    assert Succeeds(events + [e], OpenDli(conn + 1, conn)) <==>
           Succeeds(events, OpenDli(conn + 1, conn)) || e == Event(OpenDli(conn + 1, conn), VIX_OK);
  }

  lemma Unlocks(events: seq<Event>, call: Call)
    requires Event(call, VIX_OK) in events
    ensures call.Connect? ==>
      forall sectors :: NextCall(events, call.conn, Create(call.conn, sectors))
    ensures call.Connect? ==> NextCall(events, call.conn, OpenDli(call.conn + 1, call.conn))
    ensures call.OpenDli? && call.dli == call.on + 1 ==> NextCall(events, call.on, GetInfo(call.dli))
  {
  }

  lemma NothingOpened(l0: Ledger, h0: Held, remote: bool, conn: nat)
    ensures Outcome(Progress([], l0, h0, remote, conn, []), l0, h0, VIX_OK) && NextCall([], conn, Connect(conn))
  {
  }

  method StartOpening(lib: Library, remote: bool, ghost h0: Held) returns (conn: nat, dli: nat, ghost p: Progress)
    requires lib.Valid()
    modifies lib`issued
    ensures lib.Valid() && conn == old(lib.issued) && dli == conn + 1 && lib.issued == dli + 1
    ensures p == Progress(lib.trace, lib.ledger, h0, remote, conn, [])
    ensures Opening(p, lib.trace, lib.ledger, h0, VIX_OK) && NextCall([], conn, Connect(conn))
  {
    conn := lib.NewId();
    dli := lib.NewId();
    p := Progress(lib.trace, lib.ledger, h0, remote, conn, []);
    NothingOpened(lib.ledger, h0, remote, conn);
  }

  /** One more call of an opening; the caller notes down what it returned. */
  method Acquire(lib: Library, call: Call, ghost p: Progress, ghost h: Held) returns (code: nat, ghost q: Progress)
    requires lib.Valid() && Named(call, lib.issued)
    requires Opening(p, lib.trace, lib.ledger, h, VIX_OK) && NextCall(p.events, p.conn, call)
    modifies lib`ledger, lib`trace
    ensures lib.Valid() && q == p.(events := p.events + [Event(call, code)])
    ensures Opening(q, lib.trace, lib.ledger, Note(h, p.remote, Event(call, code)), code)
    ensures code == VIX_OK ==> Event(call, code) in q.events
  {
    hide Outcome, Step, Fresh, AllIssued, NextCall;
    ghost var l := lib.ledger;
    code := lib.Invoke(call);
    OutcomeMore(p, l, h, Event(call, code));
    q := p.(events := p.events + [Event(call, code)]);
  }

  // ----- local disks: no roll-back

  /** The calls made are those of `calls` up to the one that failed, with `code`, or all of them. */
  ghost predicate UpTo(calls: seq<Call>, events: seq<Event>, code: nat) {
    var made := CallsOf(events);
    && made != [] && made <= calls && events[|events| - 1].code == code
    && (code == VIX_OK ==> made == calls)
  }

  lemma NoCallMade(calls: seq<Call>)
    ensures CallsOf([]) == calls[..0]
  {
  }

  lemma CallMade(calls: seq<Call>, events: seq<Event>, code: nat)
    requires |events| < |calls| && CallsOf(events) == calls[..|events|]
    ensures var more := events + [Event(calls[|events|], code)];
      && CallsOf(more) == calls[..|more|]
      && (code != VIX_OK || |more| == |calls| ==> UpTo(calls, more, code))
  {
    var more := events + [Event(calls[|events|], code)];
    assert CallsOf(more) == CallsOf(events) + [calls[|events|]];
    assert calls[..|events| + 1] == calls[..|events|] + [calls[|events|]];
  }

  ghost predicate LocalOutcome(l0: Ledger, l: Ledger, h0: Held, h: Held, conn: nat, events: seq<Event>, err: nat) {
    Outcome(Progress([], l0, h0, false, conn, events), l, h, err)
  }

  lemma Opened(p: Progress, trace: seq<Event>, l: Ledger, h: Held, code: nat)
    requires Opening(p, trace, l, h, code) && !p.remote
    ensures p.start <= trace && trace[|p.start|..] == p.events && LocalOutcome(p.l0, l, p.h0, h, p.conn, p.events, code)
  {
    assert trace[|p.start|..] == p.events;
  }

  // ----- the remote disk: rolling back

  /** What a remote open that failed leaves outstanding: what its roll-back could not release.
      Disconnecting under a handle that would not close is the one breach. */
  ghost predicate RemoteLeaves(l0: Ledger, l: Ledger, conn: nat, events: seq<Event>) {
    && l.access == l0.access
    && l.conns == l0.conns + (if Fails(events, Disconnect(conn)) then {conn} else {})
    && l.handles == (if Fails(events, CloseDli(conn + 1)) then l0.handles[conn + 1 := conn] else l0.handles)
    && l.breaches == l0.breaches + (if Fails(events, CloseDli(conn + 1)) then 1 else 0)
  }

  /** The calls of a remote open: all three, or those up to the one that failed and then the release
      calls for what that left. */
  ghost predicate RemoteCalls(conn: nat, events: seq<Event>, err: nat) {
    var calls := CallsOf(events);
    if err == VIX_OK then calls == [Connect(conn), OpenDli(conn + 1, conn), GetInfo(conn + 1)]
    else
      || (calls == [Connect(conn)] && events[0].code == err)
      || (calls == [Connect(conn), OpenDli(conn + 1, conn), Disconnect(conn)] && events[1].code == err)
      || (calls == [Connect(conn), OpenDli(conn + 1, conn), GetInfo(conn + 1), CloseDli(conn + 1), Disconnect(conn)]
          && events[2].code == err)
  }

  ghost predicate RemoteOutcome(l0: Ledger, l: Ledger, h0: Held, h: Held, conn: nat, events: seq<Event>, err: nat) {
    && FirstFailure(events, err) && RemoteCalls(conn, events, err)
    && h == HeldAfter(h0, true, conn, events)
    && (Succeeds(events, OpenDli(conn + 1, conn)) ==> Succeeds(events, Connect(conn)))
    && if err == VIX_OK then
         && Succeeds(events, OpenDli(conn + 1, conn))
         && l == l0.(conns := l0.conns + {conn}, handles := l0.handles[conn + 1 := conn])
       else
         RemoteLeaves(l0, l, conn, events)
  }

  lemma RemoteOpened(p: Progress, trace: seq<Event>, l: Ledger, h: Held)
    requires Opening(p, trace, l, h, VIX_OK) && p.remote
    requires p.events == [Event(Connect(p.conn), VIX_OK), Event(OpenDli(p.conn + 1, p.conn), VIX_OK), Event(GetInfo(p.conn + 1), VIX_OK)]
    ensures p.start <= trace && RemoteOutcome(p.l0, l, p.h0, h, p.conn, trace[|p.start|..], VIX_OK)
  {
    assert trace[|p.start|..] == p.events;
  }

  lemma RemoteNotConnected(p: Progress, trace: seq<Event>, l: Ledger, h: Held, err: nat)
    requires Opening(p, trace, l, h, err) && p.remote && err != VIX_OK
    requires p.events == [Event(Connect(p.conn), err)]
    ensures p.start <= trace && RemoteOutcome(p.l0, l, p.h0, h, p.conn, trace[|p.start|..], err)
  {
    assert trace[|p.start|..] == p.events;
  }

  lemma FailureStands(events: seq<Event>, more: seq<Event>, err: nat)
    requires FirstFailure(events, err) && err != VIX_OK
    ensures FirstFailure(events + more, err)
  {
    var k :| 0 <= k < |events| && events[k].code == err && forall j :: 0 <= j < k ==> events[j].code == VIX_OK;
    assert (events + more)[k].code == err;
  }

  lemma RemoteNotOpened(p: Progress, trace: seq<Event>, l: Ledger, h: Held, err: nat, d: nat)
    requires Opening(p, trace, l, h, err) && p.remote && err != VIX_OK
    requires p.events == [Event(Connect(p.conn), VIX_OK), Event(OpenDli(p.conn + 1, p.conn), err)]
    ensures
      var e := Event(Disconnect(p.conn), d);
      p.start <= trace && RemoteOutcome(p.l0, Step(l, e), p.h0, h, p.conn, (trace + [e])[|p.start|..], err)
  {
    var e := Event(Disconnect(p.conn), d);
    assert (trace + [e])[|p.start|..] == p.events + [e];
    FailureStands(p.events, [e], err);
    ReleasesOnly(p, [e]);
    assert p.events[0] in p.events;
    hide FirstFailure, HeldAfter;
    assert Fails([e], Disconnect(p.conn)) <==> d != VIX_OK by {
      assert e in [e];
    }
  }

  /** Release calls change neither what has been acquired nor, before them, what failed to be released. */
  lemma ReleasesOnly(p: Progress, more: seq<Event>)
    requires forall e :: e in p.events ==> !e.call.Disconnect? && !e.call.CloseDli?
    requires forall e :: e in more ==> e.call.Disconnect? || e.call.CloseDli?
    ensures HeldAfter(p.h0, p.remote, p.conn, p.events + more) == HeldAfter(p.h0, p.remote, p.conn, p.events)
    ensures forall call: Call :: call.Disconnect? || call.CloseDli? ==> (Fails(p.events + more, call) <==> Fails(more, call))
  {
    assert forall x :: x in p.events + more <==> x in p.events || x in more;
  }

  lemma RemoteNotInformed(p: Progress, trace: seq<Event>, l: Ledger, h: Held, err: nat, c: nat, d: nat)
    requires Opening(p, trace, l, h, err) && p.remote && err != VIX_OK
    requires p.events == [Event(Connect(p.conn), VIX_OK), Event(OpenDli(p.conn + 1, p.conn), VIX_OK), Event(GetInfo(p.conn + 1), err)]
    ensures
      var e, f := Event(CloseDli(p.conn + 1), c), Event(Disconnect(p.conn), d);
      p.start <= trace && RemoteOutcome(p.l0, Step(Step(l, e), f), p.h0, h, p.conn, (trace + [e] + [f])[|p.start|..], err)
  {
    hide Step, NextCall;
    var e, f := Event(CloseDli(p.conn + 1), c), Event(Disconnect(p.conn), d);
    assert (trace + [e] + [f])[|p.start|..] == p.events + [e, f];
    InformCalls(p.conn, p.events, err, c, d);
    hide RemoteCalls;
    FailureStands(p.events, [e, f], err);
    ReleasesOnly(p, [e, f]);
    assert p.events[0] in p.events && p.events[1] in p.events;
    hide FirstFailure, HeldAfter, Fails;
    FailsHere([e, f], e, 0);
    FailsHere([e, f], f, 1);
    ReleasesBoth(p.l0, l, p.conn, c, d);
  }

  lemma InformCalls(conn: nat, events: seq<Event>, err: nat, c: nat, d: nat)
    requires events == [Event(Connect(conn), VIX_OK), Event(OpenDli(conn + 1, conn), VIX_OK), Event(GetInfo(conn + 1), err)]
    requires err != VIX_OK
    ensures RemoteCalls(conn, events + [Event(CloseDli(conn + 1), c), Event(Disconnect(conn), d)], err)
  {
  }

  lemma ReleasesBoth(l0: Ledger, l: Ledger, conn: nat, c: nat, d: nat)
    requires Fresh(l0, conn) && Fresh(l0, conn + 1)
    requires l == l0.(conns := l0.conns + {conn}, handles := l0.handles[conn + 1 := conn])
    ensures Step(Step(l, Event(CloseDli(conn + 1), c)), Event(Disconnect(conn), d)) ==
      Ledger(l0.access, if d == VIX_OK then l0.conns else l.conns, if c == VIX_OK then l0.handles else l.handles,
             l0.breaches + if c == VIX_OK then 0 else 1)
  {
    assert l.handles[conn + 1] == conn;
    assert l.handles - {conn + 1} == l0.handles;
    assert l.conns - {conn} == l0.conns;
  }

  function CodeOf(err: DumpError): nat {
    if err.Vix? then err.code else VIX_OK
  }

  class VadpDumper {
    const lib: Library
    const mode: DumpMode
    var remoteParams: bool
    var localParams: bool
    var remoteConnect: Option<nat>
    var remoteHandle: Option<nat>
    var localConnect: Option<nat>
    var localHandle: Option<nat>
    var readHandle: Option<OpenDisk>
    var writeHandle: Option<OpenDisk>

    constructor (lib: Library, mode: DumpMode)
      ensures this.lib == lib && this.mode == mode && !remoteParams && !localParams
      ensures Noted() == Held(None, None, None, None) && readHandle == None && writeHandle == None
    {
      this.lib, this.mode := lib, mode;
      remoteParams, localParams := false, false;
      remoteConnect, remoteHandle, localConnect, localHandle := None, None, None, None;
      readHandle, writeHandle := None, None;
    }

    function Noted(): Held
      reads this
    {
      Held(remoteConnect, remoteHandle, localConnect, localHandle)
    }

    /** Opens the local disk for reading. */
    method ReadLocalDisk() returns (err: DumpError)
      requires lib.Valid()
      modifies this`localConnect, this`localHandle, this`readHandle, lib
      ensures lib.Valid() && old(lib.trace) <= lib.trace
      ensures err == ConnParam <==> !localParams
      ensures !localParams ==> lib.trace == old(lib.trace) && lib.ledger == old(lib.ledger) && Noted() == old(Noted())
      ensures localParams ==> LocalOutcome(old(lib.ledger), lib.ledger, old(Noted()), Noted(), old(lib.issued),
                                           lib.trace[|old(lib.trace)|..], CodeOf(err))
      ensures localParams ==> UpTo(
        [Connect(old(lib.issued)), OpenDli(old(lib.issued) + 1, old(lib.issued)), GetInfo(old(lib.issued) + 1)],
        lib.trace[|old(lib.trace)|..], CodeOf(err))
      ensures readHandle == if err == NoError then Some(OpenDisk(old(lib.issued) + 1, old(lib.issued))) else old(readHandle)
    {
      hide LocalOutcome, Opening, Outcome, Step, Fresh, AllIssued, NextCall, UpTo, CallsOf;
      if !localParams {
        return ConnParam;
      }
      ghost var h := Noted();
      var conn, dli, p := StartOpening(lib, false, h);
      ghost var calls, before := [Connect(conn), OpenDli(dli, conn), GetInfo(dli)], p.events;
      NoCallMade(calls);
      var code;
      code, p := Acquire(lib, Connect(conn), p, h);
      CallMade(calls, before, code);
      before := p.events;
      if code != VIX_OK {
        Opened(p, lib.trace, lib.ledger, h, code);
        return Vix(code);
      }
      localConnect, h := Some(conn), h.(localConnect := Some(conn));
      Unlocks(p.events, Connect(conn));
      code, p := Acquire(lib, OpenDli(dli, conn), p, h);
      CallMade(calls, before, code);
      before := p.events;
      if code != VIX_OK {
        Opened(p, lib.trace, lib.ledger, h, code);
        return Vix(code);
      }
      localHandle, h := Some(dli), h.(localHandle := Some(dli));
      Unlocks(p.events, OpenDli(dli, conn));
      code, p := Acquire(lib, GetInfo(dli), p, h);
      CallMade(calls, before, code);
      before := p.events;
      Opened(p, lib.trace, lib.ledger, h, code);
      if code != VIX_OK {
        return Vix(code);
      }
      readHandle := Some(OpenDisk(dli, conn));
      return NoError;
    }

    method CreateAndOpen(sectors: nat) returns (disk: OpenDisk, code: nat)
      requires lib.Valid()
      modifies this`localConnect, this`localHandle, lib
      ensures lib.Valid() && old(lib.trace) <= lib.trace && disk == OpenDisk(old(lib.issued) + 1, old(lib.issued))
      ensures LocalOutcome(old(lib.ledger), lib.ledger, old(Noted()), Noted(), old(lib.issued), lib.trace[|old(lib.trace)|..], code)
      ensures UpTo(
        [Connect(old(lib.issued)), Create(old(lib.issued), sectors), OpenDli(old(lib.issued) + 1, old(lib.issued)), GetInfo(old(lib.issued) + 1)],
        lib.trace[|old(lib.trace)|..], code)
      ensures code == VIX_OK ==> Event(Create(old(lib.issued), sectors), VIX_OK) in lib.trace[|old(lib.trace)|..]
    {
      hide LocalOutcome, Opening, Outcome, Step, Fresh, AllIssued, NextCall, UpTo, CallsOf;
      ghost var h := Noted();
      var conn, dli, p := StartOpening(lib, false, h);
      ghost var calls, before := [Connect(conn), Create(conn, sectors), OpenDli(dli, conn), GetInfo(dli)], p.events;
      NoCallMade(calls);
      disk := OpenDisk(dli, conn);
      code, p := Acquire(lib, Connect(conn), p, h);
      CallMade(calls, before, code);
      before := p.events;
      if code != VIX_OK {
        Opened(p, lib.trace, lib.ledger, h, code);
        return;
      }
      localConnect, h := Some(conn), h.(localConnect := Some(conn));
      Unlocks(p.events, Connect(conn));
      code, p := Acquire(lib, Create(conn, sectors), p, h);
      CallMade(calls, before, code);
      before := p.events;
      if code != VIX_OK {
        Opened(p, lib.trace, lib.ledger, h, code);
        return;
      }
      Unlocks(p.events, Connect(conn));
      code, p := Acquire(lib, OpenDli(dli, conn), p, h);
      CallMade(calls, before, code);
      before := p.events;
      if code != VIX_OK {
        Opened(p, lib.trace, lib.ledger, h, code);
        return;
      }
      localHandle, h := Some(dli), h.(localHandle := Some(dli));
      Unlocks(p.events, OpenDli(dli, conn));
      code, p := Acquire(lib, GetInfo(dli), p, h);
      CallMade(calls, before, code);
      before := p.events;
      Opened(p, lib.trace, lib.ledger, h, code);
    }

    /** Creates the local disk and opens it for writing. */
    method CreateLocalDisk(diskLen: nat) returns (err: DumpError)
      requires lib.Valid()
      modifies this`localConnect, this`localHandle, this`writeHandle, lib
      ensures lib.Valid() && old(lib.trace) <= lib.trace
      ensures err == ConnParam <==> !localParams
      ensures !localParams ==> lib.trace == old(lib.trace) && lib.ledger == old(lib.ledger) && Noted() == old(Noted())
      ensures localParams ==> LocalOutcome(old(lib.ledger), lib.ledger, old(Noted()), Noted(), old(lib.issued),
                                           lib.trace[|old(lib.trace)|..], CodeOf(err))
      ensures localParams ==> UpTo(
        [Connect(old(lib.issued)), Create(old(lib.issued), diskLen / SECTOR),
         OpenDli(old(lib.issued) + 1, old(lib.issued)), GetInfo(old(lib.issued) + 1)],
        lib.trace[|old(lib.trace)|..], CodeOf(err))
      ensures writeHandle == if err == NoError then Some(OpenDisk(old(lib.issued) + 1, old(lib.issued))) else old(writeHandle)
      ensures err == NoError ==> Event(Create(old(lib.issued), diskLen / SECTOR), VIX_OK) in lib.trace[|old(lib.trace)|..]
    {
      hide LocalOutcome, AllIssued, UpTo;
      if !localParams {
        return ConnParam;
      }
      var disk, code := CreateAndOpen(diskLen / SECTOR);
      if code != VIX_OK {
        return Vix(code);
      }
      writeHandle := Some(disk);
      return NoError;
    }

    /** Connects, opens the remote disk and reads its information; a failure rolls back, newest
        first, but what was noted down stays. */
    method ConnectRemote() returns (disk: OpenDisk, code: nat)
      requires lib.Valid()
      modifies this`remoteConnect, this`remoteHandle, lib
      ensures lib.Valid() && old(lib.trace) <= lib.trace && disk == OpenDisk(old(lib.issued) + 1, old(lib.issued))
      ensures RemoteOutcome(old(lib.ledger), lib.ledger, old(Noted()), Noted(), old(lib.issued), lib.trace[|old(lib.trace)|..], code)
    {
      hide RemoteOutcome, Opening, Outcome, Step, Fresh, AllIssued, NextCall;
      ghost var h := Noted();
      var conn, dli, p := StartOpening(lib, true, h);
      disk := OpenDisk(dli, conn);
      code, p := Acquire(lib, Connect(conn), p, h);
      if code != VIX_OK {
        RemoteNotConnected(p, lib.trace, lib.ledger, h, code);
        return;
      }
      remoteConnect, h := Some(conn), h.(remoteConnect := Some(conn));
      Unlocks(p.events, Connect(conn));
      code, p := Acquire(lib, OpenDli(dli, conn), p, h);
      ghost var trace, l := lib.trace, lib.ledger;
      if code != VIX_OK {
        var d := lib.Invoke(Disconnect(conn));
        RemoteNotOpened(p, trace, l, h, code, d);
        return;
      }
      remoteHandle, h := Some(dli), h.(remoteHandle := Some(dli));
      Unlocks(p.events, OpenDli(dli, conn));
      code, p := Acquire(lib, GetInfo(dli), p, h);
      trace, l := lib.trace, lib.ledger;
      if code != VIX_OK {
        var c := lib.Invoke(CloseDli(dli));
        var d := lib.Invoke(Disconnect(conn));
        RemoteNotInformed(p, trace, l, h, code, c, d);
        return;
      }
      RemoteOpened(p, trace, l, h);
    }

    method OpenRemoteDisk() returns (err: DumpError)
      requires lib.Valid()
      modifies this`remoteConnect, this`remoteHandle, this`readHandle, this`writeHandle, lib
      ensures lib.Valid() && old(lib.trace) <= lib.trace
      ensures err == ConnParam <==> !remoteParams
      ensures !remoteParams ==> lib.trace == old(lib.trace) && lib.ledger == old(lib.ledger) && Noted() == old(Noted())
      ensures remoteParams ==> RemoteOutcome(old(lib.ledger), lib.ledger, old(Noted()), Noted(), old(lib.issued),
                                             lib.trace[|old(lib.trace)|..], CodeOf(err))
      ensures
        var disk := if err == NoError then Some(OpenDisk(old(lib.issued) + 1, old(lib.issued))) else None;
        && readHandle == (if disk.Some? && mode != DumpRestore then disk else old(readHandle))
        && writeHandle == (if disk.Some? && mode == DumpRestore then disk else old(writeHandle))
    {
      hide RemoteOutcome, AllIssued;
      if !remoteParams {
        return ConnParam;
      }
      var disk, code := ConnectRemote();
      if code != VIX_OK {
        return Vix(code);
      }
      if mode == DumpRestore {
        writeHandle := Some(disk);
      } else {
        readHandle := Some(disk);
      }
      return NoError;
    }

    /** Tries to prepare at most ten times, ending the access after every failure. */
    method PrepareForAccess() returns (err: DumpError)
      requires lib.Valid()
      modifies lib
      ensures lib.Valid() && old(lib.trace) <= lib.trace
      ensures err == ConnParam <==> !remoteParams
      ensures !remoteParams ==> lib.trace == old(lib.trace)
      ensures remoteParams ==> Prepared(lib.trace[|old(lib.trace)|..], CodeOf(err))
    {
      hide Step, AllIssued, FailedAttempts, Prepared;
      if !remoteParams {
        return ConnParam;
      }
      ghost var start := lib.trace;
      ghost var events := [];
      NoAttempts();
      var code := VIX_OK;
      var i := 0;
      while i < 10
        invariant 0 <= i <= 10 && lib.Valid() && lib.trace == start + events
        invariant |events| == 2 * i && FailedAttempts(events)
        invariant i > 0 ==> code != VIX_OK && events[2 * i - 2].code == code
      {
        code := lib.Invoke(Call.PrepareForAccess);
        if code == VIX_OK {
          assert lib.trace[|start|..] == events + [Event(Call.PrepareForAccess, VIX_OK)];
          AttemptsThenPrepared(events);
          return NoError;
        }
        var e := lib.Invoke(Call.EndAccess);
        OneMoreAttempt(events, code, e);
        events := events + [Event(Call.PrepareForAccess, code), Event(Call.EndAccess, e)];
        i := i + 1;
      }
      assert lib.trace[|start|..] == events;
      AttemptsExhausted(events, code);
      return Vix(code);
    }

    /** Tries to end the access at most thirty times, and lets the library clean up after success. */
    method EndAccess() returns (err: DumpError)
      requires lib.Valid()
      modifies lib
      ensures lib.Valid() && old(lib.trace) <= lib.trace
      ensures err == ConnParam <==> !remoteParams
      ensures !remoteParams ==> lib.trace == old(lib.trace)
      ensures remoteParams ==> Ended(lib.trace[|old(lib.trace)|..], CodeOf(err))
    {
      hide Step, AllIssued;
      if !remoteParams {
        return ConnParam;
      }
      ghost var start := lib.trace;
      ghost var events := [];
      var code := VIX_OK;
      var i := 0;
      while i < 30
        invariant 0 <= i <= 30 && lib.Valid() && lib.trace == start + events
        invariant |events| == i && forall k :: 0 <= k < i ==> events[k].call == Call.EndAccess && events[k].code != VIX_OK
        invariant i > 0 ==> code != VIX_OK && events[i - 1].code == code
      {
        code := lib.Invoke(Call.EndAccess);
        if code == VIX_OK {
          var ignored := lib.Invoke(LibCleanup);
          assert lib.trace[|start|..] == events + [Event(Call.EndAccess, VIX_OK), Event(LibCleanup, ignored)];
          return NoError;
        }
        events := events + [Event(Call.EndAccess, code)];
        i := i + 1;
      }
      assert lib.trace[|start|..] == events;
      return Vix(code);
    }

    /** Releases all that is noted down, whatever fails, and keeps the notes. */
    method Cleanup()
      requires lib.Valid()
      modifies lib
      ensures lib.Valid() && old(lib.trace) <= lib.trace
      ensures CleanedUp(old(lib.ledger), lib.ledger, Noted(), lib.trace[|old(lib.trace)|..])
    {
      hide Step, AllIssued, CleanedUp;
      ghost var start, l0 := lib.trace, lib.ledger;
      ghost var events := ReleaseHandle(lib, remoteHandle, l0, []);
      events := ReleaseConnection(lib, remoteConnect, l0, events);
      events := ReleaseHandle(lib, localHandle, l0, events);
      events := ReleaseConnection(lib, localConnect, l0, events);
      assert lib.trace[|start|..] == events;
      CleanupCovers(l0, Noted(), events);
    }
  }

  /** Prepares that failed, each followed by one end of access. */
  ghost predicate FailedAttempts(events: seq<Event>) {
    && |events| % 2 == 0
    && forall k :: 0 <= k < |events| ==>
         if k % 2 == 0 then events[k].call == Call.PrepareForAccess && events[k].code != VIX_OK
         else events[k].call == Call.EndAccess
  }

  /** Success is a successful prepare after fewer than ten failed ones, with nothing released after
      it; failure is ten failed ones, and reports the last. */
  ghost predicate Prepared(events: seq<Event>, err: nat) {
    if err == VIX_OK then
      && 0 < |events| < 20 && events[|events| - 1] == Event(Call.PrepareForAccess, VIX_OK)
      && FailedAttempts(events[..|events| - 1])
    else
      |events| == 20 && FailedAttempts(events) && events[18].code == err
  }

  lemma NoAttempts()
    ensures FailedAttempts([])
  {
  }

  lemma OneMoreAttempt(events: seq<Event>, code: nat, e: nat)
    requires FailedAttempts(events) && code != VIX_OK
    ensures FailedAttempts(events + [Event(Call.PrepareForAccess, code), Event(Call.EndAccess, e)])
  {
  }

  lemma AttemptsExhausted(events: seq<Event>, code: nat)
    requires FailedAttempts(events) && |events| == 20 && events[18].code == code != VIX_OK
    ensures Prepared(events, code)
  {
  }

  lemma AttemptsThenPrepared(events: seq<Event>)
    requires FailedAttempts(events) && |events| < 20
    ensures Prepared(events + [Event(Call.PrepareForAccess, VIX_OK)], VIX_OK)
  {
    assert (events + [Event(Call.PrepareForAccess, VIX_OK)])[..|events|] == events;
  }

  /** Success is one successful end of access after fewer than thirty failed ones, and then the
      library's own clean-up; failure is thirty failed ones, and reports the last. */
  ghost predicate Ended(events: seq<Event>, err: nat) {
    if err == VIX_OK then
      && 2 <= |events| <= 31 && events[|events| - 2] == Event(Call.EndAccess, VIX_OK) && events[|events| - 1].call == LibCleanup
      && forall k :: 0 <= k < |events| - 2 ==> events[k].call == Call.EndAccess && events[k].code != VIX_OK
    else
      && |events| == 30 && events[29].code == err
      && forall k :: 0 <= k < 30 ==> events[k].call == Call.EndAccess && events[k].code != VIX_OK
  }

  method ReleaseHandle(lib: Library, handle: Option<nat>, ghost l0: Ledger, ghost events: seq<Event>) returns (ghost more: seq<Event>)
    requires lib.Valid() && lib.ledger == Replay(l0, events)
    modifies lib`trace, lib`ledger
    ensures lib.Valid() && lib.ledger == Replay(l0, more)
    ensures events <= more && lib.trace == old(lib.trace) + more[|events|..]
    ensures CallsOf(more) == CallsOf(events) + HandleCalls(handle)
  {
    more := events;
    if handle.Some? {
      var code := lib.Invoke(CloseDli(handle.value));
      ReplayMore(l0, events, Event(CloseDli(handle.value), code));
      more := events + [Event(CloseDli(handle.value), code)];
    }
  }

  method ReleaseConnection(lib: Library, conn: Option<nat>, ghost l0: Ledger, ghost events: seq<Event>) returns (ghost more: seq<Event>)
    requires lib.Valid() && lib.ledger == Replay(l0, events)
    modifies lib`trace, lib`ledger
    ensures lib.Valid() && lib.ledger == Replay(l0, more)
    ensures events <= more && lib.trace == old(lib.trace) + more[|events|..]
    ensures CallsOf(more) == CallsOf(events) + ConnectionCalls(conn)
  {
    more := events;
    if conn.Some? {
      var code := lib.Invoke(Disconnect(conn.value));
      ReplayMore(l0, events, Event(Disconnect(conn.value), code));
      more := events + [Event(Disconnect(conn.value), code)];
    }
  }

  // ----- cleaning up

  function HandleCalls(handle: Option<nat>): seq<Call> {
    if handle.Some? then [CloseDli(handle.value)] else []
  }

  function ConnectionCalls(conn: Option<nat>): seq<Call> {
    if conn.Some? then [Disconnect(conn.value)] else []
  }

  /** Each thing noted down is released exactly once, the remote disk first, handles before their
      connections. */
  ghost predicate CleanedUp(l0: Ledger, l: Ledger, h: Held, events: seq<Event>) {
    && l == Replay(l0, events)
    && CallsOf(events) == HandleCalls(h.remoteHandle) + ConnectionCalls(h.remoteConnect)
                          + HandleCalls(h.localHandle) + ConnectionCalls(h.localConnect)
  }

  lemma CleanupCovers(l0: Ledger, h: Held, events: seq<Event>)
    requires CallsOf(events) == CallsOf([]) + HandleCalls(h.remoteHandle) + ConnectionCalls(h.remoteConnect)
                                + HandleCalls(h.localHandle) + ConnectionCalls(h.localConnect)
    ensures CleanedUp(l0, Replay(l0, events), h, events)
  {
    assert CallsOf([]) == [];
  }

  ghost predicate AllOk(events: seq<Event>) {
    forall k :: 0 <= k < |events| ==> events[k].code == VIX_OK
  }

  function WithoutHandle(l: Ledger, handle: Option<nat>): Ledger {
    if handle.Some? then Step(l, Event(CloseDli(handle.value), VIX_OK)) else l
  }

  function WithoutConnection(l: Ledger, conn: Option<nat>): Ledger {
    if conn.Some? then Step(l, Event(Disconnect(conn.value), VIX_OK)) else l
  }

  lemma LastHandle(l: Ledger, events: seq<Event>, calls: seq<Call>, handle: Option<nat>) returns (before: seq<Event>)
    requires CallsOf(events) == calls + HandleCalls(handle) && AllOk(events)
    ensures CallsOf(before) == calls && AllOk(before) && Replay(l, events) == WithoutHandle(Replay(l, before), handle)
  {
    before := events[..|calls|];
    assert CallsOf(before) == CallsOf(events)[..|calls|];
    if handle.Some? {
      assert CallsOf(events)[|calls|] == CloseDli(handle.value);
    } else {
      assert before == events;
    }
  }

  lemma LastConnection(l: Ledger, events: seq<Event>, calls: seq<Call>, conn: Option<nat>) returns (before: seq<Event>)
    requires CallsOf(events) == calls + ConnectionCalls(conn) && AllOk(events)
    ensures CallsOf(before) == calls && AllOk(before) && Replay(l, events) == WithoutConnection(Replay(l, before), conn)
  {
    before := events[..|calls|];
    assert CallsOf(before) == CallsOf(events)[..|calls|];
    if conn.Some? {
      assert CallsOf(events)[|calls|] == Disconnect(conn.value);
    } else {
      assert before == events;
    }
  }

  function Released(l: Ledger, h: Held): Ledger {
    WithoutConnection(WithoutHandle(WithoutConnection(WithoutHandle(l, h.remoteHandle), h.remoteConnect), h.localHandle), h.localConnect)
  }

  lemma CleanupReleases(l0: Ledger, l: Ledger, h: Held, events: seq<Event>)
    requires CleanedUp(l0, l, h, events) && AllOk(events)
    ensures l == Released(l0, h)
  {
    hide Step, HandleCalls, ConnectionCalls, CallsOf, AllOk;
    var c1 := HandleCalls(h.remoteHandle);
    var c2 := c1 + ConnectionCalls(h.remoteConnect);
    var c3 := c2 + HandleCalls(h.localHandle);
    var e3 := LastConnection(l0, events, c3, h.localConnect);
    var e2 := LastHandle(l0, e3, c2, h.localHandle);
    var e1 := LastConnection(l0, e2, c1, h.remoteConnect);
    assert [] + HandleCalls(h.remoteHandle) == c1;
    var e0 := LastHandle(l0, e1, [], h.remoteHandle);
    NoCalls(e0);
  }

  lemma NoCalls(events: seq<Event>)
    requires CallsOf(events) == []
    ensures events == []
  {
    assert |CallsOf(events)| == |events|;
  }

  function Ids(o: Option<nat>): set<nat> {
    if o.Some? then {o.value} else {}
  }

  /** What is outstanding is `l0` and exactly what is noted down. */
  ghost predicate Tracks(l0: Ledger, l: Ledger, h: Held) {
    var conns := Ids(h.remoteConnect) + Ids(h.localConnect);
    var handles := Ids(h.remoteHandle) + Ids(h.localHandle);
    && l.access == l0.access && l.breaches == l0.breaches
    && l.conns == l0.conns + conns && conns !! l0.conns && Ids(h.remoteConnect) !! Ids(h.localConnect)
    && l.handles.Keys == l0.handles.Keys + handles && handles !! l0.handles.Keys && Ids(h.remoteHandle) !! Ids(h.localHandle)
    && (forall k :: k in l0.handles ==> l.handles[k] == l0.handles[k] && l0.handles[k] !in conns)
    && (h.remoteConnect.Some? && h.localHandle.Some? ==> l.handles[h.localHandle.value] != h.remoteConnect.value)
  }

  lemma HandleGoes(l: Ledger, o: Option<nat>)
    ensures WithoutHandle(l, o) ==
      Ledger(l.access, l.conns, l.handles - Ids(o), l.breaches + if Ids(o) <= l.handles.Keys then 0 else 1)
  {
    if o.None? {
      assert l.handles - {} == l.handles;
    }
  }

  predicate InUse(l: Ledger, conns: set<nat>) {
    exists h :: h in l.handles && l.handles[h] in conns
  }

  lemma ConnectionGoes(l: Ledger, o: Option<nat>)
    ensures WithoutConnection(l, o) ==
      Ledger(l.access, l.conns - Ids(o), l.handles, l.breaches + if Ids(o) <= l.conns && !InUse(l, Ids(o)) then 0 else 1)
  {
    if o.Some? {
      assert o.value in l.handles.Values <==> InUse(l, Ids(o));
    }
  }

  /** Releasing what is noted down brings back `l0`, without a breach, exactly when what is noted
      down is what is outstanding. */
  lemma ReleasedExact(l0: Ledger, l: Ledger, h: Held)
    requires l0.breaches <= l.breaches
    ensures Released(l, h) == l0 <==> Tracks(l0, l, h)
  {
    hide WithoutHandle, WithoutConnection;
    HandleGoes(l, h.remoteHandle);
    var l1 := WithoutHandle(l, h.remoteHandle);
    ConnectionGoes(l1, h.remoteConnect);
    var l2 := WithoutConnection(l1, h.remoteConnect);
    HandleGoes(l2, h.localHandle);
    var l3 := WithoutHandle(l2, h.localHandle);
    ConnectionGoes(l3, h.localConnect);
    var l4 := WithoutConnection(l3, h.localConnect);
    if l4 == l0 {
      ReleasedTracks(l0, l, h, l1.handles, l3.handles);
    }
    if Tracks(l0, l, h) {
      TracksReleases(l0, l, h, l1.handles, l3.handles);
    }
  }

  lemma ReleasedTracks(l0: Ledger, l: Ledger, h: Held, m1: map<nat, nat>, m3: map<nat, nat>)
    requires m1 == l.handles - Ids(h.remoteHandle) && m3 == m1 - Ids(h.localHandle) && m3 == l0.handles
    requires l.access == l0.access && l.breaches == l0.breaches
    requires Ids(h.remoteHandle) <= l.handles.Keys && Ids(h.localHandle) <= m1.Keys
    requires Ids(h.remoteConnect) <= l.conns && Ids(h.localConnect) <= l.conns - Ids(h.remoteConnect)
    requires l0.conns == l.conns - Ids(h.remoteConnect) - Ids(h.localConnect)
    requires forall k :: k in m1 ==> m1[k] !in Ids(h.remoteConnect)
    requires forall k :: k in m3 ==> m3[k] !in Ids(h.localConnect)
    ensures Tracks(l0, l, h)
  {
  }

  lemma TracksReleases(l0: Ledger, l: Ledger, h: Held, m1: map<nat, nat>, m3: map<nat, nat>)
    requires m1 == l.handles - Ids(h.remoteHandle) && m3 == m1 - Ids(h.localHandle)
    requires Tracks(l0, l, h)
    ensures m3 == l0.handles
    ensures Ids(h.remoteHandle) <= l.handles.Keys && Ids(h.localHandle) <= m1.Keys
    ensures Ids(h.remoteConnect) <= l.conns && Ids(h.localConnect) <= l.conns - Ids(h.remoteConnect)
    ensures l0.conns == l.conns - Ids(h.remoteConnect) - Ids(h.localConnect)
    ensures forall k :: k in m1 ==> m1[k] !in Ids(h.remoteConnect)
    ensures forall k :: k in m3 ==> m3[k] !in Ids(h.localConnect)
  {
  }

  /** After a successful clean-up the library is back at `l0` exactly when the notes were accurate. */
  lemma CleanupExact(l0: Ledger, l: Ledger, l1: Ledger, h: Held, events: seq<Event>)
    requires l0.breaches <= l.breaches && CleanedUp(l, l1, h, events) && AllOk(events)
    ensures l1 == l0 <==> Tracks(l0, l, h)
  {
    CleanupReleases(l, l1, h, events);
    ReleasedExact(l0, l, h);
  }

  // ----- which opens leave accurate notes

  /** A local open with no local disk noted down neither spoils nor mends the notes, whatever fails in
      it. With one noted down, it keeps accurate notes accurate exactly when it overwrites none. */
  lemma LocalKeepsTrack(l0: Ledger, l: Ledger, l1: Ledger, h: Held, h1: Held, conn: nat, events: seq<Event>, err: nat)
    requires Fresh(l, conn) && Fresh(l, conn + 1)
    requires h.remoteConnect != Some(conn) && h.remoteHandle != Some(conn + 1)
    requires LocalOutcome(l, l1, h, h1, conn, events, err)
    ensures h.localConnect == h.localHandle == None ==> (Tracks(l0, l, h) <==> Tracks(l0, l1, h1))
    ensures Tracks(l0, l, h) ==> (Tracks(l0, l1, h1) <==> !Overwrites(h, conn, events))
  {
    hide FirstFailure, Succeeds, LocalOutcome;
    if !Overwrites(h, conn, events) {
      NewNotesTrack(l0, l, l1, h, h1, conn, events, err);
    } else if Tracks(l0, l, h) {
      OverwrittenIsLost(l0, l, l1, h, h1, conn, events, err);
    }
  }

  lemma NewNotesTrack(l0: Ledger, l: Ledger, l1: Ledger, h: Held, h1: Held, conn: nat, events: seq<Event>, err: nat)
    requires Fresh(l, conn) && Fresh(l, conn + 1)
    requires h.remoteConnect != Some(conn) && h.remoteHandle != Some(conn + 1)
    requires LocalOutcome(l, l1, h, h1, conn, events, err) && !Overwrites(h, conn, events)
    ensures Tracks(l0, l, h) ==> Tracks(l0, l1, h1)
    ensures h.localConnect == h.localHandle == None && Tracks(l0, l1, h1) ==> Tracks(l0, l, h)
  {
    hide FirstFailure, Succeeds;
    assert forall k :: k in l.handles ==> l.handles[k] in l.handles.Values && l.handles[k] != conn;
    if Succeeds(events, OpenDli(conn + 1, conn)) {
      assert l1.handles[conn + 1] == conn;
    }
  }

  /** A note of the local disk gives way to a new one. */
  predicate Overwrites(h: Held, conn: nat, events: seq<Event>) {
    || (h.localConnect.Some? && Succeeds(events, Connect(conn)))
    || (h.localHandle.Some? && Succeeds(events, OpenDli(conn + 1, conn)))
  }

  lemma OverwrittenIsLost(l0: Ledger, l: Ledger, l1: Ledger, h: Held, h1: Held, conn: nat, events: seq<Event>, err: nat)
    requires Fresh(l, conn) && Fresh(l, conn + 1) && LocalOutcome(l, l1, h, h1, conn, events, err)
    requires Tracks(l0, l, h) && Overwrites(h, conn, events)
    ensures !Tracks(l0, l1, h1)
  {
    hide FirstFailure, Succeeds;
    if h.localConnect.Some? && Succeeds(events, Connect(conn)) {
      assert h.localConnect.value in l1.conns && h.localConnect.value !in l0.conns;
    } else {
      assert h.localHandle.value in l1.handles && h.localHandle.value !in l0.handles;
    }
  }

  /** A remote open keeps accurate notes accurate, its roll-back calls succeeding, exactly when it
      succeeded with no remote disk noted down or did not even connect: a roll-back does not take
      back the notes, and a success overwrites them. */
  lemma RemoteKeepsTrack(l0: Ledger, l: Ledger, l1: Ledger, h: Held, h1: Held, conn: nat, events: seq<Event>, err: nat)
    requires Fresh(l, conn) && Fresh(l, conn + 1)
    requires RemoteOutcome(l, l1, h, h1, conn, events, err) && Tracks(l0, l, h)
    requires !Fails(events, Disconnect(conn)) && !Fails(events, CloseDli(conn + 1))
    ensures Tracks(l0, l1, h1) <==>
      if err == VIX_OK then h.remoteConnect == h.remoteHandle == None else !Succeeds(events, Connect(conn))
  {
    hide FirstFailure, Succeeds, Fails;
    assert conn !in l.conns && forall k :: k in l.handles ==> l.handles[k] in l.handles.Values && l.handles[k] != conn;
    if err != VIX_OK && Succeeds(events, Connect(conn)) {
      assert h1.remoteConnect == Some(conn) && conn !in l1.conns;
    } else if err == VIX_OK && h.remoteConnect.Some? {
      assert h.remoteConnect.value in l1.conns && h.remoteConnect.value !in l0.conns;
    } else if err == VIX_OK && h.remoteHandle.Some? {
      assert h.remoteHandle.value in l1.handles && h.remoteHandle.value !in l0.handles;
    }
  }

  /** A remote open, a local open and a clean-up, starting with nothing noted down: with the release
      calls succeeding, the library is back where it was exactly when the remote open did not fail
      after connecting. */
  lemma SessionExact(l0: Ledger, l1: Ledger, l2: Ledger, l3: Ledger, h1: Held, h2: Held, conn1: nat, conn2: nat,
                     opening: seq<Event>, err: nat, local: seq<Event>, localErr: nat, cleanup: seq<Event>)
    requires Fresh(l0, conn1) && Fresh(l0, conn1 + 1) && Fresh(l1, conn2) && Fresh(l1, conn2 + 1) && conn2 > conn1 + 1
    requires RemoteOutcome(l0, l1, Held(None, None, None, None), h1, conn1, opening, err)
    requires !Fails(opening, Disconnect(conn1)) && !Fails(opening, CloseDli(conn1 + 1))
    requires LocalOutcome(l1, l2, h1, h2, conn2, local, localErr)
    requires CleanedUp(l2, l3, h2, cleanup) && AllOk(cleanup)
    ensures l3 == l0 <==> err == VIX_OK || !Succeeds(opening, Connect(conn1))
  {
    hide FirstFailure, Succeeds, Fails, CleanedUp;
    var h0 := Held(None, None, None, None);
    assert Tracks(l0, l0, h0);
    RemoteKeepsTrack(l0, l0, l1, h0, h1, conn1, opening, err);
    LocalKeepsTrack(l0, l1, l2, h1, h2, conn2, local, localErr);
    CleanupExact(l0, l2, l3, h2, cleanup);
  }
}
