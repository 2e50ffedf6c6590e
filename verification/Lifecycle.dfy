/** Acquiring and releasing what the disk library hands out: VM access, connections, disk handles. */
module Lifecycle {
  import opened Device
  import opened Options

  datatype Call =
    | PrepareForAccess
    | EndAccess
    | LibCleanup
    | Connect(conn: nat)
    | Disconnect(conn: nat)
    | Create(on: nat, sectors: nat)
    | OpenDli(dli: nat, on: nat)
    | GetInfo(dli: nat)
    | CloseDli(dli: nat)

  datatype Event = Event(call: Call, code: nat)

  /** What is outstanding: accesses granted minus ended, live connections, open handles with the
      connection each was opened on; and how many calls so far named something that was not live,
      or disconnected under an open handle. */
  datatype Ledger = Ledger(access: int, conns: set<nat>, handles: map<nat, nat>, breaches: nat)

  predicate Breach(l: Ledger, call: Call) {
    match call
    case Disconnect(conn) => conn !in l.conns || conn in l.handles.Values
    case Create(on, _) => on !in l.conns
    case OpenDli(_, on) => on !in l.conns
    case GetInfo(dli) => dli !in l.handles
    case CloseDli(dli) => dli !in l.handles
    case _ => false
  }

  function Effect(l: Ledger, call: Call): Ledger {
    match call
    case PrepareForAccess => l.(access := l.access + 1)
    case EndAccess => l.(access := l.access - 1)
    case Connect(conn) => l.(conns := l.conns + {conn})
    case Disconnect(conn) => l.(conns := l.conns - {conn})
    case OpenDli(dli, on) => l.(handles := l.handles[dli := on])
    case CloseDli(dli) => l.(handles := l.handles - {dli})
    case _ => l
  }

  /** A call that fails changes nothing that is outstanding. */
  function Step(l: Ledger, e: Event): Ledger {
    var counted := l.(breaches := l.breaches + if Breach(l, e.call) then 1 else 0);
    if e.code == VIX_OK then Effect(counted, e.call) else counted
  }

  predicate Fresh(l: Ledger, id: nat) {
    id !in l.conns && id !in l.handles && id !in l.handles.Values
  }

  /** No live connection or handle has an identity from `issued` on. */
  ghost predicate AllIssued(l: Ledger, issued: nat) {
    forall id :: id >= issued ==> Fresh(l, id)
  }

  predicate Named(call: Call, issued: nat) {
    && (call.Connect? ==> call.conn < issued)
    && (call.OpenDli? ==> call.dli < issued && call.on < issued)
  }

  lemma StepKeepsIssued(l: Ledger, e: Event, issued: nat)
    requires AllIssued(l, issued) && Named(e.call, issued)
    ensures AllIssued(Step(l, e), issued)
  {
    forall id | id >= issued
      ensures Fresh(Step(l, e), id)
    {
      assert Fresh(l, id);
    }
  }

  /** The disk library, as a ledger; any call may fail. */
  class Library {
    var issued: nat
    ghost var ledger: Ledger
    ghost var trace: seq<Event>

    ghost predicate Valid()
      reads this
    {
      AllIssued(ledger, issued)
    }

    constructor ()
      ensures Valid() && ledger == Ledger(0, {}, map[], 0) && trace == []
    {
      issued := 0;
      ledger := Ledger(0, {}, map[], 0);
      trace := [];
    }

    method NewId() returns (id: nat)
      requires Valid()
      modifies this`issued
      ensures Valid() && id == old(issued) && issued == id + 1 && Fresh(ledger, id)
    {
      id := issued;
      issued := issued + 1;
    }

    method Invoke(call: Call) returns (code: nat)
      requires Valid() && Named(call, issued)
      modifies this`ledger, this`trace
      ensures Valid() && trace == old(trace) + [Event(call, code)]
      ensures ledger == Step(old(ledger), Event(call, code))
    {
      code := VIX_OK;
      if * {
        code := 1;
      }
      StepKeepsIssued(ledger, Event(call, code), issued);
      trace := trace + [Event(call, code)];
      ledger := Step(ledger, Event(call, code));
    }
  }

  predicate Fails(events: seq<Event>, call: Call) {
    exists e :: e in events && e.call == call && e.code != VIX_OK
  }

  /** `err` is the code of the first call that failed, if any did. */
  ghost predicate FirstFailure(events: seq<Event>, err: nat) {
    if err == VIX_OK then
      forall k :: 0 <= k < |events| ==> events[k].code == VIX_OK
    else
      exists k :: 0 <= k < |events| && events[k].code == err && forall j :: 0 <= j < k ==> events[j].code == VIX_OK
  }

  function CallsOf(events: seq<Event>): seq<Call> {
    seq(|events|, k requires 0 <= k < |events| => events[k].call)
  }

  function Replay(l: Ledger, events: seq<Event>): Ledger {
    if events == [] then l else Step(Replay(l, events[..|events| - 1]), events[|events| - 1])
  }

  lemma ReplayMore(l: Ledger, events: seq<Event>, e: Event)
    ensures Replay(l, events + [e]) == Step(Replay(l, events), e)
  {
    assert (events + [e])[..|events|] == events;
  }

  // ----- the high-level Open and Close

  datatype OpenDisk = OpenDisk(dli: nat, conn: nat)

  function WithDisk(l: Ledger, disk: OpenDisk): Ledger {
    Ledger(l.access + 1, l.conns + {disk.conn}, l.handles[disk.dli := disk.conn], l.breaches)
  }

  /** What a failed `Open` leaves behind: whatever a release call failed to give back, and the disk
      handle when reading the disk's information failed. */
  ghost predicate OpenLeaves(l0: Ledger, l: Ledger, conn: nat, dli: nat, events: seq<Event>) {
    && l.access == l0.access + (if Fails(events, EndAccess) then 1 else 0)
    && l.conns == l0.conns + (if Fails(events, Disconnect(conn)) then {conn} else {})
    && l.handles == (if Fails(events, GetInfo(dli)) then l0.handles[dli := conn] else l0.handles)
    && l.breaches == l0.breaches + (if Fails(events, GetInfo(dli)) then 1 else 0)
  }

  /** The calls of an `Open`: all four of acquiring a disk, or those up to the one that failed and
      then the release calls for what that left. */
  ghost predicate OpenCalls(id: nat, events: seq<Event>, err: nat) {
    var calls := CallsOf(events);
    if err == VIX_OK then calls == [PrepareForAccess, Connect(id), OpenDli(id + 1, id), GetInfo(id + 1)]
    else
      || (calls == [PrepareForAccess] && events[0].code == err)
      || (calls == [PrepareForAccess, Connect(id), EndAccess] && events[1].code == err)
      || (calls == [PrepareForAccess, Connect(id), OpenDli(id + 1, id), Disconnect(id), EndAccess] && events[2].code == err)
      || (calls == [PrepareForAccess, Connect(id), OpenDli(id + 1, id), GetInfo(id + 1), Disconnect(id), EndAccess] && events[3].code == err)
  }

  ghost predicate OpenOutcome(l0: Ledger, l: Ledger, id: nat, events: seq<Event>, disk: Option<OpenDisk>, err: nat) {
    && FirstFailure(events, err) && OpenCalls(id, events, err)
    && (err == VIX_OK <==> disk.Some?)
    && (disk.Some? ==> disk.value == OpenDisk(id + 1, id) && l == WithDisk(l0, disk.value))
    && (disk.None? ==> OpenLeaves(l0, l, id, id + 1, events))
  }

  lemma Acquired(l0: Ledger, id: nat)
    requires Fresh(l0, id) && Fresh(l0, id + 1)
    ensures
      var e0, e1, e2 := Event(PrepareForAccess, VIX_OK), Event(Connect(id), VIX_OK), Event(OpenDli(id + 1, id), VIX_OK);
      Step(Step(Step(l0, e0), e1), e2) == WithDisk(l0, OpenDisk(id + 1, id))
  {
  }

  lemma ConnectionInUse(l0: Ledger, disk: OpenDisk)
    ensures Breach(WithDisk(l0, disk), Disconnect(disk.conn))
  {
    assert WithDisk(l0, disk).handles[disk.dli] == disk.conn;
  }

  lemma OpenFailsFirst(l0: Ledger, id: nat, err: nat)
    requires Fresh(l0, id) && Fresh(l0, id + 1) && err != VIX_OK
    ensures OpenOutcome(l0, Step(l0, Event(PrepareForAccess, err)), id, [Event(PrepareForAccess, err)], None, err)
  {
    assert [Event(PrepareForAccess, err)][0].code == err;
  }

  lemma OpenFailsToConnect(l0: Ledger, id: nat, err: nat, e: nat)
    requires Fresh(l0, id) && Fresh(l0, id + 1) && err != VIX_OK
    ensures
      var e0, e1, e2 := Event(PrepareForAccess, VIX_OK), Event(Connect(id), err), Event(EndAccess, e);
      OpenOutcome(l0, Step(Step(Step(l0, e0), e1), e2), id, [e0, e1, e2], None, err)
  {
    var e0, e1, e2 := Event(PrepareForAccess, VIX_OK), Event(Connect(id), err), Event(EndAccess, e);
    var events := [e0, e1, e2];
    assert events[1] == e1 && e2 in events;
  }

  lemma OpenFailsToOpen(l0: Ledger, id: nat, err: nat, d: nat, e: nat)
    requires Fresh(l0, id) && Fresh(l0, id + 1) && err != VIX_OK
    ensures
      var e0, e1, e2 := Event(PrepareForAccess, VIX_OK), Event(Connect(id), VIX_OK), Event(OpenDli(id + 1, id), err);
      var e3, e4 := Event(Disconnect(id), d), Event(EndAccess, e);
      OpenOutcome(l0, Step(Step(Step(Step(Step(l0, e0), e1), e2), e3), e4), id, [e0, e1, e2, e3, e4], None, err)
  {
    var e0, e1, e2 := Event(PrepareForAccess, VIX_OK), Event(Connect(id), VIX_OK), Event(OpenDli(id + 1, id), err);
    var e3, e4 := Event(Disconnect(id), d), Event(EndAccess, e);
    var events := [e0, e1, e2, e3, e4];
    assert events[2] == e2 && e3 in events && e4 in events;
  }

  lemma OpenFailsToInform(l0: Ledger, id: nat, err: nat, d: nat, e: nat)
    requires Fresh(l0, id) && Fresh(l0, id + 1) && err != VIX_OK
    ensures
      var e0, e1, e2 := Event(PrepareForAccess, VIX_OK), Event(Connect(id), VIX_OK), Event(OpenDli(id + 1, id), VIX_OK);
      var e3, e4, e5 := Event(GetInfo(id + 1), err), Event(Disconnect(id), d), Event(EndAccess, e);
      OpenOutcome(l0, Step(Step(Step(Step(Step(Step(l0, e0), e1), e2), e3), e4), e5), id, [e0, e1, e2, e3, e4, e5], None, err)
  {
    var e0, e1, e2 := Event(PrepareForAccess, VIX_OK), Event(Connect(id), VIX_OK), Event(OpenDli(id + 1, id), VIX_OK);
    var e3, e4, e5 := Event(GetInfo(id + 1), err), Event(Disconnect(id), d), Event(EndAccess, e);
    var events := [e0, e1, e2, e3, e4, e5];
    hide Step, Fresh, Fails;
    assert events[3] == e3;
    FailsHere(events, e3, 3);
    FailsHere(events, e4, 4);
    FailsHere(events, e5, 5);
    Acquired(l0, id);
    UnderHandle(l0, OpenDisk(id + 1, id), err, d, e);
  }

  /** A call made only once fails if that one call does. */
  lemma FailsHere(events: seq<Event>, e: Event, i: nat)
    requires i < |events| && events[i] == e && forall k :: 0 <= k < |events| && k != i ==> events[k].call != e.call
    ensures Fails(events, e.call) <==> e.code != VIX_OK
  {
    assert e in events;
  }

  /** Disconnecting under a handle that stayed open. */
  lemma UnderHandle(l0: Ledger, disk: OpenDisk, err: nat, d: nat, e: nat)
    requires disk.conn !in l0.conns && err != VIX_OK
    ensures Step(Step(Step(WithDisk(l0, disk), Event(GetInfo(disk.dli), err)), Event(Disconnect(disk.conn), d)), Event(EndAccess, e)) ==
      Ledger(l0.access + (if e == VIX_OK then 0 else 1), l0.conns + (if d == VIX_OK then {} else {disk.conn}),
             l0.handles[disk.dli := disk.conn], l0.breaches + 1)
  {
    ConnectionInUse(l0, disk);
    assert l0.conns + {disk.conn} - {disk.conn} == l0.conns && l0.conns + {} == l0.conns;
  }

  lemma OpenSucceeds(l0: Ledger, id: nat)
    requires Fresh(l0, id) && Fresh(l0, id + 1)
    ensures
      var e0, e1, e2 := Event(PrepareForAccess, VIX_OK), Event(Connect(id), VIX_OK), Event(OpenDli(id + 1, id), VIX_OK);
      var e3 := Event(GetInfo(id + 1), VIX_OK);
      OpenOutcome(l0, Step(Step(Step(Step(l0, e0), e1), e2), e3), id, [e0, e1, e2, e3], Some(OpenDisk(id + 1, id)), VIX_OK)
  {
    var e0, e1, e2 := Event(PrepareForAccess, VIX_OK), Event(Connect(id), VIX_OK), Event(OpenDli(id + 1, id), VIX_OK);
    var e3 := Event(GetInfo(id + 1), VIX_OK);
    var events := [e0, e1, e2, e3];
  }

  method Open(lib: Library) returns (disk: Option<OpenDisk>, err: nat)
    requires lib.Valid()
    modifies lib
    ensures lib.Valid() && old(lib.trace) <= lib.trace
    ensures OpenOutcome(old(lib.ledger), lib.ledger, old(lib.issued), lib.trace[|old(lib.trace)|..], disk, err)
  {
    hide Step, OpenOutcome, Fresh, AllIssued;
    disk := None;
    ghost var start, l0 := lib.trace, lib.ledger;
    var conn := lib.NewId();
    var dli := lib.NewId();
    err := lib.Invoke(PrepareForAccess);
    ghost var e0 := Event(PrepareForAccess, err);
    if err != VIX_OK {
      OpenFailsFirst(l0, conn, err);
      assert lib.trace[|start|..] == [e0];
      return;
    }
    err := lib.Invoke(Connect(conn));
    ghost var e1 := Event(Connect(conn), err);
    if err != VIX_OK {
      var e := lib.Invoke(EndAccess);
      OpenFailsToConnect(l0, conn, err, e);
      assert lib.trace[|start|..] == [e0, e1, Event(EndAccess, e)];
      return;
    }
    err := lib.Invoke(OpenDli(dli, conn));
    ghost var e2 := Event(OpenDli(dli, conn), err);
    if err != VIX_OK {
      var d := lib.Invoke(Disconnect(conn));
      var e := lib.Invoke(EndAccess);
      OpenFailsToOpen(l0, conn, err, d, e);
      assert lib.trace[|start|..] == [e0, e1, e2, Event(Disconnect(conn), d), Event(EndAccess, e)];
      return;
    }
    err := lib.Invoke(GetInfo(dli));
    ghost var e3 := Event(GetInfo(dli), err);
    if err != VIX_OK {
      var d := lib.Invoke(Disconnect(conn));
      var e := lib.Invoke(EndAccess);
      OpenFailsToInform(l0, conn, err, d, e);
      assert lib.trace[|start|..] == [e0, e1, e2, e3, Event(Disconnect(conn), d), Event(EndAccess, e)];
      return;
    }
    OpenSucceeds(l0, conn);
    assert lib.trace[|start|..] == [e0, e1, e2, e3];
    disk := Some(OpenDisk(dli, conn));
  }

  // ----- Close

  predicate Succeeds(events: seq<Event>, call: Call) {
    exists e :: e in events && e.call == call && e.code == VIX_OK
  }

  /** The calls of a close, each made only if the ones before it succeeded. */
  ghost predicate CloseCalls(disk: OpenDisk, events: seq<Event>) {
    var calls := [CloseDli(disk.dli), Disconnect(disk.conn), EndAccess];
    && 0 < |events| <= 3
    && (forall k :: 0 <= k < |events| ==> events[k].call == calls[k])
    && (forall k :: 0 <= k < |events| - 1 ==> events[k].code == VIX_OK)
    && (|events| < 3 ==> events[|events| - 1].code != VIX_OK)
  }

  ghost predicate CloseOutcome(l0: Ledger, l: Ledger, disk: OpenDisk, events: seq<Event>, err: nat) {
    && CloseCalls(disk, events) && FirstFailure(events, err)
    && l.handles == (if Succeeds(events, CloseDli(disk.dli)) then l0.handles - {disk.dli} else l0.handles)
    && l.conns == (if Succeeds(events, Disconnect(disk.conn)) then l0.conns - {disk.conn} else l0.conns)
    && l.access == (if err == VIX_OK then l0.access - 1 else l0.access)
    && l.breaches == l0.breaches + (if disk.dli in l0.handles then 0 else 1)
       + (if |events| > 1 && (disk.conn !in l0.conns || disk.conn in (l0.handles - {disk.dli}).Values) then 1 else 0)
  }

  lemma CloseStopsFirst(l0: Ledger, disk: OpenDisk, err: nat)
    requires err != VIX_OK
    ensures CloseOutcome(l0, Step(l0, Event(CloseDli(disk.dli), err)), disk, [Event(CloseDli(disk.dli), err)], err)
  {
    assert [Event(CloseDli(disk.dli), err)][0].code == err;
  }

  lemma CloseStopsSecond(l0: Ledger, disk: OpenDisk, err: nat)
    requires err != VIX_OK
    ensures
      var e0, e1 := Event(CloseDli(disk.dli), VIX_OK), Event(Disconnect(disk.conn), err);
      CloseOutcome(l0, Step(Step(l0, e0), e1), disk, [e0, e1], err)
  {
    var e0, e1 := Event(CloseDli(disk.dli), VIX_OK), Event(Disconnect(disk.conn), err);
    assert e0 in [e0, e1] && [e0, e1][1].code == err;
  }

  lemma CloseGoesThrough(l0: Ledger, disk: OpenDisk, err: nat)
    ensures
      var e0, e1, e2 := Event(CloseDli(disk.dli), VIX_OK), Event(Disconnect(disk.conn), VIX_OK), Event(EndAccess, err);
      CloseOutcome(l0, Step(Step(Step(l0, e0), e1), e2), disk, [e0, e1, e2], err)
  {
    var e0, e1, e2 := Event(CloseDli(disk.dli), VIX_OK), Event(Disconnect(disk.conn), VIX_OK), Event(EndAccess, err);
    var events := [e0, e1, e2];
    assert e0 in events && e1 in events && events[2].code == err;
  }

  method Close(lib: Library, disk: OpenDisk) returns (err: nat)
    requires lib.Valid()
    modifies lib
    ensures lib.Valid() && lib.issued == old(lib.issued) && old(lib.trace) <= lib.trace
    ensures CloseOutcome(old(lib.ledger), lib.ledger, disk, lib.trace[|old(lib.trace)|..], err)
  {
    hide Step, CloseOutcome, Fresh, AllIssued;
    ghost var start, l0 := lib.trace, lib.ledger;
    err := lib.Invoke(CloseDli(disk.dli));
    ghost var e0 := Event(CloseDli(disk.dli), err);
    if err != VIX_OK {
      CloseStopsFirst(l0, disk, err);
      assert lib.trace[|start|..] == [e0];
      return;
    }
    err := lib.Invoke(Disconnect(disk.conn));
    ghost var e1 := Event(Disconnect(disk.conn), err);
    if err != VIX_OK {
      CloseStopsSecond(l0, disk, err);
      assert lib.trace[|start|..] == [e0, e1];
      return;
    }
    err := lib.Invoke(EndAccess);
    CloseGoesThrough(l0, disk, err);
    assert lib.trace[|start|..] == [e0, e1, Event(EndAccess, err)];
  }

  // ----- what Open and Close promise

  /** A failed `Open` restores the initial state exactly when every release call succeeded and it
      was not reading the disk's information that failed; with the releases succeeding, access and
      connections are always balanced and a handle is all that can be left over. */
  lemma OpenRestores(l0: Ledger, l: Ledger, id: nat, events: seq<Event>, err: nat)
    requires Fresh(l0, id) && Fresh(l0, id + 1) && OpenOutcome(l0, l, id, events, None, err)
    ensures l == l0 <==> !Fails(events, GetInfo(id + 1)) && !Fails(events, Disconnect(id)) && !Fails(events, EndAccess)
    ensures !Fails(events, Disconnect(id)) && !Fails(events, EndAccess) ==>
      && l.access == l0.access && l.conns == l0.conns
      && l.handles == (if Fails(events, GetInfo(id + 1)) then l0.handles[id + 1 := id] else l0.handles)
  {
    if Fails(events, GetInfo(id + 1)) {
      assert l.handles[id + 1] == id;
    }
    if Fails(events, Disconnect(id)) {
      assert id in l.conns;
    }
  }

  /** `Close` undoes `Open` exactly when it reports no error, and otherwise leaves exactly the
      resources from the failing call on; it never breaches the library's rules. */
  lemma CloseUndoesOpen(l0: Ledger, l: Ledger, disk: OpenDisk, events: seq<Event>, err: nat)
    requires Fresh(l0, disk.conn) && Fresh(l0, disk.dli) && disk.conn != disk.dli
    requires CloseOutcome(WithDisk(l0, disk), l, disk, events, err)
    ensures err == VIX_OK <==> l == l0
    ensures err != VIX_OK ==>
      l == match |events|
           case 1 => WithDisk(l0, disk)
           case 2 => l0.(access := l0.access + 1, conns := l0.conns + {disk.conn})
           case _ => l0.(access := l0.access + 1)
  {
    assert WithDisk(l0, disk).handles - {disk.dli} == l0.handles;
    assert l0.conns + {disk.conn} - {disk.conn} == l0.conns;
    if |events| > 1 {
      assert events[0] in events;
    }
    if |events| > 2 {
      assert events[1] in events;
    }
  }

  /** Closing again after a failed close breaches the rules exactly when the first close got past
      the handle. */
  lemma ClosingAgain(l0: Ledger, l1: Ledger, l2: Ledger, disk: OpenDisk, first: seq<Event>, err1: nat, second: seq<Event>, err2: nat)
    requires Fresh(l0, disk.conn) && Fresh(l0, disk.dli) && disk.conn != disk.dli
    requires CloseOutcome(WithDisk(l0, disk), l1, disk, first, err1) && err1 != VIX_OK
    requires CloseOutcome(l1, l2, disk, second, err2)
    ensures l2.breaches > l1.breaches <==> |first| > 1
  {
    CloseUndoesOpen(l0, l1, disk, first, err1);
    assert WithDisk(l0, disk).handles - {disk.dli} == l0.handles;
  }
}
