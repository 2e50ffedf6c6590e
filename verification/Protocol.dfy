/** Threads sharing one `DiskReaderWriter`, interleaved at the granularity of device calls.
    Each thread makes one call; a thread that makes several is several threads here, each
    starting after the one before is done. */
module Protocol {
  import opened Options
  import opened Bytes
  import opened Layout
  import opened DiskHandle
  import opened ReaderWriter

  datatype Call =
    | ReadAt(off: nat, len: nat)
    | WriteAt(off: nat, data: seq<byte>)
    | StreamRead(len: nat)
    | StreamWrite(data: seq<byte>)
    | Seek(delta: int, whence: int)
  {
    /** Calls through the shared offset hold the stream mutex throughout. */
    predicate Stream() {
      StreamRead? || StreamWrite? || Seek?
    }
  }

  /** A transfer after its range check: the clamped range, and the data of a write. */
  datatype Job = Job(write: bool, off: nat, len: nat, data: seq<byte>) {
    function Parts(): seq<Piece> {
      Pieces(off, len)
    }

    /** A transfer that is not sector-aligned holds the handle mutex throughout. */
    predicate Locked() {
      !Aligned(len, off)
    }

    predicate Fits(capacity: nat) {
      && off + len <= capacity
      && (len == 0 ==> off <= capacity)
      && |data| == if write then len else 0
    }

    /** Bytes served once the first `k` pieces are done. */
    function Filled(k: nat): nat
      requires k <= |Parts()|
    {
      if k == |Parts()| then len else Parts()[k].lo
    }
  }

  datatype Phase =
    | Ready
    | Entered
    | Running(job: Job, k: nat, tmp: Option<seq<byte>>, buf: seq<byte>, failed: bool)
    | Returned(done: Option<Job>, n: nat, buf: seq<byte>, error: bool)
    | Done(done: Option<Job>, n: nat, buf: seq<byte>, error: bool)

  /** A finished transfer: what a read delivered, or what a write left on the disk. */
  datatype Entry = Entry(tid: nat, write: bool, locked: bool, off: nat, bytes: seq<byte>)

  /** One successful device write: the part of its thread's data that it was for. */
  datatype Frag = Frag(tid: nat, lo: nat, off: nat, bytes: seq<byte>)

  /** One movement of the stream offset. */
  datatype Move = Move(tid: nat, from: int, to: int, bytes: seq<byte>)

  datatype State = State(
    disk: seq<byte>,
    offset: int,
    streamLock: Option<nat>,
    handleLock: Option<nat>,
    phases: seq<Phase>,
    log: seq<Entry>,
    acquired: seq<nat>,
    frags: seq<Frag>,
    moves: seq<Move>)

  datatype Action =
    | Begin(t: nat)
    | Enter(t: nat)
    | Io(t: nat, ok: bool)
    | Return(t: nat)
    | Leave(t: nat)

  /** The calls of the threads and the disk they start from. */
  datatype Config = Config(calls: seq<Call>, d0: seq<byte>) {
    ghost predicate Valid() {
      && |d0| % SECTOR == 0
      && forall t :: 0 <= t < |calls| ==> (calls[t].ReadAt? || calls[t].StreamRead? ==> calls[t].len <= 0x8000_0000)
    }

    function Init(): State {
      State(d0, 0, None, None, seq(|calls|, i => Ready), [], [], [], [])
    }
  }

  /** The range checks of `ReadAt` and `WriteAt`; no job means the call returns at once. */
  function StartJob(call: Call, off: nat, capacity: nat): Option<Job>
    requires !call.Seek?
  {
    match call
    case ReadAt(_, len) => ReadJob(off, len, capacity)
    case StreamRead(len) => ReadJob(off, len, capacity)
    case WriteAt(_, data) => WriteJob(off, data, capacity)
    case StreamWrite(data) => WriteJob(off, data, capacity)
  }

  function ReadJob(off: nat, len: nat, capacity: nat): Option<Job> {
    if off >= capacity || ClampLen(len, off, capacity) < 0 then None
    else Some(Job(false, off, ClampLen(len, off, capacity), []))
  }

  function WriteJob(off: nat, data: seq<byte>, capacity: nat): Option<Job> {
    if off + |data| > capacity then None else Some(Job(true, off, |data|, data))
  }

  /** Where a call that is about to enter `ReadAt` or `WriteAt` starts. */
  function StartOffset(call: Call, offset: int): int {
    if call.ReadAt? || call.WriteAt? then call.off else offset
  }

  /** Where an offset would be sought to. */
  function SeekTarget(offset: int, delta: int, whence: int): int {
    if whence == SEEK_START then delta else if whence == SEEK_CURRENT then offset + delta else offset
  }

  function JobFor(c: Config, s: State, t: nat): Option<Job>
    requires t < |c.calls| && !c.calls[t].Seek? && StartOffset(c.calls[t], s.offset) >= 0
  {
    StartJob(c.calls[t], StartOffset(c.calls[t], s.offset), |s.disk|)
  }

  predicate Enabled(c: Config, s: State, a: Action) {
    && a.t < |c.calls| && a.t < |s.phases|
    && var call, ph := c.calls[a.t], s.phases[a.t];
    match a
    case Begin(t) => call.Stream() && ph.Ready? && s.streamLock.None?
    case Enter(t) =>
      && !call.Seek? && (if call.Stream() then ph.Entered? else ph.Ready?)
      && StartOffset(call, s.offset) >= 0
      && (JobFor(c, s, t).Some? && JobFor(c, s, t).value.Locked() ==> s.handleLock.None?)
    case Io(t, ok) => ph.Running? && !ph.failed && ph.k < |ph.job.Parts()| && Transferable(s.disk, ph)
    case Return(t) => ph.Running? && (ph.failed || ph.k == |ph.job.Parts()|) && ph.k <= |ph.job.Parts()|
    case Leave(t) => ph.Returned? || (ph.Entered? && call.Seek?)
  }

  /** The current piece lies inside the disk, the job's data and the temporary buffer. (It always
      does: `ShapeStep` shows it for every reachable state.) */
  predicate Transferable(disk: seq<byte>, ph: Phase)
    requires ph.Running? && ph.k < |ph.job.Parts()|
  {
    var p := ph.job.Parts()[ph.k];
    && p.lo <= p.hi
    && p.start * SECTOR <= ph.job.off + p.lo
    && ph.job.off + p.hi <= (p.start + p.num) * SECTOR <= |disk|
    && (ph.job.write ==> p.hi <= |ph.job.data|)
    && (!p.Partial() ==> p.start * SECTOR == ph.job.off + p.lo)
    && (ph.tmp.Some? ==> |ph.tmp.value| == p.num * SECTOR)
  }

  /** The sectors a write sends for its current piece: its own bytes, inside the sector it read
      before when it does not fill one. */
  function Outgoing(ph: Phase): seq<byte>
    requires ph.Running? && ph.k < |ph.job.Parts()| && ph.job.write
    requires ph.job.Parts()[ph.k].lo <= ph.job.Parts()[ph.k].hi <= |ph.job.data|
    requires ph.tmp.Some? ==>
      var p := ph.job.Parts()[ph.k];
      p.start * SECTOR <= ph.job.off + p.lo && ph.job.off + p.hi <= p.start * SECTOR + |ph.tmp.value|
  {
    var p := ph.job.Parts()[ph.k];
    if ph.tmp.Some? then Splice(ph.tmp.value, ph.job.off + p.lo - p.start * SECTOR, ph.job.data[p.lo..p.hi])
    else ph.job.data[p.lo..p.hi]
  }

  /** The device call of the current piece must still fetch the sector it will patch. */
  predicate Fetches(ph: Phase)
    requires ph.Running? && ph.k < |ph.job.Parts()|
  {
    ph.job.write && ph.job.Parts()[ph.k].Partial() && ph.tmp.None?
  }

  /** The thread's own progress when the device call of its current piece succeeds. */
  function NextPhase(disk: seq<byte>, ph: Phase): Phase
    requires ph.Running? && ph.k < |ph.job.Parts()| && Transferable(disk, ph)
  {
    var p := ph.job.Parts()[ph.k];
    if !ph.job.write then ph.(k := ph.k + 1, buf := ph.buf + disk[ph.job.off + p.lo..ph.job.off + p.hi])
    else if Fetches(ph) then ph.(tmp := Some(disk[p.start * SECTOR..(p.start + p.num) * SECTOR]))
    else ph.(k := ph.k + 1, tmp := None)
  }

  function ApplyIo(s: State, t: nat): State
    requires t < |s.phases| && s.phases[t].Running? && s.phases[t].k < |s.phases[t].job.Parts()|
    requires Transferable(s.disk, s.phases[t])
  {
    var ph := s.phases[t];
    var p := ph.job.Parts()[ph.k];
    var s' := s.(phases := s.phases[t := NextPhase(s.disk, ph)]);
    if !ph.job.write then
      var bytes := s.disk[ph.job.off + p.lo..ph.job.off + p.hi];
      s'.(log := if ph.job.Locked() then s.log else s.log + [Entry(t, false, false, ph.job.off, bytes)])
    else if Fetches(ph) then s'
    else
      var bytes := ph.job.data[p.lo..p.hi];
      s'.(disk := Splice(s.disk, p.start * SECTOR, Outgoing(ph)),
          log := if ph.job.Locked() then s.log else s.log + [Entry(t, true, false, ph.job.off, bytes)],
          frags := s.frags + [Frag(t, p.lo, ph.job.off + p.lo, bytes)])
  }

  /** What the call reports and what it delivered or stored when it returns. */
  function ReturnPhase(ph: Phase): Phase
    requires ph.Running? && ph.k <= |ph.job.Parts()|
  {
    var n := if ph.failed || ph.job.write then ph.job.Filled(ph.k) else ReadCount(ph.job.off, ph.job.len);
    Returned(Some(ph.job), n, ph.buf, ph.failed)
  }

  /** What a transfer has delivered (a read) or stored (a write) once `n` bytes are through. */
  function Moved(job: Job, n: nat, buf: seq<byte>): seq<byte> {
    if !job.write then buf else if n <= |job.data| then job.data[..n] else job.data
  }

  function ReturnEntry(t: nat, ph: Phase): Entry
    requires ph.Running? && ph.k <= |ph.job.Parts()|
  {
    Entry(t, ph.job.write, true, ph.job.off, Moved(ph.job, ph.job.Filled(ph.k), ph.buf))
  }

  function Apply(c: Config, s: State, a: Action): State
    requires Enabled(c, s, a)
  {
    var call, ph := c.calls[a.t], s.phases[a.t];
    match a
    case Begin(t) => s.(streamLock := Some(t), phases := s.phases[t := Entered])
    case Enter(t) =>
      (match JobFor(c, s, t)
       case None => s.(phases := s.phases[t := Returned(None, 0, [], true)])
       case Some(job) =>
         var s' := s.(phases := s.phases[t := Running(job, 0, None, [], false)]);
         if job.Locked() then s'.(handleLock := Some(t), acquired := s.acquired + [t]) else s')
    case Io(t, ok) =>
      if ok then ApplyIo(s, t) else s.(phases := s.phases[t := ph.(failed := true)])
    case Return(t) =>
      var s' := s.(phases := s.phases[t := ReturnPhase(ph)]);
      if ph.job.Locked() then s'.(handleLock := None, log := s.log + [ReturnEntry(t, ph)]) else s'
    case Leave(t) =>
      if call.Seek? then
        var target := SeekTarget(s.offset, call.delta, call.whence);
        var accepted := call.whence != SEEK_END && target >= 0;
        var to := if accepted then target else s.offset;
        s.(phases := s.phases[t := Done(None, 0, [], !accepted)], streamLock := None,
           offset := to, moves := s.moves + [Move(t, s.offset, to, [])])
      else
        var s' := s.(phases := s.phases[t := Done(ph.done, ph.n, ph.buf, ph.error)]);
        if call.Stream() then
          s'.(streamLock := None, offset := s.offset + ph.n,
              moves := s.moves + [Move(t, s.offset, s.offset + ph.n, if ph.n <= |ph.buf| then ph.buf[..ph.n] else [])])
        else s'
  }

  /** The state a schedule leads to, if every one of its actions was enabled in turn. */
  function Exec(c: Config, run: seq<Action>): (r: Option<State>)
    ensures r.Some? ==> |r.value.phases| == |c.calls|
  {
    if run == [] then Some(c.Init())
    else
      var last := run[|run| - 1];
      match Exec(c, run[..|run| - 1])
      case None => None
      case Some(s) => if Enabled(c, s, last) then Some(Apply(c, s, last)) else None
  }
}
