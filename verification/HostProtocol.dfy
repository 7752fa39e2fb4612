/**
 The agent host as a step system: one recorder of child output, one supervisor of the child,
 any number of connection handlers (each a handshake followed by a writer and a reader,
 each a task of its own), the accept loop, and the peers at the other end of the sockets.

 Every lock acquisition is a step of its own, so the steps of different tasks interleave
 freely between them.  A write of a frame either puts the whole frame on the wire or fails,
 as the step's `ok` says.
 */
module HostProtocol {
  import opened Prelude
  import opened Rings

  datatype ExitStatus = ExitStatus(code: Option<int>, signal: Option<int>)

  /** Frames from the host. */
  datatype Frame =
    | Ready(lastSeq: nat)
    | Stdout(chunk: Chunk)
    | Pong
    | AgentExited(status: ExitStatus)
    | AlreadyConnected
    | CookieMismatch

  /** Frames from a peer; `Other` is any frame the host only forwards or ignores. */
  datatype Inbound =
    | Hello(cookieOk: bool, lastSeq: nat)
    | Ack(upTo: nat)
    | Ping
    | Other

  /** Where the writer of a connection is. */
  datatype Writer =
    | Snapshot                        // about to lock the ring
    | ReadExit                        // holds the ring lock, about to lock the exit flag
    | Send(exit: Option<ExitStatus>)  // sending the snapshot, then acting on the exit flag it saw
    | Shutdown                        // AgentExited written, write lock still held
    | Deliver                         // write side shut, write lock still held
    | Wait                            // waiting to be notified
    | Done

  /** Where a connection handler is. */
  datatype Pc =
    | AwaitHello
    | Claim
    | SnapLast
    | SendReady
    | SnapReplay
    | SendReplay
    | Stream(writer: Writer, reading: bool)
    | Release
    | Closed

  /** The wire from the host to the peer. */
  datatype Out = Out(
    sent: seq<Frame>,  // every frame put on the wire
    read: nat,         // how many of them the peer has taken
    peerOpen: bool,
    shut: bool         // the host shut its write side
  )

  /** The progress of a connection through the log. */
  datatype Job = Job(
    base: nat,        // `last_seq` of the Hello
    mark: nat,        // `host_last_seq`, then the writer's watermark
    todo: seq<Chunk>  // what is left of the snapshot being sent
  )

  /** History, which no step looks at. */
  datatype Trace = Trace(
    replay: seq<Chunk>,  // chunks sent by the handshake
    live: seq<Chunk>,    // chunks sent by the writer
    len1: nat,           // length of the log when `host_last_seq` was read
    len2: nat            // length of the log when the replay was taken
  )

  /** One connection; `inbox` is what the peer sent and the host has not read. */
  datatype Conn = Conn(pc: Pc, inbox: seq<Inbound>, out: Out, job: Job, trace: Trace)

  datatype Supervisor = Running | Exited | ReturnedEarly

  datatype Accept = Accepting | Grace | Left

  /** `connection_active`, `delivered_exit`, and the writer that holds the ring lock across steps. */
  datatype Flags = Flags(active: bool, delivered: bool, ringHeld: Option<nat>)

  /** The ring, what it dropped for capacity, and the highest acknowledgement applied to it. */
  datatype Store = Store(capacity: nat, ring: Ring, evicted: set<nat>, acked: nat)

  /** The exit flag, and the length of the log when it was set. */
  datatype Exit = Exit(status: Option<ExitStatus>, len: nat)

  /** The Core: every chunk its read pump has taken, in order and unfiltered, and its watermark. */
  datatype Core = Core(received: seq<Chunk>, high: nat)

  datatype Host = Host(
    store: Store,
    exit: Exit,
    flags: Flags,
    owed: nat,  // calls of `notify_waiters` still to come
    supervisor: Supervisor,
    accept: Accept,
    conns: seq<Conn>,
    core: Core
  )

  datatype Step =
    | Record(data: Bytes)
    | Notify
    | ChildExit(status: ExitStatus)
    | ReturnEarly
    | Connect
    | Peer(conn: nat, frame: Inbound)
    | PeerRead(conn: nat)
    | PeerClose(conn: nat, keep: nat)
    | Handle(conn: nat, ok: bool)
    | Read(conn: nat, ok: bool)
    | SeeExit
    | Leave

  const FRESH_CONN := Conn(AwaitHello, [], Out([], 0, true, false), Job(0, 0, []), Trace([], [], 0, 0))

  function Init(capacity: nat): Host {
    Host(Store(capacity, Ring([], 0), {}, 0), Exit(None, 0), Flags(false, false, None), 0,
         Running, Accepting, [], Core([], 0))
  }

  /** The numbers above `lo`, up to `hi`. */
  function Between(lo: nat, hi: nat): (r: set<nat>)
    ensures forall q :: q in r <==> lo < q <= hi
  {
    if hi <= lo then {} else Between(lo, hi - 1) + {hi}
  }

  function Put(o: Out, f: Frame): Out {
    o.(sent := o.sent + [f])
  }

  function At(c: Conn, w: Writer): Conn
    requires c.pc.Stream?
  {
    c.(pc := c.pc.(writer := w))
  }

  /** `notify_waiters`: only the writers already waiting are woken. */
  function Wake(c: Conn): Conn {
    if c.pc.Stream? && c.pc.writer.Wait? then At(c, Snapshot) else c
  }

  function WakeAll(conns: seq<Conn>): seq<Conn> {
    seq(|conns|, i requires 0 <= i < |conns| => Wake(conns[i]))
  }

  /** What the peers are held to: nobody without the cookie can claim, and the Core names only numbers it has received. */
  predicate Honest(high: nat, f: Inbound) {
    match f
    case Hello(cookieOk, lastSeq) => cookieOk ==> lastSeq <= high
    case Ack(upTo) => upTo <= high
    case _ => true
  }

  /** The state after a step, or `None` when the step cannot be taken. */
  function Apply(s: Host, step: Step): Option<Host> {
    match step
    case Record(data) =>
      if s.flags.ringHeld.Some? then None
      else Some(s.(store := RecordStep(s.store, data), owed := s.owed + 1))
    case Notify =>
      if s.owed == 0 then None else Some(s.(owed := s.owed - 1, conns := WakeAll(s.conns)))
    case ChildExit(status) =>
      if !s.supervisor.Running? then None
      else Some(s.(supervisor := Exited, exit := Exit(Some(status), |s.store.ring.log|), owed := s.owed + 1))
    case ReturnEarly =>
      if !s.supervisor.Running? then None else Some(s.(supervisor := ReturnedEarly))
    case Connect =>
      if s.accept.Left? then None else Some(s.(conns := s.conns + [FRESH_CONN]))
    case Peer(i, f) =>
      if i < |s.conns| && s.conns[i].out.peerOpen && Honest(s.core.high, f) then
        Some(s.(conns := s.conns[i := s.conns[i].(inbox := s.conns[i].inbox + [f])]))
      else None
    case PeerRead(i) =>
      if i < |s.conns| && s.conns[i].out.peerOpen && s.conns[i].out.read < |s.conns[i].out.sent| then
        var o := s.conns[i].out;
        Some(s.(conns := s.conns[i := s.conns[i].(out := o.(read := o.read + 1))],
                core := Take(s.core, o.sent[o.read])))
      else None
    case PeerClose(i, keep) =>
      if i < |s.conns| && keep <= |s.conns[i].inbox| then
        var c := s.conns[i];
        Some(s.(conns := s.conns[i := c.(inbox := c.inbox[..keep], out := c.out.(peerOpen := false))]))
      else None
    case Handle(i, ok) =>
      if i < |s.conns| then
        match HandleStep(s.store.ring, s.exit.status, s.flags, i, s.conns[i], ok) {
          case None => None
          case Some(e) => Some(s.(conns := s.conns[i := e.conn], flags := e.flags))
        }
      else None
    case Read(i, ok) =>
      if i < |s.conns| then
        match ReadStep(s.store, s.flags, s.conns[i], ok) {
          case None => None
          case Some(e) => Some(s.(conns := s.conns[i := e.conn], store := e.store))
        }
      else None
    case SeeExit =>
      if s.accept.Accepting? && s.exit.status.Some? then Some(s.(accept := Grace)) else None
    case Leave =>
      if s.accept.Grace? then Some(s.(accept := Left)) else None
  }

  function RecordStep(store: Store, data: Bytes): Store {
    var ring := AfterPush(store.ring, data, store.capacity);
    store.(ring := ring, evicted := store.evicted + Between(store.ring.cut, ring.cut))
  }

  /** The Core's read pump: every chunk is appended, and the watermark is the highest number seen. */
  function Take(core: Core, f: Frame): Core {
    match f
    case Stdout(chunk) => Core(core.received + [chunk], Max(core.high, chunk.num))
    case _ => core
  }

  /** What a step of a handler does: to its own connection, and to the shared flags. */
  datatype Effect = Effect(conn: Conn, flags: Flags)

  function HandleStep(ring: Ring, exited: Option<ExitStatus>, flags: Flags, i: nat, c: Conn, ok: bool): Option<Effect> {
    match c.pc
    case AwaitHello =>
      (match HelloStep(c, ok) case None => None case Some(d) => Some(Effect(d, flags)))
    case Claim => Some(ClaimStep(c, flags, ok))
    case SnapLast =>
      if flags.ringHeld.Some? then None else
      Some(Effect(c.(pc := SendReady, job := c.job.(mark := LastSeq(ring)), trace := c.trace.(len1 := |ring.log|)), flags))
    case SendReady =>
      Some(Effect(if ok then c.(pc := SnapReplay, out := Put(c.out, Ready(c.job.mark))) else c.(pc := Release), flags))
    case SnapReplay =>
      if flags.ringHeld.Some? then None else
      Some(Effect(SnapReplayStep(c, ring), flags))
    case SendReplay => Some(Effect(SendReplayStep(c, ok), flags))
    case Stream(_, _) => WriterStep(ring, exited, flags, i, c, ok)
    case Release => Some(Effect(c.(pc := Closed), flags.(active := false)))
    case Closed => None
  }

  /** Reading the first frame: only a Hello with the right cookie goes on. */
  function HelloStep(c: Conn, ok: bool): Option<Conn> {
    if c.inbox == [] then
      if c.out.peerOpen then None else Some(c.(pc := Closed))
    else
      var f, rest := c.inbox[0], c.inbox[1..];
      if !f.Hello? then Some(c.(pc := Closed, inbox := rest))
      else if f.cookieOk then Some(c.(pc := Claim, inbox := rest, job := c.job.(base := f.lastSeq)))
      else Some(c.(pc := Closed, inbox := rest, out := if ok then Put(c.out, CookieMismatch) else c.out))
  }

  /** The single-connection slot. */
  function ClaimStep(c: Conn, flags: Flags, ok: bool): Effect {
    if flags.active then
      Effect(c.(pc := Closed, out := if ok then Put(c.out, AlreadyConnected) else c.out), flags)
    else
      Effect(c.(pc := SnapLast), flags.(active := true))
  }

  function SnapReplayStep(c: Conn, ring: Ring): Conn {
    c.(pc := SendReplay, job := c.job.(todo := Replay(ring, c.job.base)), trace := c.trace.(len2 := |ring.log|))
  }

  function SendReplayStep(c: Conn, ok: bool): Conn {
    if c.job.todo == [] then c.(pc := Stream(Snapshot, true))
    else if !ok then c.(pc := Release, job := c.job.(todo := []))
    else
      var chunk := c.job.todo[0];
      c.(out := Put(c.out, Stdout(chunk)), job := c.job.(todo := c.job.todo[1..]),
         trace := c.trace.(replay := c.trace.replay + [chunk]))
  }

  /** The writer, and the release of the slot once it and the reader are done. */
  function WriterStep(ring: Ring, exited: Option<ExitStatus>, flags: Flags, i: nat, c: Conn, ok: bool): Option<Effect>
    requires c.pc.Stream?
  {
    match c.pc.writer
    case Snapshot =>
      if flags.ringHeld.Some? then None else
      Some(Effect(SnapshotStep(c, ring), flags.(ringHeld := Some(i))))
    case ReadExit => Some(Effect(At(c, Send(exited)), flags.(ringHeld := None)))
    case Send(exit) => Some(Effect(SendStep(c, exit, ok), flags))
    case Shutdown => Some(Effect(At(c, Deliver).(out := c.out.(shut := true)), flags))
    case Deliver => Some(Effect(At(c, Done), flags.(delivered := true)))
    case Wait => None
    case Done => if c.pc.reading then None else Some(Effect(c.(pc := Closed), flags.(active := false)))
  }

  function SnapshotStep(c: Conn, ring: Ring): Conn
    requires c.pc.Stream?
  {
    At(c, ReadExit).(job := c.job.(todo := Replay(ring, c.job.mark)))
  }

  /** One frame of the snapshot, or what follows the last of them. */
  function SendStep(c: Conn, exit: Option<ExitStatus>, ok: bool): Conn
    requires c.pc.Stream?
  {
    if c.job.todo != [] then SendChunkStep(c, ok)
    else if exit.None? then At(c, Wait)
    else if ok then At(c, Shutdown).(out := Put(c.out, AgentExited(exit.value)))
    else At(c, Done)
  }

  function SendChunkStep(c: Conn, ok: bool): Conn
    requires c.pc.Stream? && c.job.todo != []
  {
    var chunk := c.job.todo[0];
    var mark := Max(c.job.mark, chunk.num);
    if !ok then At(c, Done).(job := c.job.(mark := mark, todo := []))
    else
      c.(out := Put(c.out, Stdout(chunk)), job := c.job.(mark := mark, todo := c.job.todo[1..]),
         trace := c.trace.(live := c.trace.live + [chunk]))
  }

  /** What a step of a reader does: to its own connection, and to the ring. */
  datatype ReadEffect = ReadEffect(conn: Conn, store: Store)

  function ReadStep(store: Store, flags: Flags, c: Conn, ok: bool): Option<ReadEffect> {
    if !(c.pc.Stream? && c.pc.reading) then None
    else if c.inbox == [] then
      if c.out.peerOpen then None else Some(ReadEffect(StopReading(c), store))
    else
      var f, rest := c.inbox[0], c.inbox[1..];
      if f.Ack? then
        if flags.ringHeld.Some? then None
        else Some(ReadEffect(c.(inbox := rest),
                             store.(ring := AfterPrune(store.ring, f.upTo), acked := Max(store.acked, f.upTo))))
      else if f.Ping? then
        // The writer holds the write lock from AgentExited until it is done; after that the write side is shut.
        if c.pc.writer.Shutdown? || c.pc.writer.Deliver? || (c.out.shut && ok) then None
        else if ok then Some(ReadEffect(c.(inbox := rest, out := Put(c.out, Pong)), store))
        else Some(ReadEffect(StopReading(c.(inbox := rest)), store))
      else Some(ReadEffect(c.(inbox := rest), store))
  }

  function StopReading(c: Conn): Conn
    requires c.pc.Stream?
  {
    c.(pc := c.pc.(reading := false))
  }

  /** The state a run of steps leads to, or `None` when one of them cannot be taken. */
  function Exec(s: Host, steps: seq<Step>): Option<Host> {
    if steps == [] then Some(s) else
    match Exec(s, steps[..|steps| - 1])
    case None => None
    case Some(t) => Apply(t, steps[|steps| - 1])
  }
}
