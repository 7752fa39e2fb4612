/**
 Which chunks a connection can carry twice.  The handshake reads `host_last_seq` and takes its
 replay under two different acquisitions of the ring lock, and the writer starts again from the
 first; so what is recorded between the two is sent by both.
 */
module HostDuplicates {
  import opened Prelude
  import opened Rings
  import opened Delivery
  import opened HostProtocol
  import opened HostDelivery
  import opened HostTheorems
  import opened HostSlots

  predicate Ascending(chunks: seq<Chunk>) {
    chunks == [] ||
    (Ascending(chunks[..|chunks| - 1]) && Reach(0, chunks[..|chunks| - 1]) < chunks[|chunks| - 1].num)
  }

  predicate AllAbove(n: nat, chunks: seq<Chunk>) {
    chunks == [] || (AllAbove(n, chunks[..|chunks| - 1]) && n < chunks[|chunks| - 1].num)
  }

  lemma {:induction false} AscendingIsRising(chunks: seq<Chunk>)
    requires Ascending(chunks)
    ensures Rising(chunks)
  {
    if chunks != [] {
      var init := chunks[..|chunks| - 1];
      AscendingIsRising(init);
      forall k | 0 <= k < |init|
        ensures chunks[k].num < chunks[|chunks| - 1].num
      {
        ReachBounds(0, init, k);
      }
    }
  }

  lemma {:induction false} AboveAt(n: nat, chunks: seq<Chunk>, k: nat)
    requires AllAbove(n, chunks) && k < |chunks|
    ensures n < chunks[k].num
  {
    if k < |chunks| - 1 {
      AboveAt(n, chunks[..|chunks| - 1], k);
    }
  }

  lemma {:induction false} AscendingPrefix(n: nat, a: seq<Chunk>, b: seq<Chunk>)
    requires Ascending(a + b)
    ensures Ascending(a) && Reach(0, a) <= Reach(0, a + b)
    ensures AllAbove(n, a + b) ==> AllAbove(n, a)
  {
    if b == [] {
      assert a + b == a;
    } else {
      assert (a + b)[..|a + b| - 1] == a + b[..|b| - 1];
      AscendingPrefix(n, a, b[..|b| - 1]);
    }
  }

  lemma AscendingSnoc(n: nat, a: seq<Chunk>, c: Chunk)
    requires Ascending(a) && AllAbove(n, a) && Reach(0, a) < c.num && n < c.num
    ensures Ascending(a + [c]) && AllAbove(n, a + [c]) && Reach(0, a + [c]) == c.num
  {
    assert (a + [c])[..|a + [c]| - 1] == a;
  }

  /** A snapshot taken past everything sent goes on ascending. */
  lemma {:induction false} AscendingSnapshot(n: nat, a: seq<Chunk>, log: seq<Bytes>, cut: nat)
    requires Ascending(a) && AllAbove(n, a) && Reach(0, a) <= cut && n <= cut
    ensures var b := a + Numbered(log, cut);
      Ascending(b) && AllAbove(n, b) && Reach(0, b) <= Max(Reach(0, a), |log|)
    decreases |log|
  {
    if |log| <= cut {
      assert a + Numbered(log, cut) == a;
    } else {
      var rest, last := log[..|log| - 1], Chunk(|log|, log[|log| - 1]);
      AscendingSnapshot(n, a, rest, cut);
      NumberedSnoc(log, cut);
      assert a + Numbered(log, cut) == (a + Numbered(rest, cut)) + [last];
      AscendingSnoc(n, a + Numbered(rest, cut), last);
    }
  }

  // ---------- the two parts of a connection's chunks ----------

  predicate Claimed(pc: Pc) {
    pc.SendReady? || pc.SnapReplay? || pc.SendReplay? || pc.Stream?
  }

  predicate Draining(pc: Pc) {
    Reading(pc) || Sending(pc)
  }

  function ReplayPart(c: Conn): seq<Chunk> {
    c.trace.replay + (if c.pc.SendReplay? then c.job.todo else [])
  }

  function LivePart(c: Conn): seq<Chunk> {
    c.trace.live + (if Draining(c.pc) then c.job.todo else [])
  }

  ghost predicate TraceOk(cut: nat, c: Conn) {
    && Chunks(c.out.sent) == c.trace.replay + c.trace.live
    && (BeforeReplay(c.pc) ==> c.trace.replay == [])
    && (BeforeReplay(c.pc) || c.pc.SendReplay? ==> c.trace.live == [])
    && (!c.pc.SendReplay? && !Draining(c.pc) ==> c.job.todo == [])
    && Ascending(ReplayPart(c)) && Reach(0, ReplayPart(c)) <= c.trace.len2
    && Ascending(LivePart(c)) && AllAbove(c.trace.len1, LivePart(c))
    && (c.pc.Stream? ==> Reach(0, c.trace.live) <= c.job.mark)
    && (Claimed(c.pc) ==> c.trace.len1 <= Max(cut, c.job.mark))
  }

  lemma PlainTrace(cut: nat, c: Conn, d: Conn, f: Frame)
    requires TraceOk(cut, c) && !f.Stdout? && BeforeReplay(c.pc)
    requires d.out.sent == c.out.sent || d.out.sent == c.out.sent + [f]
    requires d.trace.replay == c.trace.replay && d.trace.live == c.trace.live
    requires d.job.todo == c.job.todo && (BeforeReplay(d.pc) || d.pc.Release? || d.pc.Closed?)
    requires Claimed(d.pc) ==> d.trace.len1 <= Max(cut, d.job.mark)
    ensures TraceOk(cut, d)
  {
    ChunksSnoc(c.out.sent, f);
    assert Chunks(c.out.sent) + [] == Chunks(c.out.sent);
    assert ReplayPart(d) == [] && LivePart(d) == [];
  }

  lemma ChunksSnoc(frames: seq<Frame>, f: Frame)
    ensures Chunks(frames + [f]) == Chunks(frames) + (match f case Stdout(c) => [c] case _ => [])
  {
    assert (frames + [f])[..|frames + [f]| - 1] == frames;
  }

  lemma SnapReplayTrace(cut: nat, log: seq<Bytes>, c: Conn)
    requires TraceOk(cut, c) && c.pc.SnapReplay?
    ensures TraceOk(cut, SnapReplayStep(c, Ring(log, cut)))
  {
    var d := SnapReplayStep(c, Ring(log, cut));
    AscendingSnapshot(0, [], log, Max(cut, c.job.base));
    assert ReplayPart(d) == [] + Numbered(log, Max(cut, c.job.base));
    assert LivePart(d) == [];
  }

  lemma SendReplayTrace(cut: nat, c: Conn, ok: bool)
    requires TraceOk(cut, c) && c.pc.SendReplay?
    ensures TraceOk(cut, SendReplayStep(c, ok))
  {
    if c.job.todo == [] || !ok {
      var d := SendReplayStep(c, ok);
      AscendingPrefix(0, c.trace.replay, c.job.todo);
      assert ReplayPart(d) == c.trace.replay;
      assert LivePart(d) == LivePart(c) == [];
    } else {
      ReplayChunkTrace(cut, c);
    }
  }

  lemma ReplayChunkTrace(cut: nat, c: Conn)
    requires TraceOk(cut, c) && c.pc.SendReplay? && c.job.todo != []
    ensures TraceOk(cut, SendReplayStep(c, true))
  {
    var d := SendReplayStep(c, true);
    ChunksSnoc(c.out.sent, Stdout(c.job.todo[0]));
    SplitFirst(c.trace.replay, c.job.todo);
    assert ReplayPart(d) == ReplayPart(c);
    assert LivePart(d) == LivePart(c) == [];
    assert Chunks(d.out.sent) == d.trace.replay + [];
  }

  lemma SnapshotTrace(cut: nat, log: seq<Bytes>, c: Conn)
    requires TraceOk(cut, c) && c.pc.Stream? && c.pc.writer.Snapshot?
    ensures TraceOk(cut, SnapshotStep(c, Ring(log, cut)))
  {
    var d := SnapshotStep(c, Ring(log, cut));
    assert LivePart(c) == c.trace.live;
    AscendingSnapshot(c.trace.len1, c.trace.live, log, Max(cut, c.job.mark));
    assert LivePart(d) == c.trace.live + Numbered(log, Max(cut, c.job.mark));
    assert ReplayPart(d) == ReplayPart(c);
  }

  lemma SendChunkTrace(cut: nat, c: Conn, ok: bool)
    requires TraceOk(cut, c) && Sending(c.pc) && c.job.todo != []
    ensures TraceOk(cut, SendChunkStep(c, ok))
  {
    if ok {
      LiveChunkTrace(cut, c);
    } else {
      var d := SendChunkStep(c, false);
      AscendingPrefix(c.trace.len1, c.trace.live, c.job.todo);
      assert ReplayPart(d) == ReplayPart(c) && LivePart(d) == c.trace.live;
    }
  }

  lemma LiveChunkTrace(cut: nat, c: Conn)
    requires TraceOk(cut, c) && Sending(c.pc) && c.job.todo != []
    ensures TraceOk(cut, SendChunkStep(c, true))
  {
    var d := SendChunkStep(c, true);
    var chunk := c.job.todo[0];
    ChunksSnoc(c.out.sent, Stdout(chunk));
    SplitFirst(c.trace.live, c.job.todo);
    assert ReplayPart(d) == ReplayPart(c) && LivePart(d) == LivePart(c);
    assert (c.trace.live + [chunk])[..|c.trace.live|] == c.trace.live;
    assert (c.trace.replay + c.trace.live) + [chunk] == c.trace.replay + (c.trace.live + [chunk]);
  }

  /** Steps of the writer that send no chunk. */
  lemma QuietTrace(cut: nat, c: Conn, d: Conn, f: Frame)
    requires TraceOk(cut, c) && c.pc.Stream? && !f.Stdout? && (Draining(c.pc) != Draining(d.pc) ==> c.job.todo == [])
    requires d.pc.Stream? || d.pc.Closed?
    requires d.out.sent == c.out.sent || d.out.sent == c.out.sent + [f]
    requires d.trace == c.trace && d.job == c.job
    ensures TraceOk(cut, d)
  {
    ChunksSnoc(c.out.sent, f);
    assert Chunks(c.out.sent) + [] == Chunks(c.out.sent);
    assert ReplayPart(d) == ReplayPart(c) && LivePart(d) == LivePart(c);
  }

  lemma WriterTrace(log: seq<Bytes>, cut: nat, exited: Option<ExitStatus>, flags: Flags, i: nat, c: Conn, ok: bool)
    requires TraceOk(cut, c) && c.pc.Stream? && WriterStep(Ring(log, cut), exited, flags, i, c, ok).Some?
    ensures TraceOk(cut, WriterStep(Ring(log, cut), exited, flags, i, c, ok).value.conn)
  {
    var d := WriterStep(Ring(log, cut), exited, flags, i, c, ok).value.conn;
    match c.pc.writer {
      case Snapshot => SnapshotTrace(cut, log, c);
      case Send(exit) =>
        if c.job.todo != [] {
          SendChunkTrace(cut, c, ok);
        } else {
          QuietTrace(cut, c, d, if exit.Some? then AgentExited(exit.value) else Pong);
        }
      case _ => QuietTrace(cut, c, d, Pong);
    }
  }

  lemma HandleTrace(ring: Ring, exited: Option<ExitStatus>, flags: Flags, i: nat, c: Conn, ok: bool)
    requires TraceOk(ring.cut, c) && ring.cut <= |ring.log| && HandleStep(ring, exited, flags, i, c, ok).Some?
    ensures TraceOk(ring.cut, HandleStep(ring, exited, flags, i, c, ok).value.conn)
  {
    var d := HandleStep(ring, exited, flags, i, c, ok).value.conn;
    match c.pc {
      case AwaitHello => PlainTrace(ring.cut, c, d, CookieMismatch);
      case Claim => PlainTrace(ring.cut, c, d, AlreadyConnected);
      case SnapLast => PlainTrace(ring.cut, c, d, Pong);
      case SendReady => PlainTrace(ring.cut, c, d, Ready(c.job.mark));
      case SnapReplay => SnapReplayTrace(ring.cut, ring.log, c);
      case SendReplay => SendReplayTrace(ring.cut, c, ok);
      case Stream(_, _) =>
        assert ring == Ring(ring.log, ring.cut);
        WriterTrace(ring.log, ring.cut, exited, flags, i, c, ok);
      case Release =>
      case Closed =>
    }
  }

  lemma ReadTrace(cut: nat, store: Store, flags: Flags, c: Conn, ok: bool)
    requires TraceOk(cut, c) && ReadStep(store, flags, c, ok).Some?
    ensures TraceOk(cut, ReadStep(store, flags, c, ok).value.conn)
  {
    QuietTrace(cut, c, ReadStep(store, flags, c, ok).value.conn, Pong);
  }

  /** Steps that leave what the host did with the connection as it is. */
  lemma SameTrace(cut: nat, cut': nat, c: Conn, d: Conn)
    requires TraceOk(cut, c) && cut <= cut'
    requires d.pc == c.pc && d.trace == c.trace && d.job == c.job && d.out.sent == c.out.sent
    ensures TraceOk(cut', d)
  {
    assert ReplayPart(d) == ReplayPart(c) && LivePart(d) == LivePart(c);
  }

  ghost predicate TracesOk(s: Host) {
    forall k :: 0 <= k < |s.conns| ==> TraceOk(s.store.ring.cut, s.conns[k])
  }

  lemma OwnTrace(s: Host, step: Step, i: nat)
    requires Inv(s) && TracesOk(s) && Apply(s, step).Some?
    requires (step.Handle? || step.Read?) && step.conn == i
    ensures TraceOk(Apply(s, step).value.store.ring.cut, Apply(s, step).value.conns[i])
  {
    var t := Apply(s, step).value;
    CutGrows(s, step);
    assert TraceOk(s.store.ring.cut, s.conns[i]);
    if step.Handle? {
      HandleTrace(s.store.ring, s.exit.status, s.flags, i, s.conns[i], step.ok);
    } else {
      ReadTrace(s.store.ring.cut, s.store, s.flags, s.conns[i], step.ok);
      SameTrace(s.store.ring.cut, t.store.ring.cut, t.conns[i], t.conns[i]);
    }
  }

  lemma WakeTrace(cut: nat, c: Conn)
    requires TraceOk(cut, c)
    ensures TraceOk(cut, Wake(c))
  {
    if Wake(c) != c {
      QuietTrace(cut, c, Wake(c), Pong);
    }
  }

  lemma TraceStep(s: Host, step: Step)
    requires Inv(s) && TracesOk(s) && Apply(s, step).Some?
    ensures TracesOk(Apply(s, step).value)
  {
    var t := Apply(s, step).value;
    CutGrows(s, step);
    forall k | 0 <= k < |t.conns|
      ensures TraceOk(t.store.ring.cut, t.conns[k])
    {
      if k == |s.conns| {
        assert t.conns[k] == FRESH_CONN;
      } else if (step.Handle? || step.Read?) && step.conn == k {
        OwnTrace(s, step, k);
      } else if step.Notify? {
        WakeTrace(s.store.ring.cut, s.conns[k]);
      } else {
        OtherTrace(s, step, k);
      }
    }
  }

  /** Other steps leave a connection's trace alone. */
  lemma OtherTrace(s: Host, step: Step, k: nat)
    requires Apply(s, step).Some? && k < |s.conns| && TraceOk(s.store.ring.cut, s.conns[k])
    requires s.store.ring.cut <= Apply(s, step).value.store.ring.cut
    requires !step.Notify? && !((step.Handle? || step.Read?) && step.conn == k)
    ensures k < |Apply(s, step).value.conns|
    ensures TraceOk(Apply(s, step).value.store.ring.cut, Apply(s, step).value.conns[k])
  {
    var t := Apply(s, step).value;
    SameTrace(s.store.ring.cut, t.store.ring.cut, s.conns[k], t.conns[k]);
  }

  lemma CutGrows(s: Host, step: Step)
    requires Inv(s) && Apply(s, step).Some?
    ensures s.store.ring.cut <= Apply(s, step).value.store.ring.cut
  {
    if step.Record? {
      EvictionIsMinimal(s.store.ring.log + [step.data], s.store.ring.cut, s.store.capacity);
    }
  }

  lemma {:induction false} TraceInRun(capacity: nat, steps: seq<Step>)
    requires Exec(Init(capacity), steps).Some?
    ensures TracesOk(Exec(Init(capacity), steps).value)
  {
    if steps != [] {
      var before := steps[..|steps| - 1];
      TraceInRun(capacity, before);
      RunKeeps(capacity, before);
      TraceStep(Exec(Init(capacity), before).value, steps[|steps| - 1]);
    }
  }

  /**
   Two frames of one connection that carry the same number: the first is of the replay, the second
   of the writer, and the chunk was recorded after `host_last_seq` was read and before the replay
   was taken.
   */
  lemma OnlyTheWindowRepeats(capacity: nat, steps: seq<Step>, i: nat, a: nat, b: nat)
    requires Exec(Init(capacity), steps).Some?
    requires var s := Exec(Init(capacity), steps).value;
      && i < |s.conns| && a < b < |Chunks(s.conns[i].out.sent)|
      && Chunks(s.conns[i].out.sent)[a].num == Chunks(s.conns[i].out.sent)[b].num
    ensures var c := Exec(Init(capacity), steps).value.conns[i];
      && a < |c.trace.replay| <= b
      && c.trace.len1 < Chunks(c.out.sent)[a].num <= c.trace.len2
  {
    TraceInRun(capacity, steps);
    var s := Exec(Init(capacity), steps).value;
    PartsRepeat(s.store.ring.cut, s.conns[i], a, b);
  }

  lemma PartsRepeat(cut: nat, c: Conn, a: nat, b: nat)
    requires TraceOk(cut, c)
    requires a < b < |Chunks(c.out.sent)| && Chunks(c.out.sent)[a].num == Chunks(c.out.sent)[b].num
    ensures a < |c.trace.replay| <= b && c.trace.len1 < Chunks(c.out.sent)[a].num <= c.trace.len2
  {
    AscendingPrefix(0, c.trace.replay, if c.pc.SendReplay? then c.job.todo else []);
    AscendingPrefix(c.trace.len1, c.trace.live, if Draining(c.pc) then c.job.todo else []);
    RisingTwice(c.trace.replay, c.trace.live, a, b);
    ReachBounds(0, c.trace.replay, a);
    AboveAt(c.trace.len1, c.trace.live, b - |c.trace.replay|);
  }

  /** Two ascending sequences in a row repeat a number only across the seam. */
  lemma RisingTwice(x: seq<Chunk>, y: seq<Chunk>, a: nat, b: nat)
    requires Ascending(x) && Ascending(y)
    requires a < b < |x + y| && (x + y)[a].num == (x + y)[b].num
    ensures a < |x| <= b
  {
    AscendingIsRising(x);
    AscendingIsRising(y);
  }

  // ---------- the window is real ----------

  /** A host with one connection, that has recorded `data` since `host_last_seq` was read. */
  function Window(capacity: nat, data: Bytes, pc: Pc, sent: seq<Frame>, job: Job, trace: Trace, held: Option<nat>): Host {
    var s := Init(capacity);
    s.(store := s.store.(ring := Ring([data], 0)), owed := 1, flags := Flags(true, false, held),
       conns := [Conn(pc, [], Out(sent, 0, true, false), job, trace)])
  }

  lemma WindowOpens(capacity: nat, data: Bytes) returns (steps: seq<Step>, s: Host)
    requires |data| <= capacity
    ensures Exec(Init(capacity), steps) == Some(s)
    ensures s == Window(capacity, data, SnapReplay, [Ready(0)], Job(0, 0, []), Trace([], [], 0, 0), None)
  {
    steps, s := FirstClaim(capacity);
    steps, s := Go(capacity, steps, s, Handle(0, true));
    assert s.conns[0].out.sent == [Ready(0)];
    RecordOne(capacity, data);
    steps, s := Go(capacity, steps, s, Record(data));
    assert s.store.evicted == {};
    assert s.conns == Window(capacity, data, SnapReplay, [Ready(0)], Job(0, 0, []), Trace([], [], 0, 0), None).conns;
  }

  lemma WindowReplays(capacity: nat, data: Bytes) returns (steps: seq<Step>, s: Host)
    requires |data| <= capacity
    ensures Exec(Init(capacity), steps) == Some(s)
    ensures var chunk := Chunk(1, data);
      s == Window(capacity, data, Stream(Snapshot, true), [Ready(0), Stdout(chunk)], Job(0, 0, []), Trace([chunk], [], 0, 1),
                  None)
  {
    var chunk := Chunk(1, data);
    steps, s := WindowOpens(capacity, data);
    steps, s := Go(capacity, steps, s, Handle(0, true));
    ReplayOne(data);
    assert s.conns == Window(capacity, data, SendReplay, [Ready(0)], Job(0, 0, [chunk]), Trace([], [], 0, 1), None).conns;
    steps, s := Go(capacity, steps, s, Handle(0, true));
    assert s.conns[0].job.todo == [] && s.conns[0].trace.replay == [chunk];
    assert s.conns[0].out.sent == [Ready(0), Stdout(chunk)];
    steps, s := Go(capacity, steps, s, Handle(0, true));
  }

  lemma ReplayOne(data: Bytes)
    ensures Replay(Ring([data], 0), 0) == [Chunk(1, data)]
  {
  }

  lemma WindowStreams(capacity: nat, data: Bytes) returns (steps: seq<Step>, s: Host)
    requires |data| <= capacity
    ensures Exec(Init(capacity), steps) == Some(s)
    ensures var chunk := Chunk(1, data);
      s == Window(capacity, data, Stream(ReadExit, true), [Ready(0), Stdout(chunk)], Job(0, 0, [chunk]), Trace([chunk], [], 0, 1),
                  Some(0))
  {
    steps, s := WindowReplays(capacity, data);
    ReplayOne(data);
    SnapshotsOne(capacity, data, s);
    steps, s := Go(capacity, steps, s, Handle(0, true));
  }

  lemma SnapshotsOne(capacity: nat, data: Bytes, s: Host)
    requires var chunk := Chunk(1, data);
      s == Window(capacity, data, Stream(Snapshot, true), [Ready(0), Stdout(chunk)], Job(0, 0, []), Trace([chunk], [], 0, 1),
                  None)
    ensures var chunk := Chunk(1, data);
      Apply(s, Handle(0, true)) ==
      Some(Window(capacity, data, Stream(ReadExit, true), [Ready(0), Stdout(chunk)], Job(0, 0, [chunk]), Trace([chunk], [], 0, 1),
                  Some(0)))
  {
    ReplayOne(data);
    assert s.conns[0 := SnapshotStep(s.conns[0], s.store.ring)] == [SnapshotStep(s.conns[0], s.store.ring)];
  }

  lemma WindowDrains(capacity: nat, data: Bytes) returns (steps: seq<Step>, s: Host)
    requires |data| <= capacity
    ensures Exec(Init(capacity), steps) == Some(s) && |s.conns| == 1
    ensures s.conns[0].pc == Stream(Send(None), true) && s.conns[0].job.todo == [Chunk(1, data)]
    ensures s.conns[0].out.sent == [Ready(0), Stdout(Chunk(1, data))]
  {
    steps, s := WindowStreams(capacity, data);
    steps, s := Go(capacity, steps, s, Handle(0, true));
  }

  /** For every capacity, a chunk recorded in the window that fits is on the wire twice. */
  lemma WindowRepeats(capacity: nat, data: Bytes) returns (steps: seq<Step>)
    requires |data| <= capacity
    ensures Exec(Init(capacity), steps).Some?
    ensures var s := Exec(Init(capacity), steps).value;
      && |s.conns| == 1
      && Chunks(s.conns[0].out.sent) == [Chunk(1, data), Chunk(1, data)]
  {
    var s;
    var once := [Ready(0), Stdout(Chunk(1, data))];
    steps, s := WindowDrains(capacity, data);
    steps, s := Go(capacity, steps, s, Handle(0, true));
    assert s.conns[0].out.sent == once + [Stdout(Chunk(1, data))];
    TwiceOnTheWire(Chunk(1, data));
  }

  lemma TwiceOnTheWire(chunk: Chunk)
    ensures Chunks([Ready(0), Stdout(chunk)] + [Stdout(chunk)]) == [chunk, chunk]
  {
    var once := [Ready(0), Stdout(chunk)];
    ChunksSnoc([], Ready(0));
    ChunksSnoc([Ready(0)], Stdout(chunk));
    ChunksSnoc(once, Stdout(chunk));
    assert [] + [Ready(0)] == [Ready(0)] && [Ready(0)] + [Stdout(chunk)] == once;
  }

  lemma RecordOne(capacity: nat, data: Bytes)
    requires |data| <= capacity
    ensures AfterPush(Ring([], 0), data, capacity) == Ring([data], 0)
  {
    assert [] + [data] == [data];
    assert LogBytes([data], 0) == |data|;
  }
}
