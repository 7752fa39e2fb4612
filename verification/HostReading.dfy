/**
 What the host does with what its peers send: frames are taken in order, every Ping is answered once,
 and every Ack prunes; so what the ring holds is settled by what was recorded and acknowledged alone.
 */
module HostReading {
  import opened Prelude
  import opened Rings
  import opened Delivery
  import opened HostProtocol
  import opened HostDelivery
  import opened HostTheorems
  import opened HostHandshake

  // ---------- the ring of a host is the ring of its records and acknowledgements ----------

  function Head(s: Host, i: nat): Option<Inbound> {
    if i < |s.conns| && s.conns[i].inbox != [] then Some(s.conns[i].inbox[0]) else None
  }

  function OpOf(s: Host, step: Step): Option<Op> {
    match step
    case Record(data) => Some(PushOp(data))
    case Read(i, _) =>
      var f := Head(s, i);
      if f.Some? && f.value.Ack? then Some(PruneOp(f.value.upTo)) else None
    case _ => None
  }

  /** The chunks recorded and the acknowledgements read in a run, in order. */
  function Ops(capacity: nat, steps: seq<Step>): seq<Op>
    requires Exec(Init(capacity), steps).Some?
  {
    if steps == [] then [] else
    var before := steps[..|steps| - 1];
    match OpOf(Exec(Init(capacity), before).value, steps[|steps| - 1])
    case None => Ops(capacity, before)
    case Some(op) => Ops(capacity, before) + [op]
  }

  lemma RunOne(capacity: nat, ops: seq<Op>, op: Op)
    ensures Run(capacity, ops + [op]) ==
      if op.PushOp? then AfterPush(Run(capacity, ops), op.data, capacity) else AfterPrune(Run(capacity, ops), op.ack)
    ensures Pushed(ops + [op]) == if op.PushOp? then Pushed(ops) + [op.data] else Pushed(ops)
    ensures Acked(ops + [op]) == if op.PushOp? then Acked(ops) else Max(Acked(ops), Min(op.ack, |Pushed(ops)|))
  {
    assert (ops + [op])[..|ops + [op]| - 1] == ops;
    assert op.PruneOp? ==> Pushed(ops) + [] == Pushed(ops);
  }

  /** A step touches the ring only by what it records or acknowledges. */
  lemma RingStep(s: Host, step: Step)
    requires Apply(s, step).Some? && Inv(s)
    ensures var after := Apply(s, step).value.store;
      var op := OpOf(s, step);
      if op.None? then after == s.store
      else if op.value.PushOp? then after == RecordStep(s.store, op.value.data)
      else
        var ack := op.value.ack;
        && after == s.store.(ring := AfterPrune(s.store.ring, ack), acked := Max(s.store.acked, ack))
        && ack <= |s.store.ring.log|
  {
    match step
    case Handle(i, ok) => HandleIsLocal(s, i, ok);
    case Read(i, ok) => assert Delivers(FactsOf(s), s.conns[i]);
    case _ =>
  }

  /** The ring, its capacity and its highest acknowledgement are those of the operations. */
  predicate Tracks(store: Store, capacity: nat, ops: seq<Op>) {
    && store.capacity == capacity && store.ring == Run(capacity, ops) && store.acked == Acked(ops)
    && store.ring.log == Pushed(ops)
  }

  lemma TracksOne(store: Store, capacity: nat, ops: seq<Op>, op: Op)
    requires Tracks(store, capacity, ops) && (op.PruneOp? ==> op.ack <= |store.ring.log|)
    ensures Tracks(
      if op.PushOp? then RecordStep(store, op.data)
      else store.(ring := AfterPrune(store.ring, op.ack), acked := Max(store.acked, op.ack)),
      capacity, ops + [op])
  {
    RunOne(capacity, ops, op);
  }

  /** In every run the ring is what its records and acknowledgements make of it. */
  lemma {:induction false} RingIsRun(capacity: nat, steps: seq<Step>)
    requires Exec(Init(capacity), steps).Some?
    ensures Tracks(Exec(Init(capacity), steps).value.store, capacity, Ops(capacity, steps))
  {
    if steps != [] {
      var before, step := steps[..|steps| - 1], steps[|steps| - 1];
      RingIsRun(capacity, before);
      RunKeeps(capacity, before);
      RingGoesOn(Exec(Init(capacity), before).value, step, capacity, Ops(capacity, before));
    }
  }

  lemma RingGoesOn(s: Host, step: Step, capacity: nat, ops: seq<Op>)
    requires Apply(s, step).Some? && Inv(s) && Tracks(s.store, capacity, ops)
    ensures var op := OpOf(s, step);
      Tracks(Apply(s, step).value.store, capacity, if op.Some? then ops + [op.value] else ops)
  {
    RingStep(s, step);
    if OpOf(s, step).Some? {
      TracksOne(s.store, capacity, ops, OpOf(s, step).value);
    }
  }

  /**
   In every run, whatever is connected and however it is interleaved, the host holds a chunk exactly if
   no acknowledgement has covered it and it fits the capacity together with all recorded after it.
   */
  lemma HostHoldsExactly(capacity: nat, steps: seq<Step>, q: nat)
    requires Exec(Init(capacity), steps).Some?
    requires 1 <= q <= |Exec(Init(capacity), steps).value.store.ring.log|
    ensures var store := Exec(Init(capacity), steps).value.store;
      store.ring.cut < q <==> Acked(Ops(capacity, steps)) < q && LogBytes(store.ring.log, q - 1) <= capacity
  {
    RingIsRun(capacity, steps);
    HoldsExactly(capacity, Ops(capacity, steps), q);
  }

  // ---------- what was evicted did not fit ----------

  /** An evicted chunk no longer fitted, together with all recorded after it. */
  predicate DidNotFit(store: Store) {
    forall q | q in store.evicted :: 1 <= q <= |store.ring.log| && LogBytes(store.ring.log, q - 1) > store.capacity
  }

  lemma RecordDidNotFit(store: Store, data: Bytes)
    requires DidNotFit(store) && store.ring.cut <= |store.ring.log|
    ensures DidNotFit(RecordStep(store, data))
  {
    var log := store.ring.log + [data];
    EvictionIsMinimal(log, store.ring.cut, store.capacity);
    forall q | q in RecordStep(store, data).evicted
      ensures 1 <= q <= |log| && LogBytes(log, q - 1) > store.capacity
    {
      if q in store.evicted {
        LogBytesSnoc(store.ring.log, q - 1, data);
      }
    }
  }

  lemma {:induction false} EvictedDidNotFit(capacity: nat, steps: seq<Step>)
    requires Exec(Init(capacity), steps).Some?
    ensures DidNotFit(Exec(Init(capacity), steps).value.store)
  {
    if steps != [] {
      var before, step := steps[..|steps| - 1], steps[|steps| - 1];
      var s := Exec(Init(capacity), before).value;
      EvictedDidNotFit(capacity, before);
      RunKeeps(capacity, before);
      RingStep(s, step);
      if step.Record? {
        RecordDidNotFit(s.store, step.data);
      }
    }
  }

  /** In every run, what the filtering receiver skips did not fit the capacity together with all recorded after it. */
  lemma SkippedDidNotFit(capacity: nat, steps: seq<Step>, q: nat)
    requires Exec(Init(capacity), steps).Some? && 1 <= q <= Exec(Init(capacity), steps).value.core.high
    ensures var s := Exec(Init(capacity), steps).value;
      && q <= |s.store.ring.log|
      && (Has(Dedup(s.core.received), q) || LogBytes(s.store.ring.log, q - 1) > capacity)
  {
    RunKeeps(capacity, steps);
    RingIsRun(capacity, steps);
    EvictedDidNotFit(capacity, steps);
    CoreSkipsOnlyEvicted(capacity, steps);
  }

  lemma NothingEvicted(store: Store)
    requires DidNotFit(store) && LogBytes(store.ring.log, 0) <= store.capacity
    ensures store.evicted == {}
  {
    if q :| q in store.evicted {
      LogBytesAntitone(store.ring.log, 0, q - 1);
    }
  }

  /** So a session whose whole output fits the capacity is taken losslessly, however often the Core comes and goes. */
  lemma FittingSessionIsLossless(capacity: nat, steps: seq<Step>)
    requires Exec(Init(capacity), steps).Some?
    requires LogBytes(Exec(Init(capacity), steps).value.store.ring.log, 0) <= capacity
    ensures var s := Exec(Init(capacity), steps).value;
      s.core.high <= |s.store.ring.log| && Dedup(s.core.received) == Numbered(s.store.ring.log[..s.core.high], 0)
  {
    RingIsRun(capacity, steps);
    EvictedDidNotFit(capacity, steps);
    NothingEvicted(Exec(Init(capacity), steps).value.store);
    CoreIsLossless(capacity, steps);
  }

  // ---------- the Core takes what it reads ----------

  /** The chunk a step brings to the Core. */
  function ChunkRead(s: Host, step: Step): Option<Chunk> {
    if step.PeerRead? && step.conn < |s.conns| && s.conns[step.conn].out.read < |s.conns[step.conn].out.sent| then
      match s.conns[step.conn].out.sent[s.conns[step.conn].out.read]
      case Stdout(chunk) => Some(chunk)
      case _ => None
    else None
  }

  /** The chunks read in a run, in the order of their reading, on whatever connection. */
  function ChunksRead(capacity: nat, steps: seq<Step>): seq<Chunk>
    requires Exec(Init(capacity), steps).Some?
  {
    if steps == [] then [] else
    var before := steps[..|steps| - 1];
    var c := ChunkRead(Exec(Init(capacity), before).value, steps[|steps| - 1]);
    if c.None? then ChunksRead(capacity, before) else ChunksRead(capacity, before) + [c.value]
  }

  function ReadsOf(steps: seq<Step>, i: nat): nat {
    if steps == [] then 0 else ReadsOf(steps[..|steps| - 1], i) + if steps[|steps| - 1] == PeerRead(i) then 1 else 0
  }

  lemma CoreStep(s: Host, step: Step)
    requires Apply(s, step).Some?
    ensures var c := ChunkRead(s, step);
      Apply(s, step).value.core.received == if c.None? then s.core.received else s.core.received + [c.value]
  {
    match step
    case Handle(i, ok) => HandleIsLocal(s, i, ok);
    case Read(i, ok) => ReadIsLocal(s, i, ok);
    case _ =>
  }

  lemma HandlerReadsNothing(ring: Ring, exited: Option<ExitStatus>, flags: Flags, i: nat, c: Conn, ok: bool)
    requires HandleStep(ring, exited, flags, i, c, ok).Some?
    ensures HandleStep(ring, exited, flags, i, c, ok).value.conn.out.read == c.out.read
  {
  }

  lemma ReadMoves(s: Host, step: Step, i: nat)
    requires Apply(s, step).Some? && i < |s.conns|
    ensures i < |Apply(s, step).value.conns|
    ensures Apply(s, step).value.conns[i].out.read == s.conns[i].out.read + if step == PeerRead(i) then 1 else 0
  {
    if step.Handle? {
      HandleIsLocal(s, step.conn, step.ok);
      HandlerReadsNothing(s.store.ring, s.exit.status, s.flags, step.conn, s.conns[step.conn], step.ok);
    } else if step.Notify? {
      assert Apply(s, step).value.conns[i] == Wake(s.conns[i]);
    } else if step.Read? {
      ReadIsLocal(s, step.conn, step.ok);
    }
  }

  lemma NewlyReads(s: Host, step: Step, i: nat)
    requires Apply(s, step).Some? && |s.conns| <= i
    ensures step != PeerRead(i)
    ensures i < |Apply(s, step).value.conns| ==> Apply(s, step).value.conns[i] == FRESH_CONN
  {
  }

  /**
   In every run the Core has taken every chunk it read, in the order it read them and with nothing left
   out or filtered, and it has read as many frames of a connection as it tried.
   */
  lemma {:induction false} CoreTakesWhatItReads(capacity: nat, steps: seq<Step>)
    requires Exec(Init(capacity), steps).Some?
    ensures var s := Exec(Init(capacity), steps).value;
      && s.core.received == ChunksRead(capacity, steps) && s.core.high == Reach(0, s.core.received)
      && (forall i | 0 <= i < |s.conns| :: s.conns[i].out.read == ReadsOf(steps, i))
      && (forall i: nat | |s.conns| <= i :: ReadsOf(steps, i) == 0)
  {
    RunKeeps(capacity, steps);
    if steps != [] {
      var before, step := steps[..|steps| - 1], steps[|steps| - 1];
      var s, t := Exec(Init(capacity), before).value, Exec(Init(capacity), steps).value;
      CoreTakesWhatItReads(capacity, before);
      CoreStep(s, step);
      forall i: nat ensures if i < |t.conns| then t.conns[i].out.read == ReadsOf(steps, i) else ReadsOf(steps, i) == 0 {
        if i < |s.conns| {
          ReadMoves(s, step, i);
        } else {
          NewlyReads(s, step, i);
        }
      }
    }
  }

  // ---------- frames are taken in order, and Pings are answered ----------

  /** What the peer has sent on a connection. */
  function SentBy(steps: seq<Step>, i: nat): seq<Inbound> {
    if steps == [] then [] else
    SentBy(steps[..|steps| - 1], i) +
    (match steps[|steps| - 1] case Peer(j, f) => if i == j then [f] else [] case _ => [])
  }

  /** The frame a step takes from a connection. */
  function TakenBy(s: Host, step: Step, i: nat): seq<Inbound> {
    if Head(s, i).None? then []
    else if (step.Handle? && step.conn == i && s.conns[i].pc.AwaitHello?) || (step.Read? && step.conn == i) then
      [Head(s, i).value]
    else []
  }

  /** What the host has taken from it. */
  function TakenFrom(capacity: nat, steps: seq<Step>, i: nat): seq<Inbound>
    requires Exec(Init(capacity), steps).Some?
  {
    if steps == [] then [] else
    var before := steps[..|steps| - 1];
    TakenFrom(capacity, before, i) + TakenBy(Exec(Init(capacity), before).value, steps[|steps| - 1], i)
  }

  /** How many Pings the reader took and could answer. */
  function Pings(capacity: nat, steps: seq<Step>, i: nat): nat
    requires Exec(Init(capacity), steps).Some?
  {
    if steps == [] then 0 else
    var before := steps[..|steps| - 1];
    Pings(capacity, before, i) + PingIn(Exec(Init(capacity), before).value, steps[|steps| - 1], i)
  }

  function PingIn(s: Host, step: Step, i: nat): nat {
    if step == Read(i, true) && Head(s, i) == Some(Ping) then 1 else 0
  }

  function Pongs(frames: seq<Frame>): nat {
    if frames == [] then 0 else Pongs(frames[..|frames| - 1]) + if frames[|frames| - 1].Pong? then 1 else 0
  }

  lemma PongsSnoc(frames: seq<Frame>, f: Frame)
    ensures Pongs(frames + [f]) == Pongs(frames) + if f.Pong? then 1 else 0
  {
    assert (frames + [f])[..|frames + [f]| - 1] == frames;
  }

  lemma NoPong(before: seq<Frame>, after: seq<Frame>, f: Frame)
    requires !f.Pong? && (after == before || after == before + [f])
    ensures Pongs(after) == Pongs(before)
  {
    PongsSnoc(before, f);
  }

  lemma HandleAndPongs(ring: Ring, exited: Option<ExitStatus>, flags: Flags, i: nat, c: Conn, ok: bool)
    requires HandleStep(ring, exited, flags, i, c, ok).Some?
    ensures var d := HandleStep(ring, exited, flags, i, c, ok).value.conn;
      && Pongs(d.out.sent) == Pongs(c.out.sent)
      && d.inbox == (if c.pc.AwaitHello? && c.inbox != [] then c.inbox[1..] else c.inbox)
      && d.out.peerOpen == c.out.peerOpen
  {
    var d := HandleStep(ring, exited, flags, i, c, ok).value.conn;
    match c.pc
    case AwaitHello => NoPong(c.out.sent, d.out.sent, CookieMismatch);
    case Claim => NoPong(c.out.sent, d.out.sent, AlreadyConnected);
    case SendReady => NoPong(c.out.sent, d.out.sent, Ready(c.job.mark));
    case SendReplay =>
      if c.job.todo != [] {
        NoPong(c.out.sent, d.out.sent, Stdout(c.job.todo[0]));
      }
    case Stream(_, _) => WriterAndPongs(ring, exited, flags, i, c, ok);
    case _ =>
  }

  lemma WriterAndPongs(ring: Ring, exited: Option<ExitStatus>, flags: Flags, i: nat, c: Conn, ok: bool)
    requires c.pc.Stream? && WriterStep(ring, exited, flags, i, c, ok).Some?
    ensures var d := WriterStep(ring, exited, flags, i, c, ok).value.conn;
      Pongs(d.out.sent) == Pongs(c.out.sent) && d.inbox == c.inbox && d.out.peerOpen == c.out.peerOpen
  {
    var d := WriterStep(ring, exited, flags, i, c, ok).value.conn;
    if c.pc.writer.Send? {
      if c.job.todo != [] {
        NoPong(c.out.sent, d.out.sent, Stdout(c.job.todo[0]));
      } else if c.pc.writer.exit.Some? {
        NoPong(c.out.sent, d.out.sent, AgentExited(c.pc.writer.exit.value));
      }
    }
  }

  lemma ReadAndPongs(store: Store, flags: Flags, c: Conn, ok: bool)
    requires ReadStep(store, flags, c, ok).Some?
    ensures var d := ReadStep(store, flags, c, ok).value.conn;
      && Pongs(d.out.sent) == Pongs(c.out.sent) + (if ok && c.inbox != [] && c.inbox[0] == Ping then 1 else 0)
      && d.inbox == (if c.inbox != [] then c.inbox[1..] else c.inbox)
      && d.out.peerOpen == c.out.peerOpen
  {
    PongsSnoc(c.out.sent, Pong);
  }

  lemma OneConnStep(s: Host, step: Step, i: nat)
    requires Apply(s, step).Some? && i < |s.conns|
    ensures var t := Apply(s, step).value;
      && i < |t.conns|
      && Pongs(t.conns[i].out.sent) == Pongs(s.conns[i].out.sent) + PingIn(s, step, i)
      && (TakenBy(s, step, i) != [] ==>
            t.conns[i].inbox == s.conns[i].inbox[1..] && t.conns[i].out.peerOpen == s.conns[i].out.peerOpen)
  {
    if step.Handle? && step.conn == i {
      HandleAndPongs(s.store.ring, s.exit.status, s.flags, i, s.conns[i], step.ok);
    } else if step.Read? && step.conn == i {
      ReadAndPongs(s.store, s.flags, s.conns[i], step.ok);
    } else {
      Elsewhere(s, step, i);
    }
  }

  /** What was taken, followed by what is waiting, is what was sent, but for what a closing peer cut off. */
  predicate InOrder(sent: seq<Inbound>, taken: seq<Inbound>, c: Conn) {
    taken + c.inbox <= sent && (c.out.peerOpen ==> taken + c.inbox == sent)
  }

  lemma InboxStep(s: Host, step: Step, i: nat)
    requires Apply(s, step).Some? && i < |s.conns| && TakenBy(s, step, i) == []
    ensures var c, t := s.conns[i], Apply(s, step).value;
      && i < |t.conns|
      && (if step.Peer? && step.conn == i then c.out.peerOpen && t.conns[i].inbox == c.inbox + [step.frame]
          else t.conns[i].inbox <= c.inbox && (t.conns[i].out.peerOpen ==> c.out.peerOpen && t.conns[i].inbox == c.inbox))
  {
    if step.Handle? && step.conn == i {
      HandleAndPongs(s.store.ring, s.exit.status, s.flags, i, s.conns[i], step.ok);
    } else if step.Read? && step.conn == i {
      ReadAndPongs(s.store, s.flags, s.conns[i], step.ok);
    } else {
      Elsewhere(s, step, i);
    }
  }

  lemma OrderStep(s: Host, step: Step, i: nat, sent: seq<Inbound>, taken: seq<Inbound>)
    requires Apply(s, step).Some? && i < |s.conns| && InOrder(sent, taken, s.conns[i])
    ensures i < |Apply(s, step).value.conns|
    ensures InOrder(sent + (match step case Peer(j, f) => if i == j then [f] else [] case _ => []),
                    taken + TakenBy(s, step, i), Apply(s, step).value.conns[i])
  {
    var c := s.conns[i];
    if TakenBy(s, step, i) == [] {
      InboxStep(s, step, i);
      var d := Apply(s, step).value.conns[i];
      assert taken + [] == taken && sent + [] == sent;
      if step.Peer? && step.conn == i {
        Regroup(taken, c.inbox, [step.frame]);
      } else {
        assert taken + d.inbox == (taken + c.inbox)[..|taken| + |d.inbox|];
      }
    } else {
      OneConnStep(s, step, i);
      assert c.inbox == [c.inbox[0]] + c.inbox[1..];
      Regroup(taken, [c.inbox[0]], c.inbox[1..]);
      assert sent + [] == sent;
    }
  }

  predicate Heard(capacity: nat, steps: seq<Step>, i: nat)
    requires Exec(Init(capacity), steps).Some?
  {
    var s := Exec(Init(capacity), steps).value;
    if i < |s.conns| then
      && InOrder(SentBy(steps, i), TakenFrom(capacity, steps, i), s.conns[i])
      && Pongs(s.conns[i].out.sent) == Pings(capacity, steps, i)
    else
      SentBy(steps, i) == [] && TakenFrom(capacity, steps, i) == [] && Pings(capacity, steps, i) == 0
  }

  /**
   In every run, on every connection: the host takes the peer's frames in the order they were sent,
   leaving none out, and sends exactly one Pong for every Ping it takes while the wire holds.
   */
  lemma {:induction false} FramesAreHeard(capacity: nat, steps: seq<Step>, i: nat)
    requires Exec(Init(capacity), steps).Some?
    ensures Heard(capacity, steps, i)
  {
    if steps != [] {
      var before, step := steps[..|steps| - 1], steps[|steps| - 1];
      var s := Exec(Init(capacity), before).value;
      FramesAreHeard(capacity, before, i);
      if i < |s.conns| {
        OrderStep(s, step, i, SentBy(before, i), TakenFrom(capacity, before, i));
        OneConnStep(s, step, i);
      } else {
        NewlyConnected(s, step, i);
      }
    }
  }

  lemma NewlyConnected(s: Host, step: Step, i: nat)
    requires Apply(s, step).Some? && |s.conns| <= i
    ensures TakenBy(s, step, i) == [] && PingIn(s, step, i) == 0 && !(step.Peer? && step.conn == i)
    ensures var t := Apply(s, step).value; i < |t.conns| ==> t.conns[i] == FRESH_CONN
  {
  }
}
