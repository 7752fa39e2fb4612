/**
 What each connection delivers.  The invariant of this module is kept by every step of the
 host; the theorems about whole runs, drawn from it, are in HostTheorems.
 */
module HostDelivery {
  import opened Prelude
  import opened Rings
  import opened Delivery
  import opened HostProtocol

  function Chunks(frames: seq<Frame>): seq<Chunk> {
    if frames == [] then [] else
    Chunks(frames[..|frames| - 1]) +
    (match frames[|frames| - 1] case Stdout(c) => [c] case _ => [])
  }

  /** All that a connection has sent of the log, and is about to send. */
  function Flow(o: Out, j: Job): seq<Chunk> {
    Chunks(o.sent) + j.todo
  }

  predicate NoExit(frames: seq<Frame>) {
    frames == [] || (NoExit(frames[..|frames| - 1]) && !frames[|frames| - 1].AgentExited?)
  }

  predicate AllHonest(high: nat, inbox: seq<Inbound>) {
    inbox == [] || (Honest(high, inbox[0]) && AllHonest(high, inbox[1..]))
  }

  predicate BeforeReplay(pc: Pc) {
    pc.AwaitHello? || pc.Claim? || pc.SnapLast? || pc.SendReady? || pc.SnapReplay?
  }

  predicate Reading(pc: Pc) {
    pc.Stream? && pc.writer.ReadExit?
  }

  predicate Sending(pc: Pc) {
    pc.Stream? && pc.writer.Send?
  }

  /** The writer has sent AgentExited, or is done. */
  predicate Finishing(pc: Pc) {
    pc.Closed? || (pc.Stream? && (pc.writer.Shutdown? || pc.writer.Deliver? || pc.writer.Done?))
  }

  /** The part of the state that delivery depends on. */
  datatype Facts = Facts(log: seq<Bytes>, evicted: set<nat>, acked: nat, high: nat, exit: Exit)

  function FactsOf(s: Host): Facts {
    Facts(s.store.ring.log, s.store.evicted, s.store.acked, s.core.high, s.exit)
  }

  /** Everything the connection left out, up to `n`, is gone. */
  ghost predicate CoversTo(s: Facts, o: Out, j: Job, n: int) {
    AllGone(Reach(j.base, Flow(o, j)), n, s.evicted, s.acked)
  }

  ghost predicate OutOk(high: nat, o: Out) {
    o.read <= |o.sent| && Reach(0, Chunks(o.sent[..o.read])) <= high
  }

  ghost predicate FlowOk(s: Facts, o: Out, j: Job) {
    && j.base <= s.high
    && j.mark <= |s.log|
    && AllAuthentic(s.log, Flow(o, j))
    && Gapless(j.base, Flow(o, j), s.evicted, s.acked)
  }

  ghost predicate PcOk(s: Facts, pc: Pc, o: Out, j: Job) {
    && (BeforeReplay(pc) ==> Flow(o, j) == [])
    && (!BeforeReplay(pc) && !pc.SendReplay? && !Reading(pc) && !Sending(pc) ==> j.todo == [])
    && (pc.SendReplay? || (pc.Stream? && !pc.writer.Done?) ==> CoversTo(s, o, j, j.mark))
    && (Reading(pc) ==> CoversTo(s, o, j, |s.log|))
    && (Sending(pc) && pc.writer.exit.Some? ==> s.exit.status == pc.writer.exit && CoversTo(s, o, j, s.exit.len))
  }

  /** The last frame is AgentExited, with the status of the child, and the log up to the exit is covered. */
  ghost predicate Ended(s: Facts, o: Out, j: Job) {
    && o.sent != []
    && NoExit(o.sent[..|o.sent| - 1])
    && o.sent[|o.sent| - 1].AgentExited?
    && s.exit.status == Some(o.sent[|o.sent| - 1].status)
    && CoversTo(s, o, j, s.exit.len)
  }

  ghost predicate EndOk(s: Facts, pc: Pc, o: Out, j: Job) {
    if NoExit(o.sent) then
      !(pc.Stream? && (pc.writer.Shutdown? || pc.writer.Deliver?))
    else
      Ended(s, o, j) && Finishing(pc) && (pc.Stream? && !pc.writer.Shutdown? ==> o.shut)
  }

  ghost predicate Delivers(s: Facts, c: Conn) {
    && AllHonest(s.high, c.inbox)
    && OutOk(s.high, c.out)
    && FlowOk(s, c.out, c.job)
    && PcOk(s, c.pc, c.out, c.job)
    && EndOk(s, c.pc, c.out, c.job)
  }

  ghost predicate StoreOk(store: Store, high: nat) {
    && store.ring.cut <= |store.ring.log|
    && AllGone(0, store.ring.cut, store.evicted, store.acked)
    && (forall q :: q in store.evicted ==> 1 <= q <= store.ring.cut)
    && store.acked <= high <= |store.ring.log|
  }

  ghost predicate CoreOk(s: Facts, received: seq<Chunk>) {
    && s.high == Reach(0, received)
    && AllAuthentic(s.log, received)
    && Gapless(0, received, s.evicted, 0)
  }

  ghost predicate ExitOk(s: Host) {
    && (s.exit.status.Some? <==> s.supervisor.Exited?)
    && s.exit.len <= |s.store.ring.log|
    && (s.flags.delivered ==> exists i :: 0 <= i < |s.conns| && !NoExit(s.conns[i].out.sent))
  }

  ghost predicate Inv(s: Host) {
    && StoreOk(s.store, s.core.high)
    && CoreOk(FactsOf(s), s.core.received)
    && ExitOk(s)
    && (forall i :: 0 <= i < |s.conns| ==> Delivers(FactsOf(s), s.conns[i]))
    && (forall i :: 0 <= i < |s.conns| && Reading(s.conns[i].pc) ==> s.flags.ringHeld == Some(i))
  }

  // ---------- facts that only grow ----------

  ghost predicate Grows(s: Facts, t: Facts) {
    && s.log <= t.log
    && s.evicted <= t.evicted
    && s.acked <= t.acked
    && s.high <= t.high
    && (s.exit.status.Some? ==> t.exit == s.exit)
  }

  lemma DeliversGrows(s: Facts, t: Facts, c: Conn)
    requires Grows(s, t) && Delivers(s, c)
    requires Reading(c.pc) ==> t.log == s.log
    ensures Delivers(t, c)
  {
    HonestGrows(s.high, t.high, c.inbox);
    AuthenticGrows(s.log, t.log, Flow(c.out, c.job));
    GaplessMonotone(c.job.base, Flow(c.out, c.job), s.evicted, s.acked, t.evicted, t.acked);
    CoversGrows(s, t, c.out, c.job, c.job.mark);
    CoversGrows(s, t, c.out, c.job, |s.log|);
    CoversGrows(s, t, c.out, c.job, s.exit.len);
  }

  lemma CoversGrows(s: Facts, t: Facts, o: Out, j: Job, n: int)
    requires Grows(s, t)
    ensures CoversTo(s, o, j, n) ==> CoversTo(t, o, j, n)
  {
    if CoversTo(s, o, j, n) {
      AllGoneMonotone(Reach(j.base, Flow(o, j)), n, s.evicted, s.acked, t.evicted, t.acked);
    }
  }

  lemma {:induction false} HonestGrows(high: nat, high': nat, inbox: seq<Inbound>)
    requires high <= high' && AllHonest(high, inbox)
    ensures AllHonest(high', inbox)
  {
    if inbox != [] {
      HonestGrows(high, high', inbox[1..]);
    }
  }

  // ---------- frames and snapshots ----------

  lemma PutFrame(o: Out, f: Frame, high: nat)
    requires OutOk(high, o)
    ensures OutOk(high, Put(o, f))
    ensures Chunks(Put(o, f).sent) == Chunks(o.sent) + (match f case Stdout(c) => [c] case _ => [])
    ensures NoExit(Put(o, f).sent) <==> NoExit(o.sent) && !f.AgentExited?
  {
    var sent := Put(o, f).sent;
    assert sent[..|sent| - 1] == o.sent;
    assert sent[..o.read] == o.sent[..o.read];
  }

  /** A frame that is no chunk leaves the flow as it is. */
  lemma PlainFrame(o: Out, j: Job, f: Frame, high: nat)
    requires OutOk(high, o) && !f.Stdout?
    ensures OutOk(high, Put(o, f)) && Flow(Put(o, f), j) == Flow(o, j)
    ensures Put(o, f).sent[..|Put(o, f).sent| - 1] == o.sent
    ensures NoExit(Put(o, f).sent) <==> NoExit(o.sent) && !f.AgentExited?
  {
    PutFrame(o, f, high);
    assert Chunks(o.sent) + [] == Chunks(o.sent);
  }

  /** Sending the first chunk of the snapshot leaves the flow as it is. */
  lemma PutChunk(s: Facts, o: Out, j: Job)
    requires j.todo != [] && OutOk(s.high, o) && FlowOk(s, o, j)
    ensures Flow(Put(o, Stdout(j.todo[0])), j.(todo := j.todo[1..])) == Flow(o, j)
    ensures j.todo[0].num <= Reach(j.base, Flow(o, j)) && j.todo[0].num <= |s.log|
  {
    PutFrame(o, Stdout(j.todo[0]), s.high);
    var k := |Chunks(o.sent)|;
    assert Flow(o, j)[k] == j.todo[0];
    AuthenticAt(s.log, Flow(o, j), k);
    ReachBounds(j.base, Flow(o, j), k);
    SplitFirst(Chunks(o.sent), j.todo);
  }

  lemma SplitFirst(a: seq<Chunk>, b: seq<Chunk>)
    requires b != []
    ensures a + b == (a + [b[0]]) + b[1..]
  {
  }

  /** Dropping the rest of the snapshot on a failed write. */
  lemma DropTodo(s: Facts, o: Out, j: Job)
    requires FlowOk(s, o, j)
    ensures FlowOk(s, o, j.(todo := []))
  {
    var n := |Chunks(o.sent)|;
    assert Flow(o, j.(todo := [])) == Flow(o, j)[..n];
    if n < |Flow(o, j)| {
      GaplessAt(j.base, Flow(o, j), n, s.evicted, s.acked);
      AuthenticAt(s.log, Flow(o, j), n);
    } else {
      assert Flow(o, j)[..n] == Flow(o, j);
    }
  }

  /** Taking a snapshot past `from`, when all below `from` is sent or gone. */
  lemma TakeSnapshot(s: Facts, cut: nat, o: Out, j: Job, from: nat)
    requires cut <= |s.log| && from <= |s.log| && AllGone(0, cut, s.evicted, s.acked)
    requires j.todo == [] && FlowOk(s, o, j) && CoversTo(s, o, j, from)
    ensures var j' := j.(todo := Replay(Ring(s.log, cut), from));
      FlowOk(s, o, j') && CoversTo(s, o, j', |s.log|)
  {
    var done := Chunks(o.sent);
    assert Flow(o, j) == done;
    forall q: nat | Reach(j.base, done) < q <= Max(cut, from)
      ensures Gone(q, s.evicted, s.acked)
    {
      assert q <= cut ==> Gone(q, s.evicted, s.acked);
    }
    GaplessSnapshot(j.base, done, s.log, Max(cut, from), s.evicted, s.acked);
    AuthenticSnapshot(done, s.log, Max(cut, from));
  }

  lemma CoversLess(s: Facts, o: Out, j: Job, n: int, m: int)
    requires CoversTo(s, o, j, n) && m <= n
    ensures CoversTo(s, o, j, m)
  {
  }

  // ---------- the handler's steps ----------

  /** Before the replay, a connection that puts at most one plain frame on the wire has sent nothing of the log. */
  lemma EarlyDelivers(s: Facts, c: Conn, d: Conn, f: Frame)
    requires Delivers(s, c) && BeforeReplay(c.pc) && !f.Stdout? && !f.AgentExited?
    requires BeforeReplay(d.pc) || d.pc.Release? || d.pc.Closed?
    requires d.out == c.out || d.out == Put(c.out, f)
    requires d.job.todo == c.job.todo && d.job.base <= s.high && d.job.mark <= |s.log|
    requires AllHonest(s.high, d.inbox)
    ensures Delivers(s, d)
  {
    assert Flow(c.out, c.job) == [];
    assert Flow(c.out, d.job) == [];
    if d.out != c.out {
      PlainFrame(c.out, d.job, f, s.high);
    }
  }

  lemma HelloDelivers(s: Facts, c: Conn, ok: bool)
    requires Delivers(s, c) && c.pc.AwaitHello? && HelloStep(c, ok).Some?
    ensures Delivers(s, HelloStep(c, ok).value)
  {
    EarlyDelivers(s, c, HelloStep(c, ok).value, CookieMismatch);
  }

  lemma SnapReplayDelivers(s: Facts, cut: nat, c: Conn)
    requires cut <= |s.log| && AllGone(0, cut, s.evicted, s.acked) && s.high <= |s.log|
    requires Delivers(s, c) && c.pc.SnapReplay?
    ensures Delivers(s, SnapReplayStep(c, Ring(s.log, cut)))
  {
    assert Flow(c.out, c.job) == [];
    TakeSnapshot(s, cut, c.out, c.job, c.job.base);
    CoversLess(s, c.out, SnapReplayStep(c, Ring(s.log, cut)).job, |s.log|, c.job.mark);
  }

  lemma SendReplayDelivers(s: Facts, c: Conn, ok: bool)
    requires Delivers(s, c) && c.pc.SendReplay?
    ensures Delivers(s, SendReplayStep(c, ok))
  {
    if c.job.todo != [] {
      ReplayChunkDelivers(s, c);
      DropTodo(s, c.out, c.job);
    }
  }

  lemma ReplayChunkDelivers(s: Facts, c: Conn)
    requires Delivers(s, c) && c.pc.SendReplay? && c.job.todo != []
    ensures Delivers(s, SendReplayStep(c, true))
  {
    PutFrame(c.out, Stdout(c.job.todo[0]), s.high);
    PutChunk(s, c.out, c.job);
    var d := SendReplayStep(c, true);
    assert FlowOk(s, d.out, d.job) && CoversTo(s, d.out, d.job, d.job.mark);
  }

  lemma SnapshotDelivers(s: Facts, cut: nat, c: Conn)
    requires cut <= |s.log| && AllGone(0, cut, s.evicted, s.acked)
    requires Delivers(s, c) && c.pc.Stream? && c.pc.writer.Snapshot?
    ensures Delivers(s, SnapshotStep(c, Ring(s.log, cut)))
  {
    TakeSnapshot(s, cut, c.out, c.job, c.job.mark);
    CoversLess(s, c.out, SnapshotStep(c, Ring(s.log, cut)).job, |s.log|, c.job.mark);
  }

  lemma ReadExitDelivers(s: Facts, c: Conn)
    requires Delivers(s, c) && Reading(c.pc) && (s.exit.status.Some? ==> s.exit.len <= |s.log|)
    ensures Delivers(s, At(c, Send(s.exit.status)))
  {
    if s.exit.status.Some? {
      CoversLess(s, c.out, c.job, |s.log|, s.exit.len);
    }
  }

  lemma SendChunkDelivers(s: Facts, c: Conn, ok: bool)
    requires Delivers(s, c) && Sending(c.pc) && c.job.todo != []
    ensures Delivers(s, SendChunkStep(c, ok))
  {
    PutChunk(s, c.out, c.job);
    var marked := c.job.(mark := Max(c.job.mark, c.job.todo[0].num));
    assert Flow(c.out, marked) == Flow(c.out, c.job);
    if ok {
      PutFrame(c.out, Stdout(c.job.todo[0]), s.high);
    } else {
      DropTodo(s, c.out, marked);
    }
  }

  lemma SendExitDelivers(s: Facts, c: Conn, ok: bool)
    requires Delivers(s, c) && Sending(c.pc) && c.pc.writer.exit.Some? && c.job.todo == []
    ensures Delivers(s, SendStep(c, c.pc.writer.exit, ok))
  {
    if ok {
      var f := AgentExited(c.pc.writer.exit.value);
      PlainFrame(c.out, c.job, f, s.high);
      assert Put(c.out, f).sent[|c.out.sent|] == f;
      assert Ended(s, Put(c.out, f), c.job);
    }
  }

  lemma SendDelivers(s: Facts, c: Conn, exit: Option<ExitStatus>, ok: bool)
    requires Delivers(s, c) && Sending(c.pc) && c.pc.writer.exit == exit
    ensures Delivers(s, SendStep(c, exit, ok))
  {
    if c.job.todo != [] {
      SendChunkDelivers(s, c, ok);
    } else if exit.Some? {
      SendExitDelivers(s, c, ok);
    }
  }

  lemma WriterDelivers(s: Facts, cut: nat, flags: Flags, i: nat, c: Conn, ok: bool)
    requires cut <= |s.log| && AllGone(0, cut, s.evicted, s.acked)
    requires s.exit.status.Some? ==> s.exit.len <= |s.log|
    requires Delivers(s, c) && c.pc.Stream? && WriterStep(Ring(s.log, cut), s.exit.status, flags, i, c, ok).Some?
    ensures Delivers(s, WriterStep(Ring(s.log, cut), s.exit.status, flags, i, c, ok).value.conn)
  {
    match c.pc.writer {
      case Snapshot => SnapshotDelivers(s, cut, c);
      case ReadExit => ReadExitDelivers(s, c);
      case Send(exit) => SendDelivers(s, c, exit, ok);
      case _ =>
    }
  }
}
