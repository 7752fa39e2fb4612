/** What holds in every run of the agent host: delivery to the Core, and the end of a session. */
module HostTheorems {
  import opened Prelude
  import opened Rings
  import opened Delivery
  import opened HostProtocol
  import opened HostDelivery

  // ---------- every step keeps the invariant ----------

  /** Connections other than `i` are untouched by a step of connection `i`. */
  lemma OthersDeliver(s: Host, t: Host, i: nat)
    requires Inv(s) && Grows(FactsOf(s), FactsOf(t))
    requires |t.conns| == |s.conns| && forall k :: 0 <= k < |s.conns| && k != i ==> t.conns[k] == s.conns[k]
    requires t.store.ring.log == s.store.ring.log
    requires i < |s.conns| ==> Delivers(FactsOf(t), t.conns[i])
    ensures forall k :: 0 <= k < |t.conns| ==> Delivers(FactsOf(t), t.conns[k])
  {
    forall k | 0 <= k < |t.conns| && k != i
      ensures Delivers(FactsOf(t), t.conns[k])
    {
      assert Delivers(FactsOf(s), s.conns[k]);
      DeliversGrows(FactsOf(s), FactsOf(t), s.conns[k]);
    }
  }

  lemma CoreGrows(s: Facts, t: Facts, received: seq<Chunk>)
    requires Grows(s, t) && CoreOk(s, received) && t.high == s.high
    ensures CoreOk(t, received)
  {
    GaplessMonotone(0, received, s.evicted, 0, t.evicted, 0);
    AuthenticGrows(s.log, t.log, received);
  }

  lemma RecordKeeps(s: Host, data: Bytes)
    requires Inv(s) && Apply(s, Record(data)).Some?
    ensures Inv(Apply(s, Record(data)).value)
  {
    var t := Apply(s, Record(data)).value;
    EvictionIsMinimal(s.store.ring.log + [data], s.store.ring.cut, s.store.capacity);
    forall q: nat | 0 < q <= t.store.ring.cut
      ensures Gone(q, t.store.evicted, t.store.acked)
    {
      assert q <= s.store.ring.cut ==> Gone(q, s.store.evicted, s.store.acked);
    }
    CoreGrows(FactsOf(s), FactsOf(t), s.core.received);
    forall k | 0 <= k < |t.conns|
      ensures Delivers(FactsOf(t), t.conns[k])
    {
      assert Delivers(FactsOf(s), s.conns[k]);
      DeliversGrows(FactsOf(s), FactsOf(t), s.conns[k]);
    }
  }

  lemma ChildExitKeeps(s: Host, status: ExitStatus)
    requires Inv(s) && Apply(s, ChildExit(status)).Some?
    ensures Inv(Apply(s, ChildExit(status)).value)
  {
    var t := Apply(s, ChildExit(status)).value;
    CoreGrows(FactsOf(s), FactsOf(t), s.core.received);
    OthersDeliver(s, t, |s.conns|);
  }

  lemma NotifyKeeps(s: Host)
    requires Inv(s) && Apply(s, Notify).Some?
    ensures Inv(Apply(s, Notify).value)
  {
    var t := Apply(s, Notify).value;
    forall k | 0 <= k < |t.conns|
      ensures Delivers(FactsOf(t), t.conns[k]) && (Reading(t.conns[k].pc) ==> t.flags.ringHeld == Some(k))
      ensures t.conns[k].out == s.conns[k].out
    {
      assert Delivers(FactsOf(s), s.conns[k]);
      assert t.conns[k] == Wake(s.conns[k]);
    }
    if s.flags.delivered {
      var i :| 0 <= i < |s.conns| && !NoExit(s.conns[i].out.sent);
      assert !NoExit(t.conns[i].out.sent);
    }
  }

  lemma FreshDelivers(s: Facts)
    ensures Delivers(s, FRESH_CONN)
  {
  }

  lemma ConnectKeeps(s: Host)
    requires Inv(s) && Apply(s, Connect).Some?
    ensures Inv(Apply(s, Connect).value)
  {
    var t := Apply(s, Connect).value;
    FreshDelivers(FactsOf(s));
    forall k | 0 <= k < |t.conns|
      ensures Delivers(FactsOf(t), t.conns[k]) && (Reading(t.conns[k].pc) ==> t.flags.ringHeld == Some(k))
    {
      if k < |s.conns| {
        assert t.conns[k] == s.conns[k];
      } else {
        assert t.conns[k] == FRESH_CONN;
      }
    }
    if s.flags.delivered {
      var i :| 0 <= i < |s.conns| && !NoExit(s.conns[i].out.sent);
      assert t.conns[i] == s.conns[i];
    }
  }

  lemma {:induction false} HonestSnoc(high: nat, inbox: seq<Inbound>, f: Inbound)
    requires AllHonest(high, inbox) && Honest(high, f)
    ensures AllHonest(high, inbox + [f])
  {
    if inbox != [] {
      HonestSnoc(high, inbox[1..], f);
      assert (inbox + [f])[1..] == inbox[1..] + [f];
    }
  }

  lemma {:induction false} HonestPrefix(high: nat, inbox: seq<Inbound>, keep: nat)
    requires AllHonest(high, inbox) && keep <= |inbox|
    ensures AllHonest(high, inbox[..keep])
  {
    if keep > 0 {
      HonestPrefix(high, inbox[1..], keep - 1);
      assert inbox[..keep][1..] == inbox[1..][..keep - 1];
    }
  }

  /** A step that changes one connection, and sends nothing on it. */
  lemma OneConnKeeps(s: Host, t: Host, i: nat)
    requires Inv(s) && i < |s.conns| && |t.conns| == |s.conns| && t == s.(conns := s.conns[i := t.conns[i]])
    requires t.conns[i].out.sent == s.conns[i].out.sent && t.conns[i].pc == s.conns[i].pc
    requires Delivers(FactsOf(s), t.conns[i])
    ensures Inv(t)
  {
    OthersDeliver(s, t, i);
    if s.flags.delivered {
      var k :| 0 <= k < |s.conns| && !NoExit(s.conns[k].out.sent);
      assert t.conns[k].out.sent == s.conns[k].out.sent;
    }
  }

  lemma PeerKeeps(s: Host, i: nat, f: Inbound)
    requires Inv(s) && Apply(s, Peer(i, f)).Some?
    ensures Inv(Apply(s, Peer(i, f)).value)
  {
    assert Delivers(FactsOf(s), s.conns[i]);
    HonestSnoc(s.core.high, s.conns[i].inbox, f);
    OneConnKeeps(s, Apply(s, Peer(i, f)).value, i);
  }

  lemma PeerCloseKeeps(s: Host, i: nat, keep: nat)
    requires Inv(s) && Apply(s, PeerClose(i, keep)).Some?
    ensures Inv(Apply(s, PeerClose(i, keep)).value)
  {
    assert Delivers(FactsOf(s), s.conns[i]);
    HonestPrefix(s.core.high, s.conns[i].inbox, keep);
    OneConnKeeps(s, Apply(s, PeerClose(i, keep)).value, i);
  }

  // ---------- the Core takes a frame ----------

  lemma {:induction false} ChunksPrefix(frames: seq<Frame>, n: nat)
    requires n <= |frames|
    ensures |Chunks(frames[..n])| <= |Chunks(frames)|
    ensures Chunks(frames)[..|Chunks(frames[..n])|] == Chunks(frames[..n])
  {
    if n == |frames| {
      assert frames[..n] == frames;
    } else {
      var init := frames[..|frames| - 1];
      ChunksPrefix(init, n);
      assert init[..n] == frames[..n];
    }
  }

  /** Where the next chunk on a wire lies in the flow. */
  lemma NextInFlow(o: Out, j: Job)
    requires o.read < |o.sent| && o.sent[o.read].Stdout?
    ensures var n := |Chunks(o.sent[..o.read])|;
      && n < |Flow(o, j)| && Flow(o, j)[n] == o.sent[o.read].chunk
      && Flow(o, j)[..n] == Chunks(o.sent[..o.read])
      && Chunks(o.sent[..o.read + 1]) == Chunks(o.sent[..o.read]) + [o.sent[o.read].chunk]
  {
    var taken, chunk := Chunks(o.sent[..o.read]), o.sent[o.read].chunk;
    assert o.sent[..o.read + 1][..o.read] == o.sent[..o.read];
    assert Chunks(o.sent[..o.read + 1]) == taken + [chunk];
    ChunksPrefix(o.sent, o.read + 1);
    assert (taken + [chunk])[..|taken|] == taken && (taken + [chunk])[|taken|] == chunk;
    assert Chunks(o.sent)[..|taken| + 1][..|taken|] == Chunks(o.sent)[..|taken|];
    assert Chunks(o.sent)[..|taken| + 1][|taken|] == Chunks(o.sent)[|taken|];
    assert Flow(o, j)[..|taken|] == Chunks(o.sent)[..|taken|];
  }

  /** The next chunk on a wire skips only what was evicted, seen from the Core's watermark. */
  lemma NextChunk(s: Facts, o: Out, j: Job, received: seq<Chunk>)
    requires FlowOk(s, o, j) && OutOk(s.high, o) && CoreOk(s, received) && s.acked <= s.high
    requires o.read < |o.sent| && o.sent[o.read].Stdout?
    ensures var chunk := o.sent[o.read].chunk;
      && CoreOk(s.(high := Max(s.high, chunk.num)), received + [chunk])
      && Reach(0, Chunks(o.sent[..o.read + 1])) <= Max(s.high, chunk.num) <= Max(s.high, |s.log|)
  {
    var chunk := o.sent[o.read].chunk;
    var taken := Chunks(o.sent[..o.read]);
    NextInFlow(o, j);
    GaplessAt(j.base, Flow(o, j), |taken|, s.evicted, s.acked);
    AuthenticAt(s.log, Flow(o, j), |taken|);
    ReachAbove(j.base, taken);
    SkippedIsEvicted(s, Reach(j.base, taken), chunk.num - 1);
    GaplessSnoc(0, received, chunk, s.evicted, 0);
    ReachSnoc(0, taken, chunk);
    AuthenticSnoc(s.log, received, chunk);
  }

  lemma SkippedIsEvicted(s: Facts, lo: nat, hi: int)
    requires AllGone(lo, hi, s.evicted, s.acked) && lo <= s.high && s.acked <= s.high
    ensures AllGone(s.high, hi, s.evicted, 0)
  {
    forall q: nat | s.high < q <= hi
      ensures Gone(q, s.evicted, 0)
    {
      assert Gone(q, s.evicted, s.acked);
    }
  }

  lemma ReachSnoc(from: nat, a: seq<Chunk>, c: Chunk)
    ensures Reach(from, a + [c]) == Max(Reach(from, a), c.num)
  {
    assert (a + [c])[..|a + [c]| - 1] == a;
  }

  lemma TakenDelivers(s: Host, i: nat)
    requires Inv(s) && Apply(s, PeerRead(i)).Some?
    ensures var t := Apply(s, PeerRead(i)).value;
      && Delivers(FactsOf(t), t.conns[i])
      && CoreOk(FactsOf(t), t.core.received)
      && s.core.high <= t.core.high <= |t.store.ring.log|
  {
    var t := Apply(s, PeerRead(i)).value;
    var o, j := s.conns[i].out, s.conns[i].job;
    assert Delivers(FactsOf(s), s.conns[i]);
    if o.sent[o.read].Stdout? {
      NextChunk(FactsOf(s), o, j, s.core.received);
      assert FactsOf(t) == FactsOf(s).(high := t.core.high);
    } else {
      PlainIsSkipped(o);
    }
    DeliversGrows(FactsOf(s), FactsOf(t), s.conns[i]);
    ReadOn(FactsOf(t), s.conns[i]);
  }

  lemma PlainIsSkipped(o: Out)
    requires o.read < |o.sent| && !o.sent[o.read].Stdout?
    ensures Chunks(o.sent[..o.read + 1]) == Chunks(o.sent[..o.read])
  {
    assert o.sent[..o.read + 1][..o.read] == o.sent[..o.read];
    assert Chunks(o.sent[..o.read + 1]) == Chunks(o.sent[..o.read]) + [];
  }

  lemma ReadOn(s: Facts, c: Conn)
    requires Delivers(s, c) && c.out.read < |c.out.sent| && Reach(0, Chunks(c.out.sent[..c.out.read + 1])) <= s.high
    ensures Delivers(s, c.(out := c.out.(read := c.out.read + 1)))
  {
    assert Flow(c.out.(read := c.out.read + 1), c.job) == Flow(c.out, c.job);
  }

  /** What was announced stays announced. */
  lemma ExitStaysKnown(s: Host, t: Host)
    requires ExitOk(s) && |t.conns| == |s.conns|
    requires t.exit == s.exit && t.supervisor == s.supervisor && t.flags.delivered == s.flags.delivered
    requires |s.store.ring.log| <= |t.store.ring.log|
    requires forall k :: 0 <= k < |s.conns| && NoExit(t.conns[k].out.sent) ==> NoExit(s.conns[k].out.sent)
    ensures ExitOk(t)
  {
    if s.flags.delivered {
      var k :| 0 <= k < |s.conns| && !NoExit(s.conns[k].out.sent);
      assert !NoExit(t.conns[k].out.sent);
    }
  }

  lemma PeerReadKeeps(s: Host, i: nat)
    requires Inv(s) && Apply(s, PeerRead(i)).Some?
    ensures Inv(Apply(s, PeerRead(i)).value)
  {
    var t := Apply(s, PeerRead(i)).value;
    TakenDelivers(s, i);
    OthersDeliver(s, t, i);
    ExitStaysKnown(s, t);
  }

  // ---------- the handler and the reader ----------

  lemma ConnStepDelivers(s: Host, i: nat, ok: bool)
    requires Inv(s) && Apply(s, Handle(i, ok)).Some?
    ensures Delivers(FactsOf(s), Apply(s, Handle(i, ok)).value.conns[i])
  {
    var c := s.conns[i];
    var f := FactsOf(s);
    var ring := s.store.ring;
    assert Delivers(f, c);
    assert ring == Ring(f.log, ring.cut);
    match c.pc {
      case AwaitHello => HelloDelivers(f, c, ok);
      case Claim => EarlyDelivers(f, c, ClaimStep(c, s.flags, ok).conn, AlreadyConnected);
      case SnapLast => EarlyDelivers(f, c, Apply(s, Handle(i, ok)).value.conns[i], Pong);
      case SendReady => EarlyDelivers(f, c, Apply(s, Handle(i, ok)).value.conns[i], Ready(c.job.mark));
      case SnapReplay => SnapReplayDelivers(f, ring.cut, c);
      case SendReplay => SendReplayDelivers(f, c, ok);
      case Stream(_, _) => WriterDelivers(f, ring.cut, s.flags, i, c, ok);
      case Release =>
      case Closed =>
    }
  }

  /** Nothing is taken off a wire: once AgentExited is sent, it stays sent. */
  lemma ExitStays(s: Host, i: nat, ok: bool)
    requires Inv(s) && Apply(s, Handle(i, ok)).Some?
    ensures NoExit(Apply(s, Handle(i, ok)).value.conns[i].out.sent) ==> NoExit(s.conns[i].out.sent)
    ensures Apply(s, Handle(i, ok)).value.flags.delivered && !s.flags.delivered ==>
      !NoExit(Apply(s, Handle(i, ok)).value.conns[i].out.sent)
  {
    var o, j := s.conns[i].out, s.conns[i].job;
    assert Delivers(FactsOf(s), s.conns[i]);
    assert EndOk(FactsOf(s), s.conns[i].pc, o, j);
  }

  lemma HandleIsLocal(s: Host, i: nat, ok: bool)
    requires Apply(s, Handle(i, ok)).Some?
    ensures var t := Apply(s, Handle(i, ok)).value;
      && i < |s.conns| && |t.conns| == |s.conns|
      && (forall k :: 0 <= k < |s.conns| && k != i ==> t.conns[k] == s.conns[k])
      && t == s.(flags := t.flags, conns := t.conns)
      && (s.flags.delivered ==> t.flags.delivered)
  {
  }

  lemma HandleKeepsExit(s: Host, i: nat, ok: bool)
    requires Inv(s) && Apply(s, Handle(i, ok)).Some?
    ensures ExitOk(Apply(s, Handle(i, ok)).value)
  {
    var t := Apply(s, Handle(i, ok)).value;
    HandleIsLocal(s, i, ok);
    ExitStays(s, i, ok);
    if s.flags.delivered {
      var k :| 0 <= k < |s.conns| && !NoExit(s.conns[k].out.sent);
      assert !NoExit(t.conns[k].out.sent);
    }
  }

  lemma HandleKeeps(s: Host, i: nat, ok: bool)
    requires Inv(s) && Apply(s, Handle(i, ok)).Some?
    ensures Inv(Apply(s, Handle(i, ok)).value)
  {
    var t := Apply(s, Handle(i, ok)).value;
    HandleIsLocal(s, i, ok);
    ConnStepDelivers(s, i, ok);
    OthersDeliver(s, t, i);
    HandleKeepsExit(s, i, ok);
    HandleKeepsLock(s, i, ok);
  }

  /** The ring lock is free, or held by the one writer between its two reads. */
  lemma HandleKeepsLock(s: Host, i: nat, ok: bool)
    requires Inv(s) && Apply(s, Handle(i, ok)).Some?
    ensures var t := Apply(s, Handle(i, ok)).value;
      forall k :: 0 <= k < |t.conns| && Reading(t.conns[k].pc) ==> t.flags.ringHeld == Some(k)
  {
    var t := Apply(s, Handle(i, ok)).value;
    LockEffect(s.store.ring, s.exit.status, s.flags, i, s.conns[i], ok);
    forall k | 0 <= k < |t.conns| && Reading(t.conns[k].pc)
      ensures t.flags.ringHeld == Some(k)
    {
      assert k != i ==> t.conns[k] == s.conns[k];
    }
  }

  lemma LockEffect(ring: Ring, exited: Option<ExitStatus>, flags: Flags, i: nat, c: Conn, ok: bool)
    requires HandleStep(ring, exited, flags, i, c, ok).Some?
    ensures var e := HandleStep(ring, exited, flags, i, c, ok).value;
      && (Reading(e.conn.pc) ==> e.flags.ringHeld == Some(i))
      && (e.flags.ringHeld == flags.ringHeld || flags.ringHeld == None || Reading(c.pc))
  {
  }

  /** After the end of the session nothing more can be written: the reader's Pong finds the write side shut. */
  lemma ReadDelivers(s: Host, i: nat, ok: bool)
    requires Inv(s) && Apply(s, Read(i, ok)).Some?
    ensures var t := Apply(s, Read(i, ok)).value;
      && StoreOk(t.store, t.core.high)
      && Grows(FactsOf(s), FactsOf(t))
      && Delivers(FactsOf(s), t.conns[i])
      && (NoExit(t.conns[i].out.sent) <==> NoExit(s.conns[i].out.sent))
  {
    assert Delivers(FactsOf(s), s.conns[i]);
    ReaderKeepsStore(s.store, s.flags, s.conns[i], ok, s.core.high);
    ReaderDelivers(FactsOf(s), s.store, s.flags, s.conns[i], ok);
  }

  /** An acknowledgement the peer may send prunes what it covers, and no more. */
  lemma ReaderKeepsStore(store: Store, flags: Flags, c: Conn, ok: bool, high: nat)
    requires StoreOk(store, high) && AllHonest(high, c.inbox) && ReadStep(store, flags, c, ok).Some?
    ensures var after := ReadStep(store, flags, c, ok).value.store;
      && StoreOk(after, high)
      && after.ring.log == store.ring.log && after.evicted == store.evicted && after.acked >= store.acked
  {
    var after := ReadStep(store, flags, c, ok).value.store;
    if c.inbox != [] && c.inbox[0].Ack? {
      forall q: nat | 0 < q <= after.ring.cut
        ensures Gone(q, after.evicted, after.acked)
      {
        assert q <= store.ring.cut ==> Gone(q, store.evicted, store.acked);
      }
    }
  }

  lemma ReaderDelivers(s: Facts, store: Store, flags: Flags, c: Conn, ok: bool)
    requires Delivers(s, c) && ReadStep(store, flags, c, ok).Some?
    ensures var d := ReadStep(store, flags, c, ok).value.conn;
      Delivers(s, d) && (NoExit(d.out.sent) <==> NoExit(c.out.sent))
  {
    if c.inbox != [] && c.inbox[0].Ping? && ok {
      PongDelivers(s, c);
    } else {
      QuietDelivers(s, c, ReadStep(store, flags, c, ok).value.conn);
    }
  }

  lemma QuietDelivers(s: Facts, c: Conn, d: Conn)
    requires Delivers(s, c) && c.pc.Stream? && d.out == c.out && d.job == c.job
    requires d.pc == c.pc || d.pc == c.pc.(reading := false)
    requires d.inbox == c.inbox || (c.inbox != [] && d.inbox == c.inbox[1..])
    ensures Delivers(s, d)
  {
  }

  lemma PongDelivers(s: Facts, c: Conn)
    requires Delivers(s, c) && c.pc.Stream? && c.inbox != []
    requires !c.pc.writer.Shutdown? && !c.pc.writer.Deliver? && !c.out.shut
    ensures Delivers(s, c.(inbox := c.inbox[1..], out := Put(c.out, Pong)))
    ensures NoExit(c.out.sent) && NoExit(Put(c.out, Pong).sent)
  {
    PutFrame(c.out, Pong, s.high);
    assert Flow(Put(c.out, Pong), c.job) == Flow(c.out, c.job);
  }

  lemma ReadKeeps(s: Host, i: nat, ok: bool)
    requires Inv(s) && Apply(s, Read(i, ok)).Some?
    ensures Inv(Apply(s, Read(i, ok)).value)
  {
    var t := Apply(s, Read(i, ok)).value;
    ReadDelivers(s, i, ok);
    ReadIsLocal(s, i, ok);
    CoreGrows(FactsOf(s), FactsOf(t), s.core.received);
    DeliversGrows(FactsOf(s), FactsOf(t), t.conns[i]);
    OthersDeliver(s, t, i);
    ExitStaysKnown(s, t);
  }

  lemma ReadIsLocal(s: Host, i: nat, ok: bool)
    requires Apply(s, Read(i, ok)).Some?
    ensures var t := Apply(s, Read(i, ok)).value;
      && i < |s.conns| && |t.conns| == |s.conns|
      && (forall k :: 0 <= k < |s.conns| && k != i ==> t.conns[k] == s.conns[k])
      && t == s.(store := t.store, conns := t.conns)
      && t.store.ring.log == s.store.ring.log
      && (Reading(t.conns[i].pc) <==> Reading(s.conns[i].pc))
  {
  }

  lemma StepKeeps(s: Host, step: Step)
    requires Inv(s) && Apply(s, step).Some?
    ensures Inv(Apply(s, step).value)
  {
    match step {
      case Record(data) => RecordKeeps(s, data);
      case Notify => NotifyKeeps(s);
      case ChildExit(status) => ChildExitKeeps(s, status);
      case ReturnEarly =>
      case Connect => ConnectKeeps(s);
      case Peer(i, f) => PeerKeeps(s, i, f);
      case PeerRead(i) => PeerReadKeeps(s, i);
      case PeerClose(i, keep) => PeerCloseKeeps(s, i, keep);
      case Handle(i, ok) => HandleKeeps(s, i, ok);
      case Read(i, ok) => ReadKeeps(s, i, ok);
      case SeeExit =>
      case Leave =>
    }
  }

  lemma {:induction false} RunKeeps(capacity: nat, steps: seq<Step>)
    requires Exec(Init(capacity), steps).Some?
    ensures Inv(Exec(Init(capacity), steps).value)
  {
    if steps != [] {
      RunKeeps(capacity, steps[..|steps| - 1]);
      StepKeeps(Exec(Init(capacity), steps[..|steps| - 1]).value, steps[|steps| - 1]);
    }
  }

  // ---------- what the Core has taken ----------

  /** The receiver that ignores every chunk at or below its watermark. */
  function Dedup(received: seq<Chunk>): seq<Chunk> {
    if received == [] then [] else
    var init, c := received[..|received| - 1], received[|received| - 1];
    if c.num > Reach(0, init) then Dedup(init) + [c] else Dedup(init)
  }

  ghost predicate Rising(chunks: seq<Chunk>) {
    forall a, b :: 0 <= a < b < |chunks| ==> chunks[a].num < chunks[b].num
  }

  ghost predicate Has(chunks: seq<Chunk>, q: nat) {
    exists k :: 0 <= k < |chunks| && chunks[k].num == q
  }

  lemma {:induction false} DedupIsExact(log: seq<Bytes>, received: seq<Chunk>, evicted: set<nat>)
    requires AllAuthentic(log, received) && Gapless(0, received, evicted, 0)
    ensures var d := Dedup(received);
      && Rising(d)
      && (forall k :: 0 <= k < |d| ==> Authentic(log, d[k]) && d[k].num <= Reach(0, received))
      && (forall q :: 1 <= q <= Reach(0, received) ==> Has(d, q) || q in evicted)
  {
    if received != [] {
      var init, c := received[..|received| - 1], received[|received| - 1];
      DedupIsExact(log, init, evicted);
      var d := Dedup(received);
      forall q | 1 <= q <= Reach(0, received)
        ensures Has(d, q) || q in evicted
      {
        if q <= Reach(0, init) {
          if Has(Dedup(init), q) {
            var k :| 0 <= k < |Dedup(init)| && Dedup(init)[k].num == q;
            assert d[k].num == q;
          }
        } else if q == c.num {
          assert d[|d| - 1].num == q;
        } else {
          assert Gone(q, evicted, 0);
        }
      }
    }
  }

  /**
   In every run, whatever disconnections, reconnections from any watermark the Core has reached,
   acknowledgements and interleavings it has: a receiver that drops what is at or below its
   watermark takes the recorded chunks unaltered, in order and at most once, and each number it
   skips was evicted for capacity.
   */
  lemma CoreSkipsOnlyEvicted(capacity: nat, steps: seq<Step>)
    requires Exec(Init(capacity), steps).Some?
    ensures var s := Exec(Init(capacity), steps).value;
      var d := Dedup(s.core.received);
      && Rising(d)
      && (forall k :: 0 <= k < |d| ==> Authentic(s.store.ring.log, d[k]) && d[k].num <= s.core.high)
      && (forall q :: 1 <= q <= s.core.high ==> Has(d, q) || q in s.store.evicted)
      && (forall q :: q in s.store.evicted ==> q <= s.store.ring.cut)
  {
    RunKeeps(capacity, steps);
    var s := Exec(Init(capacity), steps).value;
    DedupIsExact(s.store.ring.log, s.core.received, s.store.evicted);
  }

  /** When nothing was evicted, the receiver holds the log exactly, up to its watermark. */
  lemma CoreIsLossless(capacity: nat, steps: seq<Step>)
    requires Exec(Init(capacity), steps).Some?
    requires Exec(Init(capacity), steps).value.store.evicted == {}
    ensures var s := Exec(Init(capacity), steps).value;
      && s.core.high <= |s.store.ring.log|
      && Dedup(s.core.received) == Numbered(s.store.ring.log[..s.core.high], 0)
  {
    RunKeeps(capacity, steps);
    CoreSkipsOnlyEvicted(capacity, steps);
    var s := Exec(Init(capacity), steps).value;
    var d := Dedup(s.core.received);
    RisingIsCounting(d, s.core.high, |d|);
    assert |d| < s.core.high ==> Has(d, |d| + 1);
    if |d| > 0 {
      assert d[|d| - 1].num == |d|;
    }
    CountingIsLog(s.store.ring.log, d, s.core.high);
  }

  lemma CountingIsLog(log: seq<Bytes>, d: seq<Chunk>, high: nat)
    requires |d| == high <= |log|
    requires forall k :: 0 <= k < |d| ==> Authentic(log, d[k]) && d[k].num == k + 1
    ensures d == Numbered(log[..high], 0)
  {
    var all := Numbered(log[..high], 0);
    assert |all| == high;
    forall k | 0 <= k < high
      ensures d[k] == all[k]
    {
      assert Authentic(log, d[k]);
    }
  }

  lemma {:induction false} RisingIsCounting(d: seq<Chunk>, high: nat, n: nat)
    requires Rising(d) && n <= |d| && forall k :: 0 <= k < |d| ==> 1 <= d[k].num <= high
    requires forall q :: 1 <= q <= high ==> Has(d, q)
    ensures forall k :: 0 <= k < n ==> d[k].num == k + 1
  {
    if n > 0 {
      RisingIsCounting(d, high, n - 1);
      assert n >= 2 ==> d[n - 2].num < d[n - 1].num;
      assert Has(d, n);
      var k :| 0 <= k < |d| && d[k].num == n;
      assert n - 1 <= k;
      assert d[n - 1].num <= d[k].num;
    }
  }

  // ---------- the end of a session ----------

  /**
   On every connection, AgentExited is the last frame, carries the child's status, and is sent
   only after every chunk recorded before the exit flag was set, but for those at or below the
   Hello's watermark, evicted, or acknowledged.
   */
  lemma ExitIsLastAndComplete(capacity: nat, steps: seq<Step>, i: nat, k: nat)
    requires Exec(Init(capacity), steps).Some?
    requires var s := Exec(Init(capacity), steps).value;
      i < |s.conns| && k < |s.conns[i].out.sent| && s.conns[i].out.sent[k].AgentExited?
    ensures var s := Exec(Init(capacity), steps).value;
      var c := s.conns[i];
      && k == |c.out.sent| - 1
      && s.exit.status == Some(c.out.sent[k].status)
      && forall q :: 1 <= q <= s.exit.len ==>
           q <= c.job.base || Has(Chunks(c.out.sent), q) || Gone(q, s.store.evicted, s.store.acked)
  {
    RunKeeps(capacity, steps);
    var s := Exec(Init(capacity), steps).value;
    var c := s.conns[i];
    assert Delivers(FactsOf(s), c);
    ExitIsNotHidden(c.out.sent, k);
    ExitIsNotHidden(c.out.sent[..|c.out.sent| - 1], k);
    assert Flow(c.out, c.job) == Chunks(c.out.sent);
    forall q | 1 <= q <= s.exit.len && q > c.job.base
      ensures Has(Chunks(c.out.sent), q) || Gone(q, s.store.evicted, s.store.acked)
    {
      if q <= Reach(c.job.base, Chunks(c.out.sent)) {
        GaplessCovers(c.job.base, Chunks(c.out.sent), q, s.store.evicted, s.store.acked);
      }
    }
  }

  lemma {:induction false} ExitIsNotHidden(frames: seq<Frame>, k: nat)
    requires k < |frames| ==> frames[k].AgentExited?
    ensures k < |frames| ==> !NoExit(frames)
  {
    if k < |frames| - 1 {
      ExitIsNotHidden(frames[..|frames| - 1], k);
    }
  }

  lemma {:induction false} ExitIsSomewhere(frames: seq<Frame>) returns (k: nat)
    requires !NoExit(frames)
    ensures k < |frames| && frames[k].AgentExited?
  {
    if NoExit(frames[..|frames| - 1]) {
      k := |frames| - 1;
    } else {
      k := ExitIsSomewhere(frames[..|frames| - 1]);
    }
  }

  /** `delivered_exit` is set only when AgentExited is the last frame of some connection. */
  lemma DeliveredMeansSent(capacity: nat, steps: seq<Step>) returns (i: nat)
    requires Exec(Init(capacity), steps).Some? && Exec(Init(capacity), steps).value.flags.delivered
    ensures var s := Exec(Init(capacity), steps).value;
      && i < |s.conns| && s.conns[i].out.sent != []
      && s.conns[i].out.sent[|s.conns[i].out.sent| - 1].AgentExited?
  {
    RunKeeps(capacity, steps);
    var s := Exec(Init(capacity), steps).value;
    i :| 0 <= i < |s.conns| && !NoExit(s.conns[i].out.sent);
    var k := ExitIsSomewhere(s.conns[i].out.sent);
    ExitIsLastAndComplete(capacity, steps, i, k);
  }

  /** Once the Core has read AgentExited, it has taken all that was recorded before the exit, but for what was evicted. */
  lemma HeardExitMeansHeardAll(capacity: nat, steps: seq<Step>, i: nat)
    requires Exec(Init(capacity), steps).Some?
    requires var s := Exec(Init(capacity), steps).value;
      && i < |s.conns| && s.conns[i].out.sent != []
      && s.conns[i].out.read == |s.conns[i].out.sent|
      && s.conns[i].out.sent[s.conns[i].out.read - 1].AgentExited?
    ensures var s := Exec(Init(capacity), steps).value;
      forall q :: 1 <= q <= s.exit.len ==> Has(Dedup(s.core.received), q) || q in s.store.evicted
  {
    RunKeeps(capacity, steps);
    CoreSkipsOnlyEvicted(capacity, steps);
    var s := Exec(Init(capacity), steps).value;
    var o := s.conns[i].out;
    assert Delivers(FactsOf(s), s.conns[i]);
    ExitIsLastAndComplete(capacity, steps, i, |o.sent| - 1);
    assert o.sent[..o.read] == o.sent;
    forall q | 1 <= q <= s.exit.len && q > s.core.high
      ensures q in s.store.evicted
    {
      if Has(Chunks(o.sent), q) {
        var k :| 0 <= k < |Chunks(o.sent)| && Chunks(o.sent)[k].num == q;
        ReachBounds(0, Chunks(o.sent), k);
      }
    }
  }
}
