/**
 Whether recorded output reaches a connected Core. A chunk wakes the writers that wait when it is
 notified; one that looked at the ring before and waits after hears of it with the next chunk only.
 */
module HostOutput {
  import opened Prelude
  import opened Rings
  import opened Delivery
  import opened HostProtocol
  import opened HostDelivery
  import opened HostTheorems
  import opened HostSlots
  import opened HostDuplicates
  import opened HostProgress
  import opened HostRepeats
  import opened HostHandshake

  /** Nothing more comes from the child: no output, and no exit. */
  predicate ChildIsQuiet(steps: seq<Step>) {
    forall k :: 0 <= k < |steps| ==> !steps[k].Record? && !steps[k].ChildExit?
  }

  ghost predicate Sent(s: Host, i: nat, q: nat) {
    i < |s.conns| && Has(Chunks(s.conns[i].out.sent), q)
  }

  /** Some continuation in which the child is quiet puts the chunk on the connection. */
  ghost predicate CanBeSent(s: Host, i: nat, q: nat) {
    exists more :: ChildIsQuiet(more) && Exec(s, more).Some? && Sent(Exec(s, more).value, i, q)
  }

  lemma SentNow(s: Host, i: nat, q: nat)
    requires Sent(s, i, q)
    ensures CanBeSent(s, i, q)
  {
    assert ChildIsQuiet([]) && Exec(s, []) == Some(s);
  }

  lemma SentLater(s: Host, step: Step, i: nat, q: nat)
    requires !step.Record? && !step.ChildExit? && Apply(s, step).Some? && CanBeSent(Apply(s, step).value, i, q)
    ensures CanBeSent(s, i, q)
  {
    var t := Apply(s, step).value;
    var more :| ChildIsQuiet(more) && Exec(t, more).Some? && Sent(Exec(t, more).value, i, q);
    ExecFirst(s, step, more);
    assert ChildIsQuiet([step] + more);
  }

  lemma {:induction false} DrainsTo(s: Host, i: nat, q: nat)
    requires i < |s.conns| && Sending(s.conns[i].pc) && Has(s.conns[i].job.todo, q)
    ensures CanBeSent(s, i, q)
    decreases |s.conns[i].job.todo|
  {
    var c, step := s.conns[i], Handle(i, true);
    var chunk := c.job.todo[0];
    var t := Apply(s, step).value;
    assert t.conns[i] == SendChunkStep(c, true);
    if chunk.num == q {
      ChunksSnoc(c.out.sent, Stdout(chunk));
      assert Chunks(t.conns[i].out.sent)[|Chunks(c.out.sent)|].num == q;
      SentNow(t, i, q);
    } else {
      var k :| 0 <= k < |c.job.todo| && c.job.todo[k].num == q;
      assert c.job.todo[1..][k - 1].num == q;
      DrainsTo(t, i, q);
    }
    SentLater(s, step, i, q);
  }

  /** The writer has still to pass the chunk, and the ring holds it. */
  predicate Ahead(s: Host, i: nat, q: nat) {
    i < |s.conns| && Max(s.store.ring.cut, s.conns[i].job.mark) < q <= |s.store.ring.log|
  }

  lemma SnapshotSends(s: Host, i: nat, q: nat)
    requires Sane(s) && Ahead(s, i, q) && s.conns[i].pc.Stream? && s.conns[i].pc.writer.Snapshot?
    ensures CanBeSent(s, i, q)
  {
    var step := Handle(i, true);
    LockIsFree(s, i);
    var t := Apply(s, step).value;
    assert t.conns[i] == SnapshotStep(s.conns[i], s.store.ring);
    NumberedHas(s.store.ring.log, Max(s.store.ring.cut, s.conns[i].job.mark), q);
    var u := Apply(t, step).value;
    assert u.conns[i] == At(t.conns[i], Send(s.exit.status));
    DrainsTo(u, i, q);
    SentLater(t, step, i, q);
    SentLater(s, step, i, q);
  }

  predicate Waiting(s: Host, i: nat) {
    i < |s.conns| && s.conns[i].pc.Stream? && s.conns[i].pc.writer.Wait?
  }

  lemma NotifiedSends(s: Host, i: nat, q: nat)
    requires Sane(s) && Ahead(s, i, q) && Waiting(s, i) && s.owed > 0
    ensures CanBeSent(s, i, q)
  {
    var t := Apply(s, Notify).value;
    SaneStep(s, Notify);
    assert t.conns[i] == Wake(s.conns[i]);
    SnapshotSends(t, i, q);
    SentLater(s, Notify, i, q);
  }

  // ---------- a writer that nobody wakes ----------

  ghost predicate Asleep(s: Host, i: nat, sent: seq<Chunk>) {
    Waiting(s, i) && s.owed == 0 && Chunks(s.conns[i].out.sent) == sent
  }

  lemma AsleepStep(s: Host, i: nat, sent: seq<Chunk>, step: Step)
    requires Asleep(s, i, sent) && !step.Record? && !step.ChildExit? && Apply(s, step).Some?
    ensures Asleep(Apply(s, step).value, i, sent)
  {
    if step.Read? && step.conn == i {
      ReaderAsleep(s, i, step.ok);
    } else {
      Elsewhere(s, step, i);
      NobodyOwes(s, step);
    }
  }

  lemma ReaderSendsNoChunk(store: Store, flags: Flags, c: Conn, ok: bool)
    requires ReadStep(store, flags, c, ok).Some? && c.pc.Stream? && c.pc.writer.Wait?
    ensures var d := ReadStep(store, flags, c, ok).value.conn;
      d.pc.Stream? && d.pc.writer.Wait? && Chunks(d.out.sent) == Chunks(c.out.sent)
  {
    var d := ReadStep(store, flags, c, ok).value.conn;
    ChunksSnoc(c.out.sent, Pong);
    assert d.out == c.out || d.out == Put(c.out, Pong);
    assert Chunks(c.out.sent) + [] == Chunks(c.out.sent);
  }

  lemma ReaderAsleep(s: Host, i: nat, ok: bool)
    requires Waiting(s, i) && Apply(s, Read(i, ok)).Some?
    ensures var t := Apply(s, Read(i, ok)).value;
      Waiting(t, i) && t.owed == s.owed && Chunks(t.conns[i].out.sent) == Chunks(s.conns[i].out.sent)
  {
    ReadIsLocal(s, i, ok);
    ReaderSendsNoChunk(s.store, s.flags, s.conns[i], ok);
  }

  lemma NobodyOwes(s: Host, step: Step)
    requires s.owed == 0 && !step.Record? && !step.ChildExit? && Apply(s, step).Some?
    ensures Apply(s, step).value.owed == 0 && !step.Notify?
  {
    match step
    case Handle(j, ok) => HandleIsLocal(s, j, ok);
    case Read(j, ok) => ReadIsLocal(s, j, ok);
    case _ =>
  }

  lemma {:induction false} AsleepForEver(s: Host, i: nat, sent: seq<Chunk>, steps: seq<Step>)
    requires Asleep(s, i, sent) && ChildIsQuiet(steps) && Exec(s, steps).Some?
    ensures Asleep(Exec(s, steps).value, i, sent)
  {
    if steps != [] {
      AsleepForEver(s, i, sent, steps[..|steps| - 1]);
      AsleepStep(Exec(s, steps[..|steps| - 1]).value, i, sent, steps[|steps| - 1]);
    }
  }

  /**
   In every run, for every connection whose writer waits and every chunk it has still to pass: the chunk
   can be sent while the child is quiet if and only if a call of `notify_waiters` is still to come.
   */
  lemma OutputReachesExactly(capacity: nat, steps: seq<Step>, i: nat, q: nat)
    requires Exec(Init(capacity), steps).Some?
    requires var s := Exec(Init(capacity), steps).value; Waiting(s, i) && Ahead(s, i, q) && !Sent(s, i, q)
    ensures var s := Exec(Init(capacity), steps).value; CanBeSent(s, i, q) <==> s.owed > 0
  {
    SaneInRun(capacity, steps);
    var s := Exec(Init(capacity), steps).value;
    if s.owed > 0 {
      NotifiedSends(s, i, q);
    } else {
      forall more | ChildIsQuiet(more) && Exec(s, more).Some? ensures !Sent(Exec(s, more).value, i, q) {
        AsleepForEver(s, i, Chunks(s.conns[i].out.sent), more);
      }
    }
  }

  /** A chunk that fits the ring and is recorded while the writer waits reaches the connection. */
  lemma RecordedReachesWaiting(capacity: nat, steps: seq<Step>, i: nat, data: Bytes)
    requires Exec(Init(capacity), steps).Some? && |data| <= capacity
    requires Waiting(Exec(Init(capacity), steps).value, i)
    ensures var s := Exec(Init(capacity), steps).value;
      match Apply(s, Record(data))
      case None => false
      case Some(t) => CanBeSent(t, i, |s.store.ring.log| + 1)
  {
    SaneInRun(capacity, steps);
    CapacityStays(capacity, steps);
    var s := Exec(Init(capacity), steps).value;
    LockIsFree(s, i);
    SaneStep(s, Record(data));
    var t := Apply(s, Record(data)).value;
    assert Delivers(FactsOf(s), s.conns[i]);
    NewestIsHeld(s.store.ring, data, capacity);
    NotifiedSends(t, i, |s.store.ring.log| + 1);
  }

  /** And so does the child's exit: a writer that waits when it happens can be brought to announce it. */
  lemma ExitReachesWaiting(capacity: nat, steps: seq<Step>, i: nat, status: ExitStatus)
    requires Exec(Init(capacity), steps).Some?
    requires var s := Exec(Init(capacity), steps).value; Waiting(s, i) && s.supervisor.Running?
    ensures match Apply(Exec(Init(capacity), steps).value, ChildExit(status))
      case None => false
      case Some(t) => CanBeTold(t, i)
  {
    SaneInRun(capacity, steps);
    SaneStep(Exec(Init(capacity), steps).value, ChildExit(status));
    Announces(Apply(Exec(Init(capacity), steps).value, ChildExit(status)).value, i);
  }

  lemma {:induction false} CapacityStays(capacity: nat, steps: seq<Step>)
    requires Exec(Init(capacity), steps).Some?
    ensures Exec(Init(capacity), steps).value.store.capacity == capacity
  {
    if steps != [] {
      CapacityStays(capacity, steps[..|steps| - 1]);
    }
  }

  lemma NewestIsHeld(r: Ring, data: Bytes, capacity: nat)
    requires r.cut <= |r.log| && |data| <= capacity
    ensures AfterPush(r, data, capacity).cut <= |r.log|
  {
    var log := r.log + [data];
    EvictionIsMinimal(log, r.cut, capacity);
    assert LogBytes(log, |r.log|) == |data| + LogBytes(log, |r.log| + 1);
  }

  /** The writer of a first Core has looked at an empty ring; then a chunk is recorded and notified. */
  lemma RecordedTooLate(capacity: nat, data: Bytes) returns (steps: seq<Step>, s: Host)
    requires |data| <= capacity
    ensures Exec(Init(capacity), steps) == Some(s) && s.owed == 0 && s.store.ring == Ring([data], 0)
    ensures s.conns == Quiet(capacity, Stream(Send(None), true), [Ready(0)], true, None).conns
  {
    steps, s := FirstCore(capacity);
    RecordOne(capacity, data);
    steps, s := Go(capacity, steps, s, Record(data));
    steps, s := Go(capacity, steps, s, Notify);
  }

  lemma ThenWaits(s: Host, c: Conn)
    requires s.conns == [c] && c.pc == Stream(Send(None), true) && c.job.todo == []
    ensures match Apply(s, Handle(0, true))
      case None => false
      case Some(t) => t == s.(conns := [c.(pc := Stream(Wait, true))])
  {
    assert [c][0 := At(c, Wait)] == [At(c, Wait)];
  }

  /**
   It happens: a chunk is recorded, and the waiters are notified, between the writer's snapshot and its
   wait. The Core stays connected, the ring holds the chunk, and while the child is quiet nobody sends it.
   */
  lemma OutputCanBeStranded(capacity: nat, data: Bytes) returns (steps: seq<Step>)
    requires |data| <= capacity
    ensures Exec(Init(capacity), steps).Some?
    ensures var s := Exec(Init(capacity), steps).value;
      Waiting(s, 0) && s.conns[0].out.peerOpen && Ahead(s, 0, 1) && !CanBeSent(s, 0, 1)
  {
    var s;
    steps, s := RecordedTooLate(capacity, data);
    ThenWaits(s, s.conns[0]);
    steps, s := Go(capacity, steps, s, Handle(0, true));
    ChunksSnoc([], Ready(0));
    assert [] + [Ready(0)] == [Ready(0)] && Chunks([]) + [] == [];
    OutputReachesExactly(capacity, steps, 0, 1);
  }
}
