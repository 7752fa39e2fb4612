/**
 What a connection's first frame decides. A Hello with the right cookie is answered by Ready and by
 everything the ring holds above the number it names, and nothing at or below that number is ever sent.
 */
module HostHandshake {
  import opened Prelude
  import opened Rings
  import opened Delivery
  import opened HostProtocol
  import opened HostDelivery
  import opened HostTheorems
  import opened HostGrammar
  import opened HostSlots
  import opened HostDuplicates
  import opened HostProgress

  // ---------- the first frame ----------

  /** The first frame the peer sent on the connection. */
  function FirstFrame(steps: seq<Step>, i: nat): Option<Inbound> {
    if steps == [] then None else
    var before := FirstFrame(steps[..|steps| - 1], i);
    match steps[|steps| - 1]
    case Peer(j, f) => if before.None? && i == j then Some(f) else before
    case _ => before
  }

  /** What the handler has made of the first frame by the time it is at a place. */
  predicate Greeted(first: Option<Inbound>, c: Conn) {
    if c.pc.AwaitHello? then
      if c.inbox == [] then first.None? || !c.out.peerOpen else first == Some(c.inbox[0])
    else
      || first == Some(Hello(true, c.job.base))
      || (c.pc.Closed? && c.out.sent == [])
      || (c.pc.Closed? && c.out.sent == [CookieMismatch] && first.Some? && first.value.Hello? && !first.value.cookieOk)
  }

  ghost predicate AllGreeted(steps: seq<Step>, s: Host) {
    && (forall k :: 0 <= k < |s.conns| ==> Greeted(FirstFrame(steps, k), s.conns[k]))
    && (forall k: nat :: |s.conns| <= k ==> FirstFrame(steps, k).None?)
  }

  lemma FirstFrameSnoc(before: seq<Step>, step: Step, i: nat)
    ensures var first := FirstFrame(before, i);
      FirstFrame(before + [step], i) ==
        if first.None? && step.Peer? && step.conn == i then Some(step.frame) else first
  {
    assert (before + [step])[..|before + [step]| - 1] == before;
  }

  lemma GreetedStep(before: seq<Step>, s: Host, step: Step)
    requires AllGreeted(before, s) && AllSpoken(s) && Apply(s, step).Some?
    ensures AllGreeted(before + [step], Apply(s, step).value)
  {
    var t := Apply(s, step).value;
    forall k: nat ensures
      if k < |t.conns| then Greeted(FirstFrame(before + [step], k), t.conns[k]) else FirstFrame(before + [step], k).None?
    {
      FirstFrameSnoc(before, step, k);
      if k < |s.conns| {
        OneGreeted(FirstFrame(before, k), s, step, k);
      } else if k < |t.conns| {
        assert t.conns[k] == FRESH_CONN;
      }
    }
  }

  /** What a step of nobody on this connection does to it. */
  lemma Elsewhere(s: Host, step: Step, k: nat)
    requires Apply(s, step).Some? && k < |s.conns| && !((step.Handle? || step.Read?) && step.conn == k)
    ensures k < |Apply(s, step).value.conns|
    ensures var c, d := s.conns[k], Apply(s, step).value.conns[k];
      && d.job == c.job && d.trace == c.trace && d.out.sent == c.out.sent
      && (d.pc == c.pc || (c.pc.Stream? && d.pc == c.pc.(writer := Snapshot)))
      && (d.inbox == c.inbox || (step.Peer? && step.conn == k && d.inbox == c.inbox + [step.frame])
          || (step.PeerClose? && step.conn == k && step.keep <= |c.inbox| && d.inbox == c.inbox[..step.keep]))
      && (step.PeerClose? && step.conn == k ==> !d.out.peerOpen)
      && (step.Peer? && step.conn == k ==> c.out.peerOpen && d.inbox == c.inbox + [step.frame])
      && (!c.out.peerOpen ==> !d.out.peerOpen)
  {
    match step
    case Handle(j, ok) => HandleIsLocal(s, j, ok);
    case Read(j, ok) => ReadIsLocal(s, j, ok);
    case Notify => assert Apply(s, step).value.conns[k] == Wake(s.conns[k]);
    case _ =>
  }

  lemma OneGreeted(first: Option<Inbound>, s: Host, step: Step, k: nat)
    requires k < |s.conns| && Greeted(first, s.conns[k]) && Spoken(s.conns[k]) && Apply(s, step).Some?
    ensures k < |Apply(s, step).value.conns|
    ensures Greeted(if first.None? && step.Peer? && step.conn == k then Some(step.frame) else first,
                    Apply(s, step).value.conns[k])
  {
    if step.Handle? && step.conn == k {
      HandleGreeted(first, s.store.ring, s.exit.status, s.flags, k, s.conns[k], step.ok);
    } else if !(step.Read? && step.conn == k) {
      Elsewhere(s, step, k);
    }
  }

  lemma HandleGreeted(first: Option<Inbound>, ring: Ring, exited: Option<ExitStatus>, flags: Flags, i: nat, c: Conn, ok: bool)
    requires Greeted(first, c) && Spoken(c) && HandleStep(ring, exited, flags, i, c, ok).Some?
    ensures Greeted(first, HandleStep(ring, exited, flags, i, c, ok).value.conn)
  {
    if c.pc.AwaitHello? {
      HelloGreeted(first, c, ok);
    } else {
      KeepsBase(ring, exited, flags, i, c, ok);
    }
  }

  lemma HelloGreeted(first: Option<Inbound>, c: Conn, ok: bool)
    requires c.pc.AwaitHello? && Greeted(first, c) && Spoken(c) && HelloStep(c, ok).Some?
    ensures Greeted(first, HelloStep(c, ok).value)
  {
    FirstWord(c.out.sent, CookieMismatch);
  }

  lemma KeepsBase(ring: Ring, exited: Option<ExitStatus>, flags: Flags, i: nat, c: Conn, ok: bool)
    requires !c.pc.AwaitHello? && HandleStep(ring, exited, flags, i, c, ok).Some?
    ensures var d := HandleStep(ring, exited, flags, i, c, ok).value.conn;
      !c.pc.Closed? && d.job.base == c.job.base && !d.pc.AwaitHello?
  {
  }

  lemma {:induction false} GreetedInRun(capacity: nat, steps: seq<Step>)
    requires Exec(Init(capacity), steps).Some?
    ensures AllGreeted(steps, Exec(Init(capacity), steps).value)
  {
    if steps != [] {
      var before, step := steps[..|steps| - 1], steps[|steps| - 1];
      GreetedInRun(capacity, before);
      RunSpoken(capacity, before);
      GreetedOneMore(Init(capacity), before, step);
      assert before + [step] == steps;
    }
  }

  lemma GreetedOneMore(s: Host, before: seq<Step>, step: Step)
    requires Exec(s, before).Some? && Apply(Exec(s, before).value, step).Some?
    requires AllGreeted(before, Exec(s, before).value) && AllSpoken(Exec(s, before).value)
    ensures Exec(s, before + [step]).Some? && AllGreeted(before + [step], Exec(s, before + [step]).value)
  {
    ExecOne(s, before, step);
    GreetedStep(before, Exec(s, before).value, step);
  }

  // ---------- nothing at or below the Hello's number ----------

  predicate AboveBase(c: Conn) {
    && AllAbove(c.job.base, Chunks(c.out.sent))
    && (BeforeReplay(c.pc) ==> Chunks(c.out.sent) == [])
    && AllAbove(c.job.base, c.job.todo)
    && (Claimed(c.pc) ==> c.job.base <= c.trace.len1)
  }

  lemma {:induction false} AllAboveAppend(n: nat, a: seq<Chunk>, b: seq<Chunk>)
    requires AllAbove(n, a) && AllAbove(n, b)
    ensures AllAbove(n, a + b)
  {
    if b == [] {
      assert a + b == a;
    } else {
      assert (a + b)[..|a + b| - 1] == a + b[..|b| - 1];
      AllAboveAppend(n, a, b[..|b| - 1]);
    }
  }

  lemma {:induction false} AboveFirst(n: nat, chunks: seq<Chunk>)
    requires AllAbove(n, chunks) && chunks != []
    ensures n < chunks[0].num && AllAbove(n, chunks[1..])
  {
    if |chunks| > 1 {
      AboveFirst(n, chunks[..|chunks| - 1]);
      assert chunks[1..][..|chunks| - 2] == chunks[..|chunks| - 1][1..];
    }
  }

  lemma {:induction false} NumberedAbove(n: nat, log: seq<Bytes>, cut: nat)
    requires n <= cut
    ensures AllAbove(n, Numbered(log, cut))
    decreases |log|
  {
    if cut < |log| {
      NumberedAbove(n, log[..|log| - 1], cut);
      NumberedSnoc(log, cut);
      var init := Numbered(log[..|log| - 1], cut);
      assert (init + [Chunk(|log|, log[|log| - 1])])[..|init|] == init;
    }
  }

  lemma PutAbove(c: Conn)
    requires AllAbove(c.job.base, Chunks(c.out.sent)) && AllAbove(c.job.base, c.job.todo) && c.job.todo != []
    ensures AllAbove(c.job.base, Chunks(Put(c.out, Stdout(c.job.todo[0])).sent)) && AllAbove(c.job.base, c.job.todo[1..])
  {
    AboveFirst(c.job.base, c.job.todo);
    ChunksSnoc(c.out.sent, Stdout(c.job.todo[0]));
    AllAboveAppend(c.job.base, Chunks(c.out.sent), [c.job.todo[0]]);
  }

  /** Steps that send no chunk and take no snapshot. */
  lemma PlainAbove(c: Conn, d: Conn, f: Frame)
    requires AboveBase(c) && !f.Stdout? && (d.out.sent == c.out.sent || d.out.sent == c.out.sent + [f])
    requires d.job.todo == c.job.todo || d.job.todo == []
    requires d.job.base == c.job.base || (Chunks(c.out.sent) == [] && d.job.todo == [])
    requires BeforeReplay(d.pc) ==> BeforeReplay(c.pc)
    requires Claimed(d.pc) ==> d.job.base <= d.trace.len1
    ensures AboveBase(d)
  {
    ChunksSnoc(c.out.sent, f);
    assert Chunks(c.out.sent) + [] == Chunks(c.out.sent);
  }

  lemma ChunkAbove(c: Conn, d: Conn)
    requires AboveBase(c) && !BeforeReplay(c.pc) && c.job.todo != [] && d.pc == c.pc
    requires d.out.sent == c.out.sent + [Stdout(c.job.todo[0])] && d.job.todo == c.job.todo[1..]
    requires d.job.base == c.job.base && d.trace.len1 == c.trace.len1
    ensures AboveBase(d)
  {
    AboveFirst(c.job.base, c.job.todo);
    ChunksSnoc(c.out.sent, Stdout(c.job.todo[0]));
    AllAboveAppend(c.job.base, Chunks(c.out.sent), [c.job.todo[0]]);
  }

  lemma SnapshotAbove(log: seq<Bytes>, from: nat, c: Conn, d: Conn)
    requires AboveBase(c) && c.job.base <= from && d.out.sent == c.out.sent
    requires d.job.todo == Numbered(log, from) && d.job.base == c.job.base && d.trace.len1 == c.trace.len1
    requires Claimed(c.pc) && !BeforeReplay(d.pc)
    ensures AboveBase(d)
  {
    NumberedAbove(c.job.base, log, from);
  }

  /** The Hello names a number in the log, and the writer starts past it. */
  predicate Based(ring: Ring, c: Conn) {
    && c.job.base <= |ring.log| && (BeforeReplay(c.pc) ==> c.job.todo == [])
    && (Claimed(c.pc) ==> c.trace.len1 <= Max(ring.cut, c.job.mark))
  }

  lemma HandleAbove(ring: Ring, exited: Option<ExitStatus>, flags: Flags, i: nat, c: Conn, ok: bool)
    requires HandleStep(ring, exited, flags, i, c, ok).Some?
    requires AboveBase(c) && Based(ring, c)
    ensures AboveBase(HandleStep(ring, exited, flags, i, c, ok).value.conn)
  {
    var d := HandleStep(ring, exited, flags, i, c, ok).value.conn;
    match c.pc
    case AwaitHello => PlainAbove(c, d, CookieMismatch);
    case Claim => PlainAbove(c, d, AlreadyConnected);
    case SendReady => PlainAbove(c, d, Ready(c.job.mark));
    case SnapReplay => SnapshotAbove(ring.log, Max(ring.cut, c.job.base), c, d);
    case SendReplay =>
      if c.job.todo != [] && ok {
        ChunkAbove(c, d);
      } else {
        PlainAbove(c, d, Pong);
      }
    case Stream(_, _) => WriterAbove(ring, exited, flags, i, c, ok);
    case _ => PlainAbove(c, d, Pong);
  }

  /** The writer starts from what the log was when `host_last_seq` was read, which is past the Hello's number. */
  lemma WriterAbove(ring: Ring, exited: Option<ExitStatus>, flags: Flags, i: nat, c: Conn, ok: bool)
    requires c.pc.Stream? && WriterStep(ring, exited, flags, i, c, ok).Some?
    requires AboveBase(c) && c.trace.len1 <= Max(ring.cut, c.job.mark)
    ensures AboveBase(WriterStep(ring, exited, flags, i, c, ok).value.conn)
  {
    var d := WriterStep(ring, exited, flags, i, c, ok).value.conn;
    match c.pc.writer
    case Snapshot => SnapshotAbove(ring.log, Max(ring.cut, c.job.mark), c, d);
    case Send(exit) =>
      if c.job.todo != [] && ok {
        ChunkAbove(c, d);
      } else {
        PlainAbove(c, d, if exit.Some? then AgentExited(exit.value) else Pong);
      }
    case _ => PlainAbove(c, d, Pong);
  }

  ghost predicate AllAboveBase(s: Host) {
    forall k :: 0 <= k < |s.conns| ==> AboveBase(s.conns[k])
  }

  lemma AboveStep(s: Host, step: Step)
    requires AllAboveBase(s) && Inv(s) && TracesOk(s) && Apply(s, step).Some?
    ensures AllAboveBase(Apply(s, step).value)
  {
    var t := Apply(s, step).value;
    forall k | 0 <= k < |t.conns| ensures AboveBase(t.conns[k]) {
      if k < |s.conns| {
        assert Delivers(FactsOf(s), s.conns[k]) && TraceOk(s.store.ring.cut, s.conns[k]) && AboveBase(s.conns[k]);
        OneAbove(s, step, k);
      } else {
        assert t.conns[k] == FRESH_CONN;
      }
    }
  }

  lemma OneAbove(s: Host, step: Step, k: nat)
    requires Apply(s, step).Some? && k < |s.conns|
    requires AboveBase(s.conns[k]) && Based(s.store.ring, s.conns[k])
    ensures k < |Apply(s, step).value.conns| && AboveBase(Apply(s, step).value.conns[k])
  {
    if step.Handle? && step.conn == k {
      HandledAbove(s, k, step.ok);
    } else if step.Read? && step.conn == k {
      ReadAbove(s, k, step.ok);
    } else {
      Elsewhere(s, step, k);
      PlainAbove(s.conns[k], Apply(s, step).value.conns[k], Pong);
    }
  }

  lemma HandledAbove(s: Host, k: nat, ok: bool)
    requires k < |s.conns| && AboveBase(s.conns[k]) && Based(s.store.ring, s.conns[k]) && Apply(s, Handle(k, ok)).Some?
    ensures AboveBase(Apply(s, Handle(k, ok)).value.conns[k])
  {
    HandleAbove(s.store.ring, s.exit.status, s.flags, k, s.conns[k], ok);
  }

  lemma ReadAbove(s: Host, k: nat, ok: bool)
    requires k < |s.conns| && AboveBase(s.conns[k]) && Apply(s, Read(k, ok)).Some?
    ensures AboveBase(Apply(s, Read(k, ok)).value.conns[k])
  {
    PlainAbove(s.conns[k], ReadStep(s.store, s.flags, s.conns[k], ok).value.conn, Pong);
  }

  lemma {:induction false} AboveInRun(capacity: nat, steps: seq<Step>)
    requires Exec(Init(capacity), steps).Some?
    ensures AllAboveBase(Exec(Init(capacity), steps).value)
  {
    if steps != [] {
      var before := steps[..|steps| - 1];
      AboveInRun(capacity, before);
      RunKeeps(capacity, before);
      TraceInRun(capacity, before);
      AboveStep(Exec(Init(capacity), before).value, steps[|steps| - 1]);
    }
  }

  /**
   In every run, on every connection: if a chunk is sent, then the first frame the peer sent was a
   Hello with the right cookie, and the chunk is numbered above the one that Hello names.
   */
  lemma NothingBelowTheHello(capacity: nat, steps: seq<Step>, i: nat, k: nat)
    requires Exec(Init(capacity), steps).Some?
    requires i < |Exec(Init(capacity), steps).value.conns|
    requires k < |Chunks(Exec(Init(capacity), steps).value.conns[i].out.sent)|
    ensures var first := FirstFrame(steps, i);
      && first.Some? && first.value.Hello? && first.value.cookieOk
      && Chunks(Exec(Init(capacity), steps).value.conns[i].out.sent)[k].num > first.value.lastSeq
  {
    GreetedInRun(capacity, steps);
    AboveInRun(capacity, steps);
    RunSpoken(capacity, steps);
    var c := Exec(Init(capacity), steps).value.conns[i];
    assert Greeted(FirstFrame(steps, i), c) && AboveBase(c) && Spoken(c);
    ChunksSnoc([], CookieMismatch);
    assert [] + [CookieMismatch] == [CookieMismatch] && Chunks([]) + [] == [];
    AboveAt(c.job.base, Chunks(c.out.sent), k);
  }

  // ---------- what the handler answers ----------

  /** The handler takes steps, all its own, from one state to another. */
  ghost predicate Leads(s: Host, i: nat, t: Host) {
    exists n: nat :: Exec(s, OwnSteps(i, n)) == Some(t)
  }

  function OwnSteps(i: nat, n: nat): seq<Step> {
    if n == 0 then [] else [Handle(i, true)] + OwnSteps(i, n - 1)
  }

  lemma Stands(s: Host, i: nat)
    ensures Leads(s, i, s)
  {
    assert OwnSteps(i, 0) == [];
    assert Exec(s, OwnSteps(i, 0)) == Some(s);
  }

  lemma LeadsFirst(s: Host, i: nat, m: Host, t: Host)
    requires Apply(s, Handle(i, true)) == Some(m) && Leads(m, i, t)
    ensures Leads(s, i, t)
  {
    var n: nat :| Exec(m, OwnSteps(i, n)) == Some(t);
    ExecFirst(s, Handle(i, true), OwnSteps(i, n));
    assert OwnSteps(i, n + 1) == [Handle(i, true)] + OwnSteps(i, n);
  }

  /** A replay that is sent undisturbed. */
  lemma {:induction false} ReplayIsSent(s: Host, i: nat) returns (t: Host)
    requires i < |s.conns| && s.conns[i].pc.SendReplay?
    ensures Leads(s, i, t) && i < |t.conns| && t.conns[i].pc == Stream(Snapshot, true)
    ensures Chunks(t.conns[i].out.sent) == Chunks(s.conns[i].out.sent) + s.conns[i].job.todo
    ensures |t.conns[i].out.sent| == |s.conns[i].out.sent| + |s.conns[i].job.todo|
    ensures s.conns[i].out.sent <= t.conns[i].out.sent
    decreases |s.conns[i].job.todo|
  {
    var c := s.conns[i];
    var m := Apply(s, Handle(i, true)).value;
    if c.job.todo == [] {
      t := m;
      Stands(m, i);
      assert Chunks(c.out.sent) + [] == Chunks(c.out.sent);
    } else {
      t := ReplayIsSent(m, i);
      ChunksSnoc(c.out.sent, Stdout(c.job.todo[0]));
      SplitFirst(Chunks(c.out.sent), c.job.todo);
    }
    LeadsFirst(s, i, m, t);
  }

  /** What a greeted peer hears before anything else happens, by what it sent first. */
  ghost predicate Answered(s: Host, i: nat, t: Host)
    requires i < |s.conns| && i < |t.conns| && s.conns[i].inbox != []
  {
    var first, d := s.conns[i].inbox[0], t.conns[i];
    if !first.Hello? then d.pc.Closed? && d.out.sent == []
    else if !first.cookieOk then d.pc.Closed? && d.out.sent == [CookieMismatch]
    else if s.flags.active then d.pc.Closed? && d.out.sent == [AlreadyConnected]
    else
      var ring := s.store.ring;
      var chunks := FilterPast(Numbered(ring.log, ring.cut), first.lastSeq);
      && d.pc == Stream(Snapshot, true) && |d.out.sent| == 1 + |chunks|
      && d.out.sent[0] == Ready(LastSeq(ring)) && Chunks(d.out.sent) == chunks
  }

  lemma ClaimIsAnswered(s: Host, i: nat) returns (t: Host)
    requires Sane(s) && AllSpoken(s) && i < |s.conns| && s.conns[i].pc.SnapLast?
    ensures Leads(s, i, t) && i < |t.conns| && t.conns[i].pc == Stream(Snapshot, true)
    ensures t.conns[i].out.sent != [] && t.conns[i].out.sent[0] == Ready(LastSeq(s.store.ring))
    ensures Chunks(t.conns[i].out.sent) == Replay(s.store.ring, s.conns[i].job.base)
    ensures |t.conns[i].out.sent| == 1 + |Chunks(t.conns[i].out.sent)|
  {
    LockIsFree(s, i);
    assert Spoken(s.conns[i]);
    var step := Handle(i, true);
    var a := Apply(s, step).value;
    var b := Apply(a, step).value;
    var ready := Ready(LastSeq(s.store.ring));
    FirstWord(a.conns[i].out.sent, ready);
    assert b.conns[i].out.sent == [ready];
    ChunksSnoc([], ready);
    assert [] + [ready] == [ready] && Chunks([]) + [] == [];
    var c := Apply(b, step).value;
    t := ReplayIsSent(c, i);
    assert [] + c.conns[i].job.todo == c.conns[i].job.todo;
    LeadsFirst(b, i, c, t);
    LeadsFirst(a, i, b, t);
    LeadsFirst(s, i, a, t);
  }

  /**
   In every run, whatever the first frame is that a handler finds: left to itself it answers a good
   Hello with Ready and then exactly the chunks the ring holds above the number the Hello names, if the
   slot is free, and refuses everything else as the frame deserves.
   */
  lemma HelloIsAnswered(capacity: nat, steps: seq<Step>, i: nat) returns (t: Host)
    requires Exec(Init(capacity), steps).Some?
    requires var s := Exec(Init(capacity), steps).value;
      i < |s.conns| && s.conns[i].pc.AwaitHello? && s.conns[i].inbox != []
    ensures var s := Exec(Init(capacity), steps).value;
      Leads(s, i, t) && i < |t.conns| && Answered(s, i, t)
  {
    SaneInRun(capacity, steps);
    RunSpoken(capacity, steps);
    var s := Exec(Init(capacity), steps).value;
    var step, first := Handle(i, true), s.conns[i].inbox[0];
    assert Spoken(s.conns[i]);
    var a := Apply(s, step).value;
    t := a;
    if first.Hello? && first.cookieOk {
      SaneStep(s, step);
      StepSpoken(s, step);
      var b := Apply(a, step).value;
      t := b;
      if !s.flags.active {
        SaneStep(a, step);
        StepSpoken(a, step);
        t := ClaimIsAnswered(b, i);
        FilterIsCut(s.store.ring.log, s.store.ring.cut, first.lastSeq);
      } else {
        FirstWord(a.conns[i].out.sent, AlreadyConnected);
        Stands(b, i);
      }
      LeadsFirst(a, i, b, t);
    } else {
      FirstWord(s.conns[i].out.sent, CookieMismatch);
      Stands(a, i);
    }
    LeadsFirst(s, i, a, t);
  }
}
