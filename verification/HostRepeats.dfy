/**
 Exactly which chunks a connection can send twice, once its handshake is over: those of the replay
 that the writer has still to pass.
 */
module HostRepeats {
  import opened Prelude
  import opened Rings
  import opened Delivery
  import opened HostProtocol
  import opened HostDelivery
  import opened HostTheorems
  import opened HostSlots
  import opened HostDuplicates
  import opened HostProgress

  ghost predicate Twice(chunks: seq<Chunk>, q: nat) {
    exists a, b :: 0 <= a < b < |chunks| && chunks[a].num == chunks[b].num == q
  }

  /** Some continuation of the run sends `q` twice on the connection. */
  ghost predicate CanRepeat(s: Host, i: nat, q: nat) {
    exists more :: Exec(s, more).Some? && Repeated(Exec(s, more).value, i, q)
  }

  ghost predicate Repeated(s: Host, i: nat, q: nat) {
    i < |s.conns| && Twice(Chunks(s.conns[i].out.sent), q)
  }

  /** The handshake is over and the writer, about to take a snapshot, has sent nothing. */
  predicate Starting(c: Conn) {
    c.pc.Stream? && c.pc.writer.Snapshot? && c.trace.live == []
  }

  // ---------- a chunk the writer has still to pass ----------

  lemma RepeatsNow(s: Host, i: nat, q: nat)
    requires Repeated(s, i, q)
    ensures CanRepeat(s, i, q)
  {
    assert Exec(s, []) == Some(s);
  }

  lemma RepeatsLater(s: Host, step: Step, i: nat, q: nat)
    requires Apply(s, step).Some? && CanRepeat(Apply(s, step).value, i, q)
    ensures CanRepeat(s, i, q)
  {
    var t := Apply(s, step).value;
    var more :| Exec(t, more).Some? && Repeated(Exec(t, more).value, i, q);
    ExecFirst(s, step, more);
    assert Exec(s, [step] + more).Some?;
  }

  lemma HasGrows(chunks: seq<Chunk>, c: Chunk, q: nat)
    requires Has(chunks, q)
    ensures Has(chunks + [c], q) && (c.num == q ==> Twice(chunks + [c], q))
  {
    var k :| 0 <= k < |chunks| && chunks[k].num == q;
    assert (chunks + [c])[k].num == q && (chunks + [c])[|chunks|] == c;
  }

  /** A writer that is sending reaches every chunk of its snapshot. */
  lemma {:induction false} Drains(s: Host, i: nat, q: nat)
    requires i < |s.conns| && Sending(s.conns[i].pc) && Has(s.conns[i].job.todo, q) && Has(Chunks(s.conns[i].out.sent), q)
    ensures CanRepeat(s, i, q)
    decreases |s.conns[i].job.todo|
  {
    var c, step := s.conns[i], Handle(i, true);
    var chunk := c.job.todo[0];
    var t := Apply(s, step).value;
    assert t.conns[i] == SendChunkStep(c, true);
    ChunksSnoc(c.out.sent, Stdout(chunk));
    HasGrows(Chunks(c.out.sent), chunk, q);
    if chunk.num == q {
      RepeatsNow(t, i, q);
    } else {
      var k :| 0 <= k < |c.job.todo| && c.job.todo[k].num == q;
      assert c.job.todo[1..][k - 1].num == q;
      Drains(t, i, q);
    }
    RepeatsLater(s, step, i, q);
  }

  lemma NumberedHas(log: seq<Bytes>, from: nat, q: nat)
    requires from < q <= |log|
    ensures Has(Numbered(log, from), q)
  {
    assert Numbered(log, from)[q - from - 1].num == q;
  }

  lemma SnapshotRepeats(s: Host, i: nat, q: nat)
    requires Sane(s) && i < |s.conns| && s.conns[i].pc.Stream? && s.conns[i].pc.writer.Snapshot?
    requires Has(Chunks(s.conns[i].out.sent), q) && Max(s.store.ring.cut, s.conns[i].job.mark) < q <= |s.store.ring.log|
    ensures CanRepeat(s, i, q)
  {
    var step := Handle(i, true);
    LockIsFree(s, i);
    var t := Apply(s, step).value;
    assert t.conns[i] == SnapshotStep(s.conns[i], s.store.ring);
    NumberedHas(s.store.ring.log, Max(s.store.ring.cut, s.conns[i].job.mark), q);
    var u := Apply(t, step).value;
    assert u.conns[i] == At(t.conns[i], Send(s.exit.status));
    Drains(u, i, q);
    RepeatsLater(t, step, i, q);
    RepeatsLater(s, step, i, q);
  }

  // ---------- a chunk it has passed, or that was not replayed ----------

  predicate Lacks(chunks: seq<Chunk>, q: nat) {
    forall k :: 0 <= k < |chunks| ==> chunks[k].num != q
  }

  /** The writer has not sent `q`, is not about to, and takes no snapshot with it any more. */
  predicate Passed(cut: nat, c: Conn, q: nat) {
    && (c.pc.Stream? || c.pc.Closed?)
    && Lacks(c.trace.live, q) && (Draining(c.pc) ==> Lacks(c.job.todo, q))
    && q <= Max(cut, c.job.mark)
  }

  lemma NumberedLacks(log: seq<Bytes>, from: nat, q: nat)
    requires q <= from
    ensures Lacks(Numbered(log, from), q)
  {
  }

  lemma PassedInHandler(ring: Ring, exited: Option<ExitStatus>, flags: Flags, i: nat, c: Conn, ok: bool, q: nat)
    requires Passed(ring.cut, c, q) && HandleStep(ring, exited, flags, i, c, ok).Some?
    ensures Passed(ring.cut, HandleStep(ring, exited, flags, i, c, ok).value.conn, q)
    ensures HandleStep(ring, exited, flags, i, c, ok).value.conn.trace.replay == c.trace.replay
  {
    if c.pc.Stream? && c.pc.writer.Snapshot? {
      NumberedLacks(ring.log, Max(ring.cut, c.job.mark), q);
    }
  }

  /** The replay is over; what the writer does not change it. */
  predicate Replayed(c: Conn, replay: seq<Chunk>) {
    (c.pc.Stream? || c.pc.Closed?) && c.trace.replay == replay
  }

  lemma ReplayedInHandler(ring: Ring, exited: Option<ExitStatus>, flags: Flags, i: nat, c: Conn, ok: bool)
    requires Replayed(c, c.trace.replay) && HandleStep(ring, exited, flags, i, c, ok).Some?
    ensures Replayed(HandleStep(ring, exited, flags, i, c, ok).value.conn, c.trace.replay)
  {
  }

  /** What steps other than its handler's do to a connection past its handshake. */
  lemma OutsideHandler(s: Host, step: Step, i: nat)
    requires Apply(s, step).Some? && i < |s.conns| && !(step.Handle? && step.conn == i)
    ensures var t := Apply(s, step).value;
      && i < |t.conns|
      && t.conns[i].trace == s.conns[i].trace && t.conns[i].job == s.conns[i].job
      && (t.conns[i].pc.Stream? <==> s.conns[i].pc.Stream?) && (t.conns[i].pc.Closed? <==> s.conns[i].pc.Closed?)
      && (Draining(t.conns[i].pc) <==> Draining(s.conns[i].pc))
  {
    match step
    case Handle(j, ok) => HandleIsLocal(s, j, ok);
    case Read(j, ok) => ReadIsLocal(s, j, ok);
    case Notify => assert Apply(s, step).value.conns[i] == Wake(s.conns[i]);
    case _ =>
  }

  lemma StepReplayed(s: Host, step: Step, i: nat)
    requires Apply(s, step).Some? && i < |s.conns| && Replayed(s.conns[i], s.conns[i].trace.replay)
    ensures i < |Apply(s, step).value.conns| && Replayed(Apply(s, step).value.conns[i], s.conns[i].trace.replay)
  {
    if step.Handle? && step.conn == i {
      ReplayedInHandler(s.store.ring, s.exit.status, s.flags, i, s.conns[i], step.ok);
    } else {
      OutsideHandler(s, step, i);
    }
  }

  lemma StepPassed(s: Host, step: Step, i: nat, q: nat)
    requires Inv(s) && Apply(s, step).Some? && i < |s.conns| && Passed(s.store.ring.cut, s.conns[i], q)
    ensures i < |Apply(s, step).value.conns| && Passed(Apply(s, step).value.store.ring.cut, Apply(s, step).value.conns[i], q)
  {
    CutGrows(s, step);
    if step.Handle? && step.conn == i {
      PassedInHandler(s.store.ring, s.exit.status, s.flags, i, s.conns[i], step.ok, q);
    } else {
      OutsideHandler(s, step, i);
    }
  }

  /** What is kept along a continuation. */
  ghost predicate Known(s: Host) {
    Inv(s) && TracesOk(s)
  }

  lemma {:induction false} Continues(s: Host, i: nat, q: nat, more: seq<Step>)
    requires Known(s) && Exec(s, more).Some? && i < |s.conns| && Replayed(s.conns[i], s.conns[i].trace.replay)
    ensures var t := Exec(s, more).value;
      && Known(t) && i < |t.conns| && Replayed(t.conns[i], s.conns[i].trace.replay)
      && (Passed(s.store.ring.cut, s.conns[i], q) ==> Passed(t.store.ring.cut, t.conns[i], q))
  {
    if more != [] {
      var before, step := more[..|more| - 1], more[|more| - 1];
      Continues(s, i, q, before);
      var u := Exec(s, before).value;
      StepKeeps(u, step);
      TraceStep(u, step);
      StepReplayed(u, step, i);
      if Passed(s.store.ring.cut, s.conns[i], q) {
        StepPassed(u, step, i, q);
      }
    }
  }

  /** A number is sent twice only by the replay and then by the writer. */
  lemma TwiceIsBoth(cut: nat, c: Conn, q: nat)
    requires TraceOk(cut, c) && Twice(Chunks(c.out.sent), q)
    ensures Has(c.trace.replay, q) && !Lacks(c.trace.live, q)
  {
    var chunks := Chunks(c.out.sent);
    var a, b :| 0 <= a < b < |chunks| && chunks[a].num == chunks[b].num == q;
    PartsRepeat(cut, c, a, b);
    assert c.trace.replay[a].num == q && c.trace.live[b - |c.trace.replay|].num == q;
  }

  lemma CannotRepeat(s: Host, i: nat, q: nat)
    requires Known(s) && i < |s.conns| && Starting(s.conns[i])
    requires !Has(s.conns[i].trace.replay, q) || q <= Max(s.store.ring.cut, s.conns[i].job.mark)
    ensures !CanRepeat(s, i, q)
  {
    forall more | Exec(s, more).Some?
      ensures !Repeated(Exec(s, more).value, i, q)
    {
      NotIn(s, i, q, more);
    }
  }

  lemma NotIn(s: Host, i: nat, q: nat, more: seq<Step>)
    requires Known(s) && i < |s.conns| && Starting(s.conns[i]) && Exec(s, more).Some?
    requires !Has(s.conns[i].trace.replay, q) || q <= Max(s.store.ring.cut, s.conns[i].job.mark)
    ensures !Repeated(Exec(s, more).value, i, q)
  {
    Continues(s, i, q, more);
    var t := Exec(s, more).value;
    assert TraceOk(t.store.ring.cut, t.conns[i]);
    if Twice(Chunks(t.conns[i].out.sent), q) {
      TwiceIsBoth(t.store.ring.cut, t.conns[i], q);
    }
  }

  /** What the replay has sent was recorded. */
  lemma ReplayIsRecorded(s: Host, i: nat, q: nat)
    requires Known(s) && i < |s.conns| && Starting(s.conns[i]) && Has(s.conns[i].trace.replay, q)
    ensures q <= |s.store.ring.log| && Has(Chunks(s.conns[i].out.sent), q)
  {
    var c := s.conns[i];
    assert Delivers(FactsOf(s), c) && TraceOk(s.store.ring.cut, c);
    assert Chunks(c.out.sent) == c.trace.replay;
    var k :| 0 <= k < |c.trace.replay| && c.trace.replay[k].num == q;
    assert Flow(c.out, c.job)[k] == c.trace.replay[k];
    AuthenticAt(s.store.ring.log, Flow(c.out, c.job), k);
  }

  /**
   In every run, for every connection whose handshake is over and whose writer has sent nothing, and
   every number: some continuation sends it twice on that connection if and only if the replay has
   sent it, it is above the watermark the writer starts from, which the handshake took before the
   replay, and the ring still holds it.
   */
  lemma RepeatsExactly(capacity: nat, steps: seq<Step>, i: nat, q: nat)
    requires Exec(Init(capacity), steps).Some?
    requires var s := Exec(Init(capacity), steps).value; i < |s.conns| && Starting(s.conns[i])
    ensures var s := Exec(Init(capacity), steps).value;
      var c := s.conns[i];
      CanRepeat(s, i, q) <==> Has(c.trace.replay, q) && Max(s.store.ring.cut, c.job.mark) < q
  {
    SaneInRun(capacity, steps);
    TraceInRun(capacity, steps);
    var s := Exec(Init(capacity), steps).value;
    var c := s.conns[i];
    if Has(c.trace.replay, q) && Max(s.store.ring.cut, c.job.mark) < q {
      ReplayIsRecorded(s, i, q);
      SnapshotRepeats(s, i, q);
    } else {
      CannotRepeat(s, i, q);
    }
  }
}
