/**
 What becomes of a connection whose peer is gone. A failed write is the last of its connection; until
 the writer tries one it does not notice, and the slot stays taken. This says exactly when it can be freed.
 */
module HostRelease {
  import opened Prelude
  import opened Rings
  import opened HostProtocol
  import opened HostDelivery
  import opened HostTheorems
  import opened HostSlots
  import opened HostProgress
  import opened HostHandshake
  import opened HostReading
  import opened HostOutput

  // ---------- a failed write is the last one ----------

  /** The writer sends nothing more. */
  predicate Over(pc: Pc) {
    pc.Closed? || pc.Release? || (pc.Stream? && pc.writer.Done?)
  }

  /** All that is sent but the reader's answers. */
  function NonPongs(frames: seq<Frame>): seq<Frame> {
    if frames == [] then [] else
    NonPongs(frames[..|frames| - 1]) + if frames[|frames| - 1].Pong? then [] else [frames[|frames| - 1]]
  }

  lemma PongIsNone(frames: seq<Frame>)
    ensures NonPongs(frames + [Pong]) == NonPongs(frames)
  {
    assert (frames + [Pong])[..|frames|] == frames && NonPongs(frames) + [] == NonPongs(frames);
  }

  lemma OverStep(s: Host, i: nat, step: Step)
    requires i < |s.conns| && Over(s.conns[i].pc) && Apply(s, step).Some?
    ensures var t := Apply(s, step).value;
      i < |t.conns| && Over(t.conns[i].pc) && NonPongs(t.conns[i].out.sent) == NonPongs(s.conns[i].out.sent)
  {
    if step.Read? && step.conn == i {
      OverReader(s.store, s.flags, s.conns[i], step.ok);
    } else if step.Handle? && step.conn == i {
      OverHandler(s.store.ring, s.exit.status, s.flags, i, s.conns[i], step.ok);
    } else {
      Elsewhere(s, step, i);
    }
  }

  lemma OverReader(store: Store, flags: Flags, c: Conn, ok: bool)
    requires Over(c.pc) && ReadStep(store, flags, c, ok).Some?
    ensures var d := ReadStep(store, flags, c, ok).value.conn;
      Over(d.pc) && NonPongs(d.out.sent) == NonPongs(c.out.sent)
  {
    var d := ReadStep(store, flags, c, ok).value.conn;
    PongIsNone(c.out.sent);
    assert d.out == c.out || d.out == Put(c.out, Pong);
  }

  lemma OverHandler(ring: Ring, exited: Option<ExitStatus>, flags: Flags, i: nat, c: Conn, ok: bool)
    requires Over(c.pc) && HandleStep(ring, exited, flags, i, c, ok).Some?
    ensures var d := HandleStep(ring, exited, flags, i, c, ok).value.conn; Over(d.pc) && d.out == c.out
  {
  }

  lemma {:induction false} OverForEver(s: Host, i: nat, more: seq<Step>)
    requires i < |s.conns| && Over(s.conns[i].pc) && Exec(s, more).Some?
    ensures var t := Exec(s, more).value;
      i < |t.conns| && Over(t.conns[i].pc) && NonPongs(t.conns[i].out.sent) == NonPongs(s.conns[i].out.sent)
  {
    if more != [] {
      OverForEver(s, i, more[..|more| - 1]);
      OverStep(Exec(s, more[..|more| - 1]).value, i, more[|more| - 1]);
    }
  }

  lemma FailureIsOver(ring: Ring, exited: Option<ExitStatus>, flags: Flags, i: nat, c: Conn)
    requires HandleStep(ring, exited, flags, i, c, false).Some?
    requires HandleStep(ring, exited, flags, i, c, true) != HandleStep(ring, exited, flags, i, c, false)
    ensures var d := HandleStep(ring, exited, flags, i, c, false).value.conn; Over(d.pc) && d.out == c.out
  {
  }

  /** Where it matters to a handler whether a write succeeds, and it fails: the handler never sends anything again. */
  lemma FailedWriteIsTheLast(s: Host, i: nat, more: seq<Step>)
    requires Apply(s, Handle(i, false)).Some? && Apply(s, Handle(i, false)) != Apply(s, Handle(i, true))
    requires Exec(Apply(s, Handle(i, false)).value, more).Some?
    ensures var t := Exec(Apply(s, Handle(i, false)).value, more).value;
      i < |t.conns| && NonPongs(t.conns[i].out.sent) == NonPongs(s.conns[i].out.sent)
  {
    FailureIsOver(s.store.ring, s.exit.status, s.flags, i, s.conns[i]);
    OverForEver(Apply(s, Handle(i, false)).value, i, more);
  }

  predicate StoppedReading(s: Host, i: nat) {
    i < |s.conns| && (s.conns[i].pc.Closed? || (s.conns[i].pc.Stream? && !s.conns[i].pc.reading))
  }

  lemma StoppedStep(s: Host, i: nat, step: Step)
    requires StoppedReading(s, i) && Apply(s, step).Some?
    ensures StoppedReading(Apply(s, step).value, i) && !(step.Read? && step.conn == i)
  {
    if !(step.Handle? && step.conn == i) {
      Elsewhere(s, step, i);
    }
  }

  lemma StopsNow(s: Host, i: nat)
    requires Apply(s, Read(i, false)).Some? && Head(s, i) == Some(Ping)
    ensures StoppedReading(Apply(s, Read(i, false)).value, i)
  {
    assert Apply(s, Read(i, false)).value.conns[i] == ReadStep(s.store, s.flags, s.conns[i], false).value.conn;
  }

  predicate NoReads(steps: seq<Step>, i: nat) {
    forall k | 0 <= k < |steps| :: !(steps[k].Read? && steps[k].conn == i)
  }

  lemma {:induction false} StoppedForEver(s: Host, i: nat, more: seq<Step>)
    requires StoppedReading(s, i) && Exec(s, more).Some?
    ensures StoppedReading(Exec(s, more).value, i) && NoReads(more, i)
  {
    if more != [] {
      var before := more[..|more| - 1];
      StoppedForEver(s, i, before);
      StoppedStep(Exec(s, before).value, i, more[|more| - 1]);
      assert forall k | 0 <= k < |before| :: more[k] == before[k];
    }
  }

  /** Where the answer to a Ping cannot be written, the reader takes nothing more from the connection. */
  lemma FailedPongIsTheLast(s: Host, i: nat, more: seq<Step>)
    requires Apply(s, Read(i, false)).Some? && Head(s, i) == Some(Ping)
    requires Exec(Apply(s, Read(i, false)).value, more).Some?
    ensures NoReads(more, i)
  {
    StopsNow(s, i);
    StoppedForEver(Apply(s, Read(i, false)).value, i, more);
  }

  // ---------- a connection closes when both its tasks are done ----------

  /** The answer to some Ping of the connection could not be written. */
  function PongFailed(capacity: nat, steps: seq<Step>, i: nat): bool
    requires Exec(Init(capacity), steps).Some?
  {
    steps != [] &&
    (var before := steps[..|steps| - 1];
     PongFailed(capacity, before, i)
     || (steps[|steps| - 1] == Read(i, false) && Head(Exec(Init(capacity), before).value, i) == Some(Ping)))
  }

  /** The peer has closed, and all its frames have been taken. */
  predicate AllTaken(c: Conn) {
    c.inbox == [] && !c.out.peerOpen
  }

  lemma HandlerStopsNoReader(ring: Ring, exited: Option<ExitStatus>, flags: Flags, i: nat, c: Conn, ok: bool)
    requires HandleStep(ring, exited, flags, i, c, ok).Some?
    ensures var d := HandleStep(ring, exited, flags, i, c, ok).value.conn;
      d.pc.Stream? && !d.pc.reading ==> c.pc.Stream? && !c.pc.reading && d.inbox == c.inbox && d.out.peerOpen == c.out.peerOpen
  {
  }

  lemma ReaderStops(s: Host, step: Step, i: nat)
    requires Apply(s, step).Some? && i < |s.conns|
    requires s.conns[i].pc.Stream? && !s.conns[i].pc.reading ==> AllTaken(s.conns[i])
    ensures i < |Apply(s, step).value.conns|
    ensures var d := Apply(s, step).value.conns[i];
      d.pc.Stream? && !d.pc.reading ==> AllTaken(d) || (step == Read(i, false) && Head(s, i) == Some(Ping))
  {
    if step.Handle? && step.conn == i {
      HandlerStopsNoReader(s.store.ring, s.exit.status, s.flags, i, s.conns[i], step.ok);
    } else if step.Read? && step.conn == i {
      ReadIsLocal(s, i, step.ok);
    } else {
      Elsewhere(s, step, i);
    }
  }

  /** In every run a reader stops only at the end of its peer's frames, or where it cannot answer a Ping. */
  lemma {:induction false} ReaderStopsAtTheEnd(capacity: nat, steps: seq<Step>, i: nat)
    requires Exec(Init(capacity), steps).Some? && i < |Exec(Init(capacity), steps).value.conns|
    ensures var c := Exec(Init(capacity), steps).value.conns[i];
      c.pc.Stream? && !c.pc.reading ==> AllTaken(c) || PongFailed(capacity, steps, i)
  {
    if steps != [] {
      var before, step := steps[..|steps| - 1], steps[|steps| - 1];
      var s := Exec(Init(capacity), before).value;
      if i < |s.conns| {
        ReaderStopsAtTheEnd(capacity, before, i);
        if !PongFailed(capacity, before, i) {
          ReaderStops(s, step, i);
        }
      } else {
        NewlyConnected(s, step, i);
      }
    }
  }

  lemma ClosingStep(s: Host, step: Step, i: nat)
    requires Apply(s, step).Some? && i < |s.conns| && s.conns[i].pc.Stream?
    ensures i < |Apply(s, step).value.conns|
    ensures !Apply(s, step).value.conns[i].pc.Stream? <==>
      step.Handle? && step.conn == i && s.conns[i].pc == Stream(Done, false)
  {
    if step.Handle? && step.conn == i {
      HandleIsLocal(s, i, step.ok);
    } else if step.Read? && step.conn == i {
      ReadIsLocal(s, i, step.ok);
    } else {
      Elsewhere(s, step, i);
    }
  }

  /**
   In every run, a step ends a connection that has come through its handshake only if its writer is done
   and either its peer has closed and all its frames were taken, or a Ping could not be answered.
   */
  lemma ClosesWhenBothAreDone(capacity: nat, steps: seq<Step>, step: Step, i: nat)
    requires Exec(Init(capacity), steps).Some? && Apply(Exec(Init(capacity), steps).value, step).Some?
    requires var s := Exec(Init(capacity), steps).value;
      i < |s.conns| && s.conns[i].pc.Stream? && !Apply(s, step).value.conns[i].pc.Stream?
    ensures var c := Exec(Init(capacity), steps).value.conns[i];
      c.pc.writer.Done? && !c.pc.reading && (AllTaken(c) || PongFailed(capacity, steps, i))
  {
    ClosingStep(Exec(Init(capacity), steps).value, step, i);
    ReaderStopsAtTheEnd(capacity, steps, i);
  }

  // ---------- when the slot can be freed ----------

  /** Some continuation in which the child is quiet closes the connection. */
  ghost predicate CanBeFreed(s: Host, i: nat) {
    exists more :: ChildIsQuiet(more) && Exec(s, more).Some? && Freed(Exec(s, more).value, i)
  }

  predicate Freed(s: Host, i: nat) {
    i < |s.conns| && s.conns[i].pc.Closed?
  }

  /** The ring holds something above a number. */
  predicate Pending(ring: Ring, from: nat) {
    Max(ring.cut, from) < |ring.log|
  }

  /** The writer would find something to send: output, or the exit. */
  predicate HasNews(s: Host, c: Conn) {
    s.exit.status.Some? || Pending(s.store.ring, c.job.mark)
  }

  /** The handler has something to write, or will find it without the child's doing. */
  predicate WillWrite(s: Host, c: Conn) {
    match c.pc
    case SnapLast => true
    case SendReady => true
    case Release => true
    case SnapReplay => Pending(s.store.ring, c.job.base) || HasNews(s, c)
    case SendReplay => c.job.todo != [] || HasNews(s, c)
    case Stream(writer, _) =>
      (match writer
       case Snapshot => HasNews(s, c)
       case ReadExit => s.exit.status.Some? || c.job.todo != [] || (s.owed > 0 && HasNews(s, c))
       case Send(exit) => exit.Some? || c.job.todo != [] || (s.owed > 0 && HasNews(s, c))
       case Wait => s.owed > 0 && HasNews(s, c)
       case _ => true)
    case _ => false
  }

  lemma FreedNow(s: Host, i: nat)
    requires Freed(s, i)
    ensures CanBeFreed(s, i)
  {
    assert ChildIsQuiet([]) && Exec(s, []) == Some(s);
  }

  lemma FreedLater(s: Host, step: Step, i: nat)
    requires !step.Record? && !step.ChildExit? && Apply(s, step).Some? && CanBeFreed(Apply(s, step).value, i)
    ensures CanBeFreed(s, i)
  {
    var t := Apply(s, step).value;
    var more :| ChildIsQuiet(more) && Exec(t, more).Some? && Freed(Exec(t, more).value, i);
    ExecFirst(s, step, more);
    assert ChildIsQuiet([step] + more);
  }

  lemma ReadsOn(s: Host, i: nat)
    requires i < |s.conns| && !s.conns[i].out.peerOpen && s.flags.ringHeld == None
    requires s.conns[i].pc == Stream(Done, true)
    ensures match Apply(s, Read(i, false))
      case None => false
      case Some(t) =>
        && i < |t.conns| && !t.conns[i].out.peerOpen
        && t.conns[i].pc.Stream? && t.conns[i].pc.writer.Done?
        && |t.conns[i].inbox| <= |s.conns[i].inbox|
        && (t.conns[i].pc.reading ==> |t.conns[i].inbox| < |s.conns[i].inbox|)
  {
    assert ReadStep(s.store, s.flags, s.conns[i], false).Some?;
    assert Apply(s, Read(i, false)).value.conns[i] == ReadStep(s.store, s.flags, s.conns[i], false).value.conn;
  }

  /** A done writer waits for its reader, which takes what is left of the peer's frames and then their end. */
  lemma {:induction false} DoneIsFreed(s: Host, i: nat)
    requires Sane(s) && i < |s.conns| && !s.conns[i].out.peerOpen
    requires s.conns[i].pc.Stream? && s.conns[i].pc.writer.Done?
    ensures CanBeFreed(s, i)
    decreases |s.conns[i].inbox|, s.conns[i].pc.reading
  {
    var c := s.conns[i];
    if !c.pc.reading {
      FreedNow(Apply(s, Handle(i, false)).value, i);
      FreedLater(s, Handle(i, false), i);
    } else {
      var step := Read(i, false);
      LockIsFree(s, i);
      ReadsOn(s, i);
      SaneStep(s, step);
      DoneIsFreed(Apply(s, step).value, i);
      FreedLater(s, step, i);
    }
  }

  /** How far the handler is from a write that fails. */
  function Distance(s: Host, c: Conn): nat {
    match c.pc
    case SnapLast => 13
    case SendReady => 12
    case SnapReplay => 11
    case SendReplay => 10
    case Release => 0
    case Stream(writer, _) =>
      (match writer
       case ReadExit => if s.exit.status.Some? || c.job.todo != [] then 5 else 9
       case Send(exit) => if exit.Some? || c.job.todo != [] then 4 else 8
       case Wait => 7
       case Snapshot => 6
       case Shutdown => 3
       case Deliver => 2
       case _ => 1)
    case _ => 0
  }

  function NextMove(c: Conn, i: nat): Step {
    if c.pc.Stream? && c.pc.writer.Wait? then Notify else Handle(i, false)
  }

  lemma MovesOn(s: Host, i: nat)
    requires Sane(s) && i < |s.conns| && WillWrite(s, s.conns[i]) && !(s.conns[i].pc.Stream? && s.conns[i].pc.writer.Done?)
    ensures match Apply(s, NextMove(s.conns[i], i))
      case None => false
      case Some(t) =>
        && i < |t.conns| && t.conns[i].out.peerOpen == s.conns[i].out.peerOpen
        && (t.conns[i].pc.Closed? || (WillWrite(t, t.conns[i]) && Distance(t, t.conns[i]) < Distance(s, s.conns[i])))
  {
    var c := s.conns[i];
    if c.pc.Stream? && c.pc.writer.Wait? {
      assert Apply(s, Notify).value.conns[i] == Wake(c);
    } else {
      if !Reading(c.pc) {
        LockIsFree(s, i);
      }
      HandlerMovesOn(s, i);
    }
  }

  lemma HandlerMovesOn(s: Host, i: nat)
    requires i < |s.conns| && WillWrite(s, s.conns[i]) && (Reading(s.conns[i].pc) || s.flags.ringHeld == None)
    requires !(s.conns[i].pc.Stream? && (s.conns[i].pc.writer.Done? || s.conns[i].pc.writer.Wait?))
    ensures match Apply(s, Handle(i, false))
      case None => false
      case Some(t) =>
        && i < |t.conns| && t.conns[i].out.peerOpen == s.conns[i].out.peerOpen
        && (t.conns[i].pc.Closed? || (WillWrite(t, t.conns[i]) && Distance(t, t.conns[i]) < Distance(s, s.conns[i])))
  {
    var c, ring := s.conns[i], s.store.ring;
    PendingIsReplayed(ring, c.job.base);
    PendingIsReplayed(ring, c.job.mark);
    var t := Apply(s, Handle(i, false)).value;
    assert t.conns[i] == HandleStep(ring, s.exit.status, s.flags, i, c, false).value.conn;
    assert t.store == s.store && t.exit == s.exit && t.owed == s.owed;
  }

  lemma PendingIsReplayed(ring: Ring, from: nat)
    ensures Replay(ring, from) != [] <==> Pending(ring, from)
  {
    assert |Replay(ring, from)| == if Pending(ring, from) then |ring.log| - Max(ring.cut, from) else 0;
  }

  lemma {:induction false} WritersAreFreed(s: Host, i: nat)
    requires Sane(s) && i < |s.conns| && WillWrite(s, s.conns[i]) && !s.conns[i].out.peerOpen
    ensures CanBeFreed(s, i)
    decreases Distance(s, s.conns[i])
  {
    var c := s.conns[i];
    if c.pc.Stream? && c.pc.writer.Done? {
      DoneIsFreed(s, i);
    } else {
      var step := NextMove(c, i);
      MovesOn(s, i);
      SaneStep(s, step);
      var t := Apply(s, step).value;
      if t.conns[i].pc.Closed? {
        FreedNow(t, i);
      } else {
        WritersAreFreed(t, i);
      }
      FreedLater(s, step, i);
    }
  }

  // ---------- a writer with nothing to write ----------

  /** The slot is held, and its handler has nothing to write. */
  predicate Idles(s: Host, i: nat) {
    i < |s.conns| && Holds(s.conns[i].pc) && !WillWrite(s, s.conns[i])
  }

  lemma IdlesOn(s: Host, i: nat, step: Step)
    requires Idles(s, i) && !step.Record? && !step.ChildExit? && Apply(s, step).Some?
    ensures Idles(Apply(s, step).value, i)
  {
    if step.Handle? && step.conn == i {
      HandlerIdlesOn(s, i, step.ok);
    } else if step.Read? {
      ReaderIdlesOn(s, i, step.conn, step.ok);
    } else if step.Notify? {
      assert Apply(s, Notify).value.conns[i] == Wake(s.conns[i]);
    } else {
      OthersIdleOn(s, i, step);
    }
  }

  lemma HandlerIdlesOn(s: Host, i: nat, ok: bool)
    requires Idles(s, i) && Apply(s, Handle(i, ok)).Some?
    ensures Idles(Apply(s, Handle(i, ok)).value, i)
  {
    PendingIsReplayed(s.store.ring, s.conns[i].job.base);
    PendingIsReplayed(s.store.ring, s.conns[i].job.mark);
    HandleIsLocal(s, i, ok);
  }

  lemma PrunedHoldsLess(store: Store, flags: Flags, c: Conn, ok: bool, from: nat)
    requires ReadStep(store, flags, c, ok).Some?
    ensures Pending(ReadStep(store, flags, c, ok).value.store.ring, from) ==> Pending(store.ring, from)
  {
  }

  lemma ReaderIdlesOn(s: Host, i: nat, j: nat, ok: bool)
    requires Idles(s, i) && Apply(s, Read(j, ok)).Some?
    ensures Idles(Apply(s, Read(j, ok)).value, i)
  {
    ReadIsLocal(s, j, ok);
    var t := Apply(s, Read(j, ok)).value;
    PrunedHoldsLess(s.store, s.flags, s.conns[j], ok, s.conns[i].job.base);
    PrunedHoldsLess(s.store, s.flags, s.conns[j], ok, s.conns[i].job.mark);
    if i != j {
      assert t.conns[i] == s.conns[i];
    } else {
      assert t.conns[i].job == s.conns[i].job;
    }
  }

  lemma OthersIdleOn(s: Host, i: nat, step: Step)
    requires Idles(s, i) && !step.Record? && !step.ChildExit? && !step.Read? && !step.Notify? && Apply(s, step).Some?
    requires !(step.Handle? && step.conn == i)
    ensures Idles(Apply(s, step).value, i)
  {
    var t := Apply(s, step).value;
    if step.Handle? {
      HandleIsLocal(s, step.conn, step.ok);
    }
    assert t.store == s.store && t.exit == s.exit && t.owed == s.owed;
    assert t.conns[i].pc == s.conns[i].pc && t.conns[i].job == s.conns[i].job;
  }

  lemma {:induction false} IdlesForEver(s: Host, i: nat, more: seq<Step>)
    requires Idles(s, i) && ChildIsQuiet(more) && Exec(s, more).Some?
    ensures Idles(Exec(s, more).value, i)
  {
    if more != [] {
      IdlesForEver(s, i, more[..|more| - 1]);
      IdlesOn(Exec(s, more[..|more| - 1]).value, i, more[|more| - 1]);
    }
  }

  /**
   In every run, for every connection that holds the slot and whose peer is gone: while the child is
   quiet the slot can be freed if and only if the handler has something to write, or will find it.
   */
  lemma FreedExactly(capacity: nat, steps: seq<Step>, i: nat)
    requires Exec(Init(capacity), steps).Some?
    requires var s := Exec(Init(capacity), steps).value;
      i < |s.conns| && Holds(s.conns[i].pc) && !s.conns[i].out.peerOpen
    ensures var s := Exec(Init(capacity), steps).value; CanBeFreed(s, i) <==> WillWrite(s, s.conns[i])
  {
    SaneInRun(capacity, steps);
    var s := Exec(Init(capacity), steps).value;
    if WillWrite(s, s.conns[i]) {
      WritersAreFreed(s, i);
    } else {
      forall more | ChildIsQuiet(more) && Exec(s, more).Some? ensures !Freed(Exec(s, more).value, i) {
        IdlesForEver(s, i, more);
      }
    }
  }

  lemma QuietCoreWaits(capacity: nat) returns (steps: seq<Step>, s: Host)
    ensures Exec(Init(capacity), steps) == Some(s) && s == Quiet(capacity, Stream(Wait, true), [Ready(0)], true, None)
  {
    steps, s := FirstCore(capacity);
    WaitsNext(capacity, s);
    steps, s := Go(capacity, steps, s, Handle(0, true));
  }

  lemma WaitsNext(capacity: nat, s: Host)
    requires s == Quiet(capacity, Stream(Send(None), true), [Ready(0)], true, None)
    ensures Apply(s, Handle(0, true)) == Some(Quiet(capacity, Stream(Wait, true), [Ready(0)], true, None))
  {
    var t := Quiet(capacity, Stream(Wait, true), [Ready(0)], true, None);
    assert s.conns[0 := t.conns[0]] == t.conns;
    assert SendStep(s.conns[0], None, true) == t.conns[0];
  }

  lemma LeavesNext(s: Host)
    requires |s.conns| == 1 && s.supervisor.Running? && s.store.ring == Ring([], 0) && s.exit.status.None?
    requires s.conns[0].pc == Stream(Wait, true) && s.conns[0].inbox == []
    ensures match Apply(s, PeerClose(0, 0))
      case None => false
      case Some(t) => |t.conns| == 1 && !t.conns[0].out.peerOpen && t.supervisor.Running? && Idles(t, 0)
  {
  }

  lemma QuietCoreLeaves(capacity: nat) returns (steps: seq<Step>, s: Host)
    ensures Exec(Init(capacity), steps) == Some(s) && |s.conns| == 1 && !s.conns[0].out.peerOpen && s.supervisor.Running?
    ensures Idles(s, 0)
  {
    steps, s := QuietCoreWaits(capacity);
    LeavesNext(s);
    steps, s := Go(capacity, steps, s, PeerClose(0, 0));
  }

  /**
   It happens: a Core leaves a quiet session, and while the child stays quiet the slot is never freed, so
   that every other Core is told it is already connected.
   */
  lemma QuietSessionStaysTaken(capacity: nat) returns (steps: seq<Step>, s: Host)
    ensures Exec(Init(capacity), steps) == Some(s) && |s.conns| == 1 && !s.conns[0].out.peerOpen && s.supervisor.Running?
    ensures forall more | ChildIsQuiet(more) && Exec(s, more).Some? ::
      Exec(s, more).value.flags.active && !Freed(Exec(s, more).value, 0)
  {
    steps, s := QuietCoreLeaves(capacity);
    SlotInRun(capacity, steps);
    forall more | ChildIsQuiet(more) && Exec(s, more).Some?
      ensures Exec(s, more).value.flags.active && !Freed(Exec(s, more).value, 0)
    {
      IdlesForEver(s, 0, more);
      SlotFrom(s, more);
    }
  }

  lemma {:induction false} SlotFrom(s: Host, more: seq<Step>)
    requires SlotOk(s) && Exec(s, more).Some?
    ensures SlotOk(Exec(s, more).value)
  {
    if more != [] {
      SlotFrom(s, more[..|more| - 1]);
      SlotStep(Exec(s, more[..|more| - 1]).value, more[|more| - 1]);
    }
  }
}
