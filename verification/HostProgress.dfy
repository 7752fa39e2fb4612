/**
 Whether a connected Core can still be told that the child has exited. `notify_waiters` wakes only
 the writers already waiting, so the wake-up of the exit can be missed; this says exactly when.
 */
module HostProgress {
  import opened Prelude
  import opened Rings
  import opened HostProtocol
  import opened HostDelivery
  import opened HostTheorems
  import opened HostSlots

  /** The ring lock is held across steps only by a writer between its two reads. */
  predicate LockIsRead(s: Host) {
    s.flags.ringHeld.Some? ==> s.flags.ringHeld.value < |s.conns| && Reading(s.conns[s.flags.ringHeld.value].pc)
  }

  lemma LockHandled(s: Host, i: nat, ok: bool)
    requires LockIsRead(s) && Apply(s, Handle(i, ok)).Some?
    ensures LockIsRead(Apply(s, Handle(i, ok)).value)
  {
    HandleIsLocal(s, i, ok);
    LockEffects(s.store.ring, s.exit.status, s.flags, i, s.conns[i], ok);
  }

  lemma LockEffects(ring: Ring, exited: Option<ExitStatus>, flags: Flags, i: nat, c: Conn, ok: bool)
    requires HandleStep(ring, exited, flags, i, c, ok).Some?
    ensures var e := HandleStep(ring, exited, flags, i, c, ok).value;
      if Reading(c.pc) then e.flags.ringHeld == None
      else e.flags.ringHeld == flags.ringHeld || (e.flags.ringHeld == Some(i) && Reading(e.conn.pc))
  {
  }

  lemma LockStep(s: Host, step: Step)
    requires LockIsRead(s) && Apply(s, step).Some?
    ensures LockIsRead(Apply(s, step).value)
  {
    match step
    case Handle(i, ok) => LockHandled(s, i, ok);
    case Read(i, ok) => ReadIsLocal(s, i, ok);
    case _ =>
  }

  ghost predicate Sane(s: Host) {
    Inv(s) && SlotOk(s) && LockIsRead(s)
  }

  lemma SaneStep(s: Host, step: Step)
    requires Sane(s) && Apply(s, step).Some?
    ensures Sane(Apply(s, step).value)
  {
    StepKeeps(s, step);
    SlotStep(s, step);
    LockStep(s, step);
  }

  lemma {:induction false} SaneInRun(capacity: nat, steps: seq<Step>)
    requires Exec(Init(capacity), steps).Some?
    ensures Sane(Exec(Init(capacity), steps).value)
  {
    RunKeeps(capacity, steps);
    SlotInRun(capacity, steps);
    if steps != [] {
      var before := steps[..|steps| - 1];
      SaneInRun(capacity, before);
      LockStep(Exec(Init(capacity), before).value, steps[|steps| - 1]);
    }
  }

  // ---------- who has heard, and who still can ----------

  ghost predicate Told(s: Host, i: nat) {
    i < |s.conns| && !NoExit(s.conns[i].out.sent)
  }

  predicate NoRecord(steps: seq<Step>) {
    forall k :: 0 <= k < |steps| ==> !steps[k].Record?
  }

  /** Some continuation in which nothing more is recorded puts AgentExited on the connection. */
  ghost predicate CanBeTold(s: Host, i: nat) {
    exists more :: NoRecord(more) && Exec(s, more).Some? && Told(Exec(s, more).value, i)
  }

  /**
   The handler is on its way to a look at the exit flag, or has seen it; one whose writer waits, or is
   about to, needs a call of `notify_waiters` that is still to come.
   */
  predicate CanHear(s: Host, c: Conn) {
    match c.pc
    case SnapLast => true
    case SendReady => true
    case SnapReplay => true
    case SendReplay => true
    case Stream(writer, _) =>
      (match writer
       case Snapshot => true
       case ReadExit => true
       case Send(exit) => exit.Some? || s.owed > 0
       case Wait => s.owed > 0
       case _ => false)
    case _ => false
  }

  /** Past the claim of the slot, or refused. */
  predicate Decided(pc: Pc) {
    !pc.AwaitHello? && !pc.Claim?
  }

  // ---------- the way to the announcement ----------

  lemma {:induction false} ExecFirst(s: Host, step: Step, more: seq<Step>)
    requires Apply(s, step).Some?
    ensures Exec(s, [step] + more) == Exec(Apply(s, step).value, more)
  {
    if more == [] {
      assert [step] + more == [step] && [step][..0] == [];
    } else {
      var n := |more| - 1;
      assert ([step] + more)[..n + 1] == [step] + more[..n];
      ExecFirst(s, step, more[..n]);
    }
  }

  lemma ToldNow(s: Host, i: nat)
    requires Told(s, i)
    ensures CanBeTold(s, i)
  {
    assert NoRecord([]) && Exec(s, []) == Some(s);
  }

  lemma ToldLater(s: Host, step: Step, i: nat)
    requires !step.Record? && Apply(s, step).Some? && CanBeTold(Apply(s, step).value, i)
    ensures CanBeTold(s, i)
  {
    var t := Apply(s, step).value;
    var more :| NoRecord(more) && Exec(t, more).Some? && Told(Exec(t, more).value, i);
    ExecFirst(s, step, more);
    assert NoRecord([step] + more);
  }

  /** How far the handler is from the announcement. */
  function Stage(pc: Pc): nat {
    match pc
    case SnapLast => 9
    case SendReady => 8
    case SnapReplay => 7
    case SendReplay => 6
    case Stream(writer, _) =>
      (match writer
       case Send(exit) => if exit.Some? then 1 else 5
       case Wait => 4
       case Snapshot => 3
       case ReadExit => 2
       case _ => 0)
    case _ => 0
  }

  predicate Nearer(c: Conn, d: Conn) {
    Stage(d.pc) < Stage(c.pc) || (Stage(d.pc) == Stage(c.pc) && |d.job.todo| < |c.job.todo|)
  }

  /** Nobody but the handler of the one claimed connection could hold the ring lock. */
  lemma LockIsFree(s: Host, i: nat)
    requires Sane(s) && i < |s.conns| && Holds(s.conns[i].pc) && !Reading(s.conns[i].pc)
    ensures s.flags.ringHeld == None
  {
    assert s.flags.ringHeld.Some? ==> Holds(s.conns[s.flags.ringHeld.value].pc);
  }

  /** The writer that waits goes on when it is notified; any other handler goes on by itself. */
  function NextStep(c: Conn, i: nat): Step {
    if c.pc.Stream? && c.pc.writer.Wait? then Notify else Handle(i, true)
  }

  /** The step sends the exit status the writer has seen. */
  predicate Announcement(c: Conn, d: Conn) {
    Stage(c.pc) == 1 && d.out.sent == c.out.sent + [AgentExited(c.pc.writer.exit.value)]
  }

  lemma HandlerAdvances(ring: Ring, status: ExitStatus, flags: Flags, i: nat, c: Conn)
    requires Decided(c.pc) && Stage(c.pc) > 0 && Stage(c.pc) != 4 && (Reading(c.pc) || flags.ringHeld == None)
    ensures match HandleStep(ring, Some(status), flags, i, c, true)
      case None => false
      case Some(e) => (Nearer(c, e.conn) && Stage(e.conn.pc) > 0) || Announcement(c, e.conn)
  {
  }

  lemma ExitIsHeard(frames: seq<Frame>, status: ExitStatus)
    ensures !NoExit(frames + [AgentExited(status)])
  {
    assert (frames + [AgentExited(status)])[|frames|].AgentExited?;
  }

  lemma Advances(s: Host, i: nat)
    requires Sane(s) && s.exit.status.Some? && i < |s.conns| && CanHear(s, s.conns[i])
    ensures match Apply(s, NextStep(s.conns[i], i))
      case None => false
      case Some(t) =>
        && i < |t.conns| && t.exit.status.Some?
        && (Told(t, i) || (CanHear(t, t.conns[i]) && Nearer(s.conns[i], t.conns[i])))
  {
    var c := s.conns[i];
    if !(c.pc.Stream? && c.pc.writer.Wait?) {
      if !Reading(c.pc) {
        LockIsFree(s, i);
      }
      HandlerAdvances(s.store.ring, s.exit.status.value, s.flags, i, c);
      if Stage(c.pc) == 1 {
        ExitIsHeard(c.out.sent, c.pc.writer.exit.value);
      }
    }
  }

  lemma {:induction false} Announces(s: Host, i: nat)
    requires Sane(s) && s.exit.status.Some? && i < |s.conns| && CanHear(s, s.conns[i])
    ensures CanBeTold(s, i)
    decreases Stage(s.conns[i].pc), |s.conns[i].job.todo|
  {
    var step := NextStep(s.conns[i], i);
    Advances(s, i);
    SaneStep(s, step);
    var t := Apply(s, step).value;
    if Told(t, i) {
      ToldNow(t, i);
    } else {
      Announces(t, i);
    }
    ToldLater(s, step, i);
  }

  // ---------- a Core that is never told ----------

  /** The exit is known, the connection has not carried it, and its handler will not look again unless something is recorded. */
  predicate Stranded(s: Host, i: nat) {
    && i < |s.conns| && s.supervisor.Exited? && Decided(s.conns[i].pc)
    && NoExit(s.conns[i].out.sent) && !CanHear(s, s.conns[i])
    && !(s.conns[i].pc.Stream? && (s.conns[i].pc.writer.Shutdown? || s.conns[i].pc.writer.Deliver?))
  }

  lemma StrandedStep(s: Host, i: nat, step: Step)
    requires Stranded(s, i) && !step.Record? && Apply(s, step).Some?
    ensures Stranded(Apply(s, step).value, i)
  {
    match step
    case Handle(j, ok) => StrandedHandled(s, i, j, ok);
    case Read(j, ok) => StrandedRead(s, i, j, ok);
    case _ =>
  }

  lemma StrandedHandled(s: Host, i: nat, j: nat, ok: bool)
    requires Stranded(s, i) && Apply(s, Handle(j, ok)).Some?
    ensures Stranded(Apply(s, Handle(j, ok)).value, i)
  {
    HandleIsLocal(s, j, ok);
    if i == j {
      StrandedHandler(s.store.ring, s.exit.status, s.flags, i, s.conns[i], ok);
    }
  }

  lemma StrandedHandler(ring: Ring, exited: Option<ExitStatus>, flags: Flags, i: nat, c: Conn, ok: bool)
    requires NoExit(c.out.sent) && HandleStep(ring, exited, flags, i, c, ok).Some?
    requires c.pc.Release? || c.pc.Closed? || (c.pc.Stream? && (c.pc.writer.Done? || c.pc.writer == Send(None) || c.pc.writer.Wait?))
    ensures var d := HandleStep(ring, exited, flags, i, c, ok).value.conn;
      && NoExit(d.out.sent)
      && (d.pc.Closed? || (d.pc.Stream? && (d.pc.writer.Done? || (c.pc.writer == Send(None) && (d.pc.writer == Send(None) || d.pc.writer.Wait?)))))
  {
    if c.pc.Stream? && c.pc.writer.Send? && c.job.todo != [] {
      NoExitGoesOn(c.out.sent, Stdout(c.job.todo[0]));
    }
  }

  lemma NoExitGoesOn(frames: seq<Frame>, f: Frame)
    requires NoExit(frames) && !f.AgentExited?
    ensures NoExit(frames + [f])
  {
    assert (frames + [f])[..|frames + [f]| - 1] == frames;
  }

  lemma StrandedRead(s: Host, i: nat, j: nat, ok: bool)
    requires Stranded(s, i) && Apply(s, Read(j, ok)).Some?
    ensures Stranded(Apply(s, Read(j, ok)).value, i)
  {
    ReadIsLocal(s, j, ok);
    if j == i {
      NoExitGoesOn(s.conns[i].out.sent, Pong);
    }
  }

  /** From there on, while nothing more is recorded, AgentExited is not sent on the connection. */
  lemma {:induction false} StrandedForEver(s: Host, i: nat, steps: seq<Step>)
    requires Stranded(s, i) && NoRecord(steps) && Exec(s, steps).Some?
    ensures Stranded(Exec(s, steps).value, i)
  {
    if steps != [] {
      StrandedForEver(s, i, steps[..|steps| - 1]);
      StrandedStep(Exec(s, steps[..|steps| - 1]).value, i, steps[|steps| - 1]);
    }
  }

  /**
   In every run, for every connection past its claim, once the exit flag is set and as long as the
   connection has not carried AgentExited: it can still carry it without anything more being recorded
   if and only if its handler can hear. A writer that is waiting, or that has looked at the flag too
   early and is about to wait, can exactly if a call of `notify_waiters` is still to come.
   */
  lemma ToldExactlyIfItCanHear(capacity: nat, steps: seq<Step>, i: nat)
    requires Exec(Init(capacity), steps).Some?
    requires var s := Exec(Init(capacity), steps).value;
      && s.exit.status.Some? && i < |s.conns| && Decided(s.conns[i].pc) && NoExit(s.conns[i].out.sent)
    ensures var s := Exec(Init(capacity), steps).value;
      CanBeTold(s, i) <==> CanHear(s, s.conns[i])
  {
    SaneInRun(capacity, steps);
    var s := Exec(Init(capacity), steps).value;
    if CanHear(s, s.conns[i]) {
      Announces(s, i);
    } else {
      assert Delivers(FactsOf(s), s.conns[i]);
      assert Stranded(s, i);
      forall more | NoRecord(more) && Exec(s, more).Some? ensures !Told(Exec(s, more).value, i) {
        StrandedForEver(s, i, more);
      }
    }
  }

  /**
   It happens: the child exits, and the waiters are notified, between the writer's look at the exit
   flag and its wait, and the connected Core is never told.
   */
  lemma WakeCanBeMissed(capacity: nat) returns (steps: seq<Step>)
    ensures Exec(Init(capacity), steps).Some?
    ensures var s := Exec(Init(capacity), steps).value;
      Stranded(s, 0) && s.conns[0].pc.Stream? && s.conns[0].pc.writer.Wait? && s.conns[0].out.peerOpen
  {
    var s;
    steps, s := NotifiedTooEarly(capacity);
    steps, s := Go(capacity, steps, s, Handle(0, true));
    assert [Ready(0)][..0] == [];
  }

  lemma NotifiedTooEarly(capacity: nat) returns (steps: seq<Step>, s: Host)
    ensures Exec(Init(capacity), steps) == Some(s) && |s.conns| == 1 && s.supervisor.Exited? && s.owed == 0
    ensures var c := s.conns[0];
      && c.pc == Stream(Send(None), true) && c.out.sent == [Ready(0)] && c.job.todo == [] && c.out.peerOpen
  {
    steps, s := FirstCore(capacity);
    steps, s := Go(capacity, steps, s, ChildExit(ExitStatus(Some(0), None)));
    steps, s := Go(capacity, steps, s, Notify);
  }
}
