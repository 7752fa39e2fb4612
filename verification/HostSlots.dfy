/**
 The single-connection slot, the accept loop, and a session's end that goes unannounced because
 its terminal could not be set up.
 */
module HostSlots {
  import opened Prelude
  import opened Rings
  import opened HostProtocol
  import opened HostDelivery
  import opened HostTheorems

  /** Between the claim of the slot and its release. */
  predicate Holds(pc: Pc) {
    !pc.AwaitHello? && !pc.Claim? && !pc.Closed?
  }

  /** The handler that holds the slot, if any, is the only one. */
  ghost predicate SlotOk(s: Host) {
    && (forall i, j :: 0 <= i < |s.conns| && 0 <= j < |s.conns| && Holds(s.conns[i].pc) && Holds(s.conns[j].pc) ==> i == j)
    && (s.flags.active <==> exists i :: 0 <= i < |s.conns| && Holds(s.conns[i].pc))
    && (s.accept.Accepting? || s.exit.status.Some?)
  }

  lemma HandleSlot(ring: Ring, exited: Option<ExitStatus>, flags: Flags, i: nat, c: Conn, ok: bool)
    requires HandleStep(ring, exited, flags, i, c, ok).Some?
    requires Holds(c.pc) ==> flags.active
    ensures var e := HandleStep(ring, exited, flags, i, c, ok).value;
      if Holds(c.pc) == Holds(e.conn.pc) then e.flags.active == flags.active
      else e.flags.active == Holds(e.conn.pc) && (Holds(e.conn.pc) ==> !flags.active)
  {
    if c.pc.Stream? {
      WriterSlot(ring, exited, flags, i, c, ok);
    }
  }

  /** A writer keeps the slot until it and the reader are done. */
  lemma WriterSlot(ring: Ring, exited: Option<ExitStatus>, flags: Flags, i: nat, c: Conn, ok: bool)
    requires c.pc.Stream? && WriterStep(ring, exited, flags, i, c, ok).Some?
    ensures var e := WriterStep(ring, exited, flags, i, c, ok).value;
      if Holds(e.conn.pc) then e.flags.active == flags.active else !e.flags.active
  {
  }

  /** Steps that keep every handler on its side of the slot, and the flag as it is. */
  lemma SlotUnchanged(s: Host, t: Host)
    requires SlotOk(s) && |s.conns| <= |t.conns| && t.flags.active == s.flags.active
    requires forall k :: 0 <= k < |s.conns| ==> Holds(t.conns[k].pc) == Holds(s.conns[k].pc)
    requires forall k :: |s.conns| <= k < |t.conns| ==> !Holds(t.conns[k].pc)
    requires t.accept.Accepting? || t.exit.status.Some?
    ensures SlotOk(t)
  {
    if s.flags.active {
      var i :| 0 <= i < |s.conns| && Holds(s.conns[i].pc);
      assert Holds(t.conns[i].pc);
    }
  }

  lemma SlotHandled(s: Host, i: nat, ok: bool)
    requires SlotOk(s) && Apply(s, Handle(i, ok)).Some?
    ensures SlotOk(Apply(s, Handle(i, ok)).value)
  {
    var t := Apply(s, Handle(i, ok)).value;
    HandleSlot(s.store.ring, s.exit.status, s.flags, i, s.conns[i], ok);
    assert forall k :: 0 <= k < |t.conns| && k != i ==> t.conns[k] == s.conns[k];
    if Holds(s.conns[i].pc) == Holds(t.conns[i].pc) {
      SlotUnchanged(s, t);
    } else if Holds(t.conns[i].pc) {
      assert forall k :: 0 <= k < |t.conns| && k != i ==> !Holds(s.conns[k].pc);
    }
  }

  lemma {:induction false} SlotInRun(capacity: nat, steps: seq<Step>)
    requires Exec(Init(capacity), steps).Some?
    ensures SlotOk(Exec(Init(capacity), steps).value)
  {
    if steps != [] {
      var before := steps[..|steps| - 1];
      var s := Exec(Init(capacity), before).value;
      SlotInRun(capacity, before);
      RunKeeps(capacity, before);
      SlotStep(s, steps[|steps| - 1]);
    }
  }

  lemma SlotNotified(s: Host)
    requires SlotOk(s) && Apply(s, Notify).Some?
    ensures SlotOk(Apply(s, Notify).value)
  {
    var t := Apply(s, Notify).value;
    assert forall k :: 0 <= k < |s.conns| ==> t.conns[k] == Wake(s.conns[k]);
    SlotUnchanged(s, t);
  }

  /** What the peers do, and what the reader does, leaves every handler where it is. */
  lemma SlotElsewhere(s: Host, step: Step)
    requires SlotOk(s) && Apply(s, step).Some?
    requires step.Peer? || step.PeerRead? || step.PeerClose? || step.Read?
    ensures SlotOk(Apply(s, step).value)
  {
    var t := Apply(s, step).value;
    var i := step.conn;
    assert t.conns == s.conns[i := t.conns[i]];
    assert Holds(t.conns[i].pc) == Holds(s.conns[i].pc);
    SlotUnchanged(s, t);
  }

  lemma SlotStep(s: Host, step: Step)
    requires SlotOk(s) && Apply(s, step).Some?
    ensures SlotOk(Apply(s, step).value)
  {
    if step.Handle? {
      SlotHandled(s, step.conn, step.ok);
    } else if step.Notify? {
      SlotNotified(s);
    } else if step.Peer? || step.PeerRead? || step.PeerClose? || step.Read? {
      SlotElsewhere(s, step);
    } else {
      SlotUnchanged(s, Apply(s, step).value);
    }
  }

  /**
   In every interleaving `connection_active` is set exactly while one handler is between its claim
   and its release, and the accept loop has left only if the exit flag is set.
   */
  lemma SlotIsExclusive(capacity: nat, steps: seq<Step>, i: nat, j: nat)
    requires Exec(Init(capacity), steps).Some?
    requires var s := Exec(Init(capacity), steps).value;
      i < |s.conns| && j < |s.conns| && Holds(s.conns[i].pc)
    ensures var s := Exec(Init(capacity), steps).value;
      s.flags.active && (Holds(s.conns[j].pc) <==> i == j)
  {
    SlotInRun(capacity, steps);
  }

  lemma SlotIsFreedOrHeld(capacity: nat, steps: seq<Step>)
    requires Exec(Init(capacity), steps).Some?
    ensures var s := Exec(Init(capacity), steps).value;
      && (s.flags.active ==> exists i :: 0 <= i < |s.conns| && Holds(s.conns[i].pc))
      && (s.accept.Left? ==> s.exit.status.Some?)
  {
    SlotInRun(capacity, steps);
  }

  // ---------- a terminal that cannot be set up ----------

  lemma {:induction false} EarlyReturnStays(capacity: nat, steps: seq<Step>)
    requires ReturnEarly in steps && Exec(Init(capacity), steps).Some?
    ensures Exec(Init(capacity), steps).value.supervisor.ReturnedEarly?
  {
    var before := steps[..|steps| - 1];
    if steps[|steps| - 1] != ReturnEarly {
      assert steps == before + [steps[|steps| - 1]];
      EarlyReturnStays(capacity, before);
    }
  }

  /**
   When `run_pty` returns early the exit flag is never set: the accept loop never leaves, so the
   host never exits, and no connection is ever told that the agent ended.
   */
  lemma EarlyReturnIsNeverAnnounced(capacity: nat, steps: seq<Step>)
    requires ReturnEarly in steps && Exec(Init(capacity), steps).Some?
    ensures var s := Exec(Init(capacity), steps).value;
      && s.accept.Accepting?
      && !s.flags.delivered
      && forall i, k :: 0 <= i < |s.conns| && 0 <= k < |s.conns[i].out.sent| ==> !s.conns[i].out.sent[k].AgentExited?
  {
    EarlyReturnStays(capacity, steps);
    RunKeeps(capacity, steps);
    SlotInRun(capacity, steps);
    var s := Exec(Init(capacity), steps).value;
    forall i, k | 0 <= i < |s.conns| && 0 <= k < |s.conns[i].out.sent|
      ensures !s.conns[i].out.sent[k].AgentExited?
    {
      if s.conns[i].out.sent[k].AgentExited? {
        ExitIsLastAndComplete(capacity, steps, i, k);
      }
    }
    forall i | 0 <= i < |s.conns|
      ensures NoExit(s.conns[i].out.sent)
    {
      NoneIsNoExit(s.conns[i].out.sent);
    }
  }

  lemma {:induction false} NoneIsNoExit(frames: seq<Frame>)
    requires forall k :: 0 <= k < |frames| ==> !frames[k].AgentExited?
    ensures NoExit(frames)
  {
    if frames != [] {
      NoneIsNoExit(frames[..|frames| - 1]);
    }
  }

  // ---------- runs step by step ----------

  lemma ExecOne(s: Host, steps: seq<Step>, step: Step)
    ensures Exec(s, steps + [step]) ==
      match Exec(s, steps) case None => None case Some(t) => Apply(t, step)
  {
    assert (steps + [step])[..|steps + [step]| - 1] == steps;
  }

  /** One more step of a run. */
  lemma Go(capacity: nat, steps: seq<Step>, s: Host, step: Step) returns (steps': seq<Step>, t: Host)
    requires Exec(Init(capacity), steps) == Some(s) && Apply(s, step).Some?
    ensures steps' == steps + [step] && t == Apply(s, step).value && Exec(Init(capacity), steps') == Some(t)
  {
    steps', t := steps + [step], Apply(s, step).value;
    ExecOne(Init(capacity), steps, step);
  }

  /** A host that has recorded nothing, with one connection that has been sent `sent`. */
  function Quiet(capacity: nat, pc: Pc, sent: seq<Frame>, active: bool, held: Option<nat>): Host {
    var s := Init(capacity);
    s.(conns := [FRESH_CONN.(pc := pc, out := FRESH_CONN.out.(sent := sent))], flags := Flags(active, false, held))
  }

  lemma NothingToReplay()
    ensures Replay(Ring([], 0), 0) == []
  {
  }

  lemma FirstClaim(capacity: nat) returns (steps: seq<Step>, s: Host)
    ensures Exec(Init(capacity), steps) == Some(s) && s == Quiet(capacity, SendReady, [], true, None)
  {
    steps, s := Go(capacity, [], Init(capacity), Connect);
    steps, s := Go(capacity, steps, s, Peer(0, Hello(true, 0)));
    assert s.conns[0].inbox == [Hello(true, 0)];
    assert s.conns == [FRESH_CONN.(inbox := [Hello(true, 0)])];
    steps, s := Go(capacity, steps, s, Handle(0, true));
    assert [Hello(true, 0)][1..] == [];
    assert s.conns == [FRESH_CONN.(pc := Claim)];
    steps, s := Go(capacity, steps, s, Handle(0, true));
    assert s.conns == [FRESH_CONN.(pc := SnapLast)];
    steps, s := Go(capacity, steps, s, Handle(0, true));
    assert s.conns == [FRESH_CONN.(pc := SendReady)];
  }

  lemma FirstReplay(capacity: nat) returns (steps: seq<Step>, s: Host)
    ensures Exec(Init(capacity), steps) == Some(s) && s == Quiet(capacity, SendReplay, [Ready(0)], true, None)
  {
    NothingToReplay();
    steps, s := FirstClaim(capacity);
    steps, s := Go(capacity, steps, s, Handle(0, true));
    assert s.conns[0].out.sent == [Ready(0)];
    assert s.conns == Quiet(capacity, SnapReplay, [Ready(0)], true, None).conns;
    steps, s := Go(capacity, steps, s, Handle(0, true));
    assert s.conns == Quiet(capacity, SendReplay, [Ready(0)], true, None).conns;
  }

  /** A first Core connects to a host that has recorded nothing; its writer has just looked at the exit flag. */
  lemma FirstCore(capacity: nat) returns (steps: seq<Step>, s: Host)
    ensures Exec(Init(capacity), steps) == Some(s)
    ensures s == Quiet(capacity, Stream(Send(None), true), [Ready(0)], true, None)
  {
    NothingToReplay();
    steps, s := FirstReplay(capacity);
    steps, s := Go(capacity, steps, s, Handle(0, true));
    assert s.conns == Quiet(capacity, Stream(Snapshot, true), [Ready(0)], true, None).conns;
    steps, s := Go(capacity, steps, s, Handle(0, true));
    assert s.conns == Quiet(capacity, Stream(ReadExit, true), [Ready(0)], true, Some(0)).conns;
    steps, s := Go(capacity, steps, s, Handle(0, true));
    assert s.conns == Quiet(capacity, Stream(Send(None), true), [Ready(0)], true, None).conns;
  }
}
