/** The end of a run: what AgentExited carries, when its delivery is recorded, and whether the host can leave. */
module HostEnding {
  import opened Prelude
  import opened Rings
  import opened HostProtocol
  import opened HostDelivery
  import opened HostTheorems
  import opened HostSlots
  import opened HostProgress

  // ---------- the exit flag ----------

  function Records(steps: seq<Step>): nat {
    if steps == [] then 0 else Records(steps[..|steps| - 1]) + if steps[|steps| - 1].Record? then 1 else 0
  }

  /** How the child ended, and how many chunks had been recorded by then. */
  function ChildsEnd(steps: seq<Step>): Exit {
    if steps == [] then Exit(None, 0) else
    var before := steps[..|steps| - 1];
    match steps[|steps| - 1]
    case ChildExit(status) => Exit(Some(status), Records(before))
    case _ => ChildsEnd(before)
  }

  lemma ExitStep(s: Host, step: Step)
    requires Apply(s, step).Some?
    ensures var t := Apply(s, step).value;
      && |t.store.ring.log| == |s.store.ring.log| + (if step.Record? then 1 else 0)
      && t.exit == if step.ChildExit? then Exit(Some(step.status), |s.store.ring.log|) else s.exit
  {
    match step
    case Handle(i, ok) => HandleIsLocal(s, i, ok);
    case Read(i, ok) => ReadIsLocal(s, i, ok);
    case _ =>
  }

  lemma {:induction false} FlagIsChildsEnd(capacity: nat, steps: seq<Step>)
    requires Exec(Init(capacity), steps).Some?
    ensures var s := Exec(Init(capacity), steps).value;
      |s.store.ring.log| == Records(steps) && s.exit == ChildsEnd(steps)
  {
    if steps != [] {
      var before := steps[..|steps| - 1];
      FlagIsChildsEnd(capacity, before);
      ExitStep(Exec(Init(capacity), before).value, steps[|steps| - 1]);
    }
  }

  /** In every run AgentExited carries the status with which the child ended. */
  lemma AgentExitedTellsTheTruth(capacity: nat, steps: seq<Step>, i: nat, k: nat)
    requires Exec(Init(capacity), steps).Some?
    requires var s := Exec(Init(capacity), steps).value;
      i < |s.conns| && k < |s.conns[i].out.sent| && s.conns[i].out.sent[k].AgentExited?
    ensures ChildsEnd(steps).status == Some(Exec(Init(capacity), steps).value.conns[i].out.sent[k].status)
  {
    FlagIsChildsEnd(capacity, steps);
    ExitIsLastAndComplete(capacity, steps, i, k);
  }

  // ---------- the delivery is recorded ----------

  predicate Shutting(pc: Pc) {
    pc.Stream? && (pc.writer.Shutdown? || pc.writer.Deliver?)
  }

  /** The connection carries AgentExited, and its writer has done with it. */
  predicate Settled(c: Conn) {
    !NoExit(c.out.sent) && !Shutting(c.pc)
  }

  ghost predicate Recorded(s: Host) {
    s.flags.delivered <==> exists k :: 0 <= k < |s.conns| && Settled(s.conns[k])
  }

  /** What the end of a connection depends on. */
  predicate EndsWell(c: Conn) {
    if NoExit(c.out.sent) then !Shutting(c.pc) else Finishing(c.pc)
  }

  /** Of a frame that is no AgentExited nothing is settled. */
  lemma PlainSettles(c: Conn, d: Conn, f: Frame)
    requires NoExit(c.out.sent) && !f.AgentExited? && (d.out.sent == c.out.sent || d.out.sent == c.out.sent + [f])
    ensures NoExit(d.out.sent)
  {
    NoExitGoesOn(c.out.sent, f);
  }

  lemma HandlerSettles(ring: Ring, exited: Option<ExitStatus>, flags: Flags, i: nat, c: Conn, ok: bool)
    requires HandleStep(ring, exited, flags, i, c, ok).Some? && EndsWell(c)
    ensures var e := HandleStep(ring, exited, flags, i, c, ok).value;
      && (e.flags.delivered <==> flags.delivered || (Settled(e.conn) && !Settled(c)))
      && (Settled(c) ==> Settled(e.conn))
  {
    var d := HandleStep(ring, exited, flags, i, c, ok).value.conn;
    match c.pc
    case AwaitHello => PlainSettles(c, d, CookieMismatch);
    case Claim => PlainSettles(c, d, AlreadyConnected);
    case SendReady => PlainSettles(c, d, Ready(c.job.mark));
    case SendReplay => PlainSettles(c, d, if c.job.todo != [] then Stdout(c.job.todo[0]) else Pong);
    case Stream(_, _) => WriterSettles(ring, exited, flags, i, c, ok);
    case _ =>
  }

  lemma WriterSettles(ring: Ring, exited: Option<ExitStatus>, flags: Flags, i: nat, c: Conn, ok: bool)
    requires c.pc.Stream? && WriterStep(ring, exited, flags, i, c, ok).Some? && EndsWell(c)
    ensures var e := WriterStep(ring, exited, flags, i, c, ok).value;
      && (e.flags.delivered <==> flags.delivered || (Settled(e.conn) && !Settled(c)))
      && (Settled(c) ==> Settled(e.conn))
  {
    if c.pc.writer.Send? && c.job.todo != [] {
      NoExitGoesOn(c.out.sent, Stdout(c.job.todo[0]));
    }
  }

  /** Connections that settle as others do, one by one. */
  lemma SameSettled(s: Host, t: Host)
    requires Recorded(s) && t.flags.delivered == s.flags.delivered && |s.conns| <= |t.conns|
    requires forall k :: 0 <= k < |s.conns| ==> Settled(t.conns[k]) == Settled(s.conns[k])
    requires forall k :: |s.conns| <= k < |t.conns| ==> !Settled(t.conns[k])
    ensures Recorded(t)
  {
    if s.flags.delivered {
      var k :| 0 <= k < |s.conns| && Settled(s.conns[k]);
      assert Settled(t.conns[k]);
    }
  }

  /** One connection settles, and the delivery is recorded with it. */
  lemma OneSettles(s: Host, t: Host, i: nat)
    requires Recorded(s) && i < |s.conns| == |t.conns|
    requires forall k :: 0 <= k < |s.conns| && k != i ==> t.conns[k] == s.conns[k]
    requires t.flags.delivered <==> s.flags.delivered || (Settled(t.conns[i]) && !Settled(s.conns[i]))
    requires Settled(s.conns[i]) ==> Settled(t.conns[i])
    ensures Recorded(t)
  {
    if s.flags.delivered {
      var k :| 0 <= k < |s.conns| && Settled(s.conns[k]);
      assert Settled(t.conns[k]);
    }
    if k :| 0 <= k < |t.conns| && Settled(t.conns[k]) {
      assert k != i ==> Settled(s.conns[k]);
    }
  }

  lemma HandleRecords(s: Host, i: nat, ok: bool)
    requires Recorded(s) && Apply(s, Handle(i, ok)).Some? && EndsWell(s.conns[i])
    ensures Recorded(Apply(s, Handle(i, ok)).value)
  {
    HandleIsLocal(s, i, ok);
    HandlerSettles(s.store.ring, s.exit.status, s.flags, i, s.conns[i], ok);
    OneSettles(s, Apply(s, Handle(i, ok)).value, i);
  }

  lemma ReaderSettles(store: Store, flags: Flags, c: Conn, ok: bool)
    requires ReadStep(store, flags, c, ok).Some? && EndsWell(c)
    requires !NoExit(c.out.sent) && c.pc.Stream? && !c.pc.writer.Shutdown? ==> c.out.shut
    ensures Settled(ReadStep(store, flags, c, ok).value.conn) == Settled(c)
  {
    if NoExit(c.out.sent) {
      PlainSettles(c, ReadStep(store, flags, c, ok).value.conn, Pong);
    }
  }

  lemma ReadRecords(s: Host, i: nat, ok: bool)
    requires Recorded(s) && Apply(s, Read(i, ok)).Some? && EndsWell(s.conns[i])
    requires var c := s.conns[i]; !NoExit(c.out.sent) && c.pc.Stream? && !c.pc.writer.Shutdown? ==> c.out.shut
    ensures Recorded(Apply(s, Read(i, ok)).value)
  {
    ReadIsLocal(s, i, ok);
    ReaderSettles(s.store, s.flags, s.conns[i], ok);
    OneSettles(s, Apply(s, Read(i, ok)).value, i);
  }

  lemma RecordedStep(s: Host, step: Step)
    requires Recorded(s) && Inv(s) && Apply(s, step).Some?
    ensures Recorded(Apply(s, step).value)
  {
    var t := Apply(s, step).value;
    if step.Handle? {
      assert Delivers(FactsOf(s), s.conns[step.conn]);
      HandleRecords(s, step.conn, step.ok);
    } else if step.Read? {
      assert Delivers(FactsOf(s), s.conns[step.conn]);
      ReadRecords(s, step.conn, step.ok);
    } else {
      OthersSettle(s, step);
    }
  }

  lemma OthersSettle(s: Host, step: Step)
    requires Recorded(s) && Apply(s, step).Some? && !step.Handle? && !step.Read?
    ensures Recorded(Apply(s, step).value)
  {
    var t := Apply(s, step).value;
    assert step.Notify? ==> forall k :: 0 <= k < |s.conns| ==> t.conns[k] == Wake(s.conns[k]);
    SameSettled(s, t);
  }

  /**
   In every run `delivered_exit` is set if and only if some connection carries AgentExited and its writer
   has done with it.
   */
  lemma {:induction false} DeliveredExactly(capacity: nat, steps: seq<Step>)
    requires Exec(Init(capacity), steps).Some?
    ensures var s := Exec(Init(capacity), steps).value;
      s.flags.delivered <==> exists i :: 0 <= i < |s.conns| && Settled(s.conns[i])
  {
    if steps != [] {
      var before := steps[..|steps| - 1];
      DeliveredExactly(capacity, before);
      RunKeeps(capacity, before);
      RecordedStep(Exec(Init(capacity), before).value, steps[|steps| - 1]);
    }
  }

  // ---------- whether the host can leave ----------

  ghost predicate CanLeave(s: Host) {
    exists more :: Exec(s, more).Some? && Exec(s, more).value.accept.Left?
  }

  lemma LeftNow(s: Host)
    requires s.accept.Left?
    ensures CanLeave(s)
  {
    assert Exec(s, []) == Some(s);
  }

  lemma LeavesLater(s: Host, step: Step)
    requires Apply(s, step).Some? && CanLeave(Apply(s, step).value)
    ensures CanLeave(s)
  {
    var t := Apply(s, step).value;
    var more :| Exec(t, more).Some? && Exec(t, more).value.accept.Left?;
    ExecFirst(s, step, more);
    assert Exec(s, [step] + more).Some?;
  }

  lemma Leaves(s: Host)
    requires s.exit.status.Some?
    ensures CanLeave(s)
  {
    if s.accept.Accepting? {
      var t := Apply(s, SeeExit).value;
      LeftNow(Apply(t, Leave).value);
      LeavesLater(t, Leave);
      LeavesLater(s, SeeExit);
    } else if s.accept.Grace? {
      LeftNow(Apply(s, Leave).value);
      LeavesLater(s, Leave);
    } else {
      LeftNow(s);
    }
  }

  lemma {:induction false} Stays(s: Host, more: seq<Step>)
    requires s.supervisor.ReturnedEarly? && s.exit.status.None? && s.accept.Accepting? && Exec(s, more).Some?
    ensures var t := Exec(s, more).value; t.supervisor.ReturnedEarly? && t.exit.status.None? && t.accept.Accepting?
  {
    if more != [] {
      Stays(s, more[..|more| - 1]);
    }
  }

  /** In every run the host can still leave if and only if its supervisor has not returned early. */
  lemma LeavesExactly(capacity: nat, steps: seq<Step>)
    requires Exec(Init(capacity), steps).Some?
    ensures var s := Exec(Init(capacity), steps).value; CanLeave(s) <==> !s.supervisor.ReturnedEarly?
  {
    RunKeeps(capacity, steps);
    SlotInRun(capacity, steps);
    var s := Exec(Init(capacity), steps).value;
    match s.supervisor
    case Exited => Leaves(s);
    case Running =>
      var step := ChildExit(ExitStatus(None, None));
      Leaves(Apply(s, step).value);
      LeavesLater(s, step);
    case ReturnedEarly =>
      forall more | Exec(s, more).Some? ensures !Exec(s, more).value.accept.Left? {
        Stays(s, more);
      }
  }
}
