/** The order of the frames on a connection, in every run: a refusal alone, or Ready, then output, then the exit. */
module HostGrammar {
  import opened Prelude
  import opened Rings
  import opened HostProtocol
  import opened HostTheorems

  /** Ready comes first, with the length of the log when it was read, or 0; after it come only output, answers and the exit. */
  predicate Talk(len: nat, frames: seq<Frame>) {
    frames != [] &&
    if |frames| == 1 then frames[0].Ready? && (frames[0].lastSeq == 0 || frames[0].lastSeq == len)
    else Talk(len, frames[..|frames| - 1]) && AfterReady(frames[|frames| - 1])
  }

  predicate AfterReady(f: Frame) {
    f.Stdout? || f.Pong? || f.AgentExited?
  }

  predicate Refusal(frames: seq<Frame>) {
    frames == [CookieMismatch] || frames == [AlreadyConnected]
  }

  /** What a handler has said by the time it is at a place. */
  predicate Spoken(c: Conn) {
    match c.pc
    case AwaitHello => c.out.sent == []
    case Claim => c.out.sent == []
    case SnapLast => c.out.sent == []
    case SendReady => c.out.sent == [] && (c.job.mark == 0 || c.job.mark == c.trace.len1)
    case Release => c.out.sent == [] || Talk(c.trace.len1, c.out.sent)
    case Closed => c.out.sent == [] || Refusal(c.out.sent) || Talk(c.trace.len1, c.out.sent)
    case _ => Talk(c.trace.len1, c.out.sent)
  }

  lemma TalkGoesOn(len: nat, frames: seq<Frame>, f: Frame)
    requires Talk(len, frames) && AfterReady(f)
    ensures Talk(len, frames + [f])
  {
    assert (frames + [f])[..|frames + [f]| - 1] == frames;
  }

  lemma FirstWord(frames: seq<Frame>, f: Frame)
    requires frames == []
    ensures frames + [f] == [f]
  {
  }

  lemma HandleSpoken(ring: Ring, exited: Option<ExitStatus>, flags: Flags, i: nat, c: Conn, ok: bool)
    requires Spoken(c) && HandleStep(ring, exited, flags, i, c, ok).Some?
    ensures Spoken(HandleStep(ring, exited, flags, i, c, ok).value.conn)
  {
    match c.pc
    case AwaitHello => FirstWord(c.out.sent, CookieMismatch);
    case Claim => FirstWord(c.out.sent, AlreadyConnected);
    case SendReady => FirstWord(c.out.sent, Ready(c.job.mark));
    case SendReplay =>
      if c.job.todo != [] {
        TalkGoesOn(c.trace.len1, c.out.sent, Stdout(c.job.todo[0]));
      }
    case Stream(_, _) => WriterSpoken(ring, exited, flags, i, c, ok);
    case _ =>
  }

  lemma WriterSpoken(ring: Ring, exited: Option<ExitStatus>, flags: Flags, i: nat, c: Conn, ok: bool)
    requires Spoken(c) && c.pc.Stream? && WriterStep(ring, exited, flags, i, c, ok).Some?
    ensures Spoken(WriterStep(ring, exited, flags, i, c, ok).value.conn)
  {
    if c.pc.writer.Send? {
      if c.job.todo != [] {
        TalkGoesOn(c.trace.len1, c.out.sent, Stdout(c.job.todo[0]));
      } else if c.pc.writer.exit.Some? {
        TalkGoesOn(c.trace.len1, c.out.sent, AgentExited(c.pc.writer.exit.value));
      }
    }
  }

  lemma ReadSpoken(store: Store, flags: Flags, c: Conn, ok: bool)
    requires Spoken(c) && ReadStep(store, flags, c, ok).Some?
    ensures Spoken(ReadStep(store, flags, c, ok).value.conn)
  {
    TalkGoesOn(c.trace.len1, c.out.sent, Pong);
  }

  predicate AllSpoken(s: Host) {
    forall k | 0 <= k < |s.conns| :: Spoken(s.conns[k])
  }

  lemma StepSpoken(s: Host, step: Step)
    requires AllSpoken(s) && Apply(s, step).Some?
    ensures AllSpoken(Apply(s, step).value)
  {
    var t := Apply(s, step).value;
    match step
    case Handle(i, ok) =>
      HandleSpoken(s.store.ring, s.exit.status, s.flags, i, s.conns[i], ok);
      HandleIsLocal(s, i, ok);
    case Read(i, ok) =>
      ReadSpoken(s.store, s.flags, s.conns[i], ok);
      ReadIsLocal(s, i, ok);
    case Notify =>
      forall k | 0 <= k < |t.conns| ensures Spoken(t.conns[k]) {
        assert t.conns[k] == Wake(s.conns[k]);
      }
    case _ =>
  }

  lemma {:induction false} RunSpoken(capacity: nat, steps: seq<Step>)
    requires Exec(Init(capacity), steps).Some?
    ensures AllSpoken(Exec(Init(capacity), steps).value)
  {
    if steps != [] {
      var before := steps[..|steps| - 1];
      RunSpoken(capacity, before);
      StepSpoken(Exec(Init(capacity), before).value, steps[|steps| - 1]);
    }
  }

  lemma {:induction false} TalkAt(len: nat, frames: seq<Frame>, k: nat)
    requires Talk(len, frames) && k < |frames|
    ensures if k == 0 then frames[0].Ready? && (frames[0].lastSeq == 0 || frames[0].lastSeq == len) else AfterReady(frames[k])
  {
    if k < |frames| - 1 {
      TalkAt(len, frames[..|frames| - 1], k);
    }
  }

  /**
   In every run a connection that is refused hears only why; any other hears Ready first, with the
   length of the log when `host_last_seq` was read or 0, then output and answers, and AgentExited
   only at the very end.
   */
  lemma ConversationIsOrderly(capacity: nat, steps: seq<Step>, i: nat, k: nat)
    requires Exec(Init(capacity), steps).Some?
    requires i < |Exec(Init(capacity), steps).value.conns|
    requires k < |Exec(Init(capacity), steps).value.conns[i].out.sent|
    ensures var c := Exec(Init(capacity), steps).value.conns[i];
      var f := c.out.sent[k];
      if f.CookieMismatch? || f.AlreadyConnected? then |c.out.sent| == 1
      else if f.Ready? then k == 0 && (f.lastSeq == 0 || f.lastSeq == c.trace.len1)
      else k > 0 && c.out.sent[0].Ready? && (f.AgentExited? ==> k == |c.out.sent| - 1)
  {
    RunSpoken(capacity, steps);
    var s := Exec(Init(capacity), steps).value;
    var c := s.conns[i];
    assert Spoken(c);
    if Talk(c.trace.len1, c.out.sent) {
      TalkAt(c.trace.len1, c.out.sent, 0);
      TalkAt(c.trace.len1, c.out.sent, k);
      if c.out.sent[k].AgentExited? {
        ExitIsLastAndComplete(capacity, steps, i, k);
      }
    }
  }
}
