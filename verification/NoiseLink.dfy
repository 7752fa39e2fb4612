/** Two ends of one session and the frames in flight between them. */
module NoiseLink {
  import opened Prelude
  import opened NoiseSession

  /** A frame on the wire, with whether its sender's timer had run out when it was sealed. */
  datatype Flight = Flight(frame: Frame, timed: bool)

  /** One direction: the payloads sealed, those opened so far, and what is still on the wire. */
  datatype Wire = Wire(flight: seq<Flight>, sent: seq<Bytes>, got: seq<Bytes>)

  /** Both ends as the first of them sees the link. */
  datatype Link = Link(me: End, peer: End, toPeer: Wire, toMe: Wire)

  function Flip(l: Link): Link {
    Link(l.peer, l.me, l.toMe, l.toPeer)
  }

  /** A send, or the receipt of the oldest frame, by the first end or by the other one. */
  datatype Step = Send(first: bool, payload: Bytes, now: nat) | Receive(first: bool, now: nat)

  /** A payload that cannot be sealed puts nothing on the wire. */
  function SendHere(l: Link, payload: Bytes, now: nat): Link {
    match Seal(l.me, payload, now)
    case Err(_) => l
    case Ok((e, f)) =>
      l.(me := e,
         toPeer := l.toPeer.(flight := l.toPeer.flight + [Flight(f, TimerOut(l.me, now))],
                             sent := l.toPeer.sent + [payload]))
  }

  /** `None` when the oldest frame does not open: the caller drops the session. */
  function ReceiveHere(l: Link, now: nat): Option<Link> {
    if l.toMe.flight == [] then Some(l) else
    match Open(l.me, l.toMe.flight[0].frame, now)
    case Err(_) => None
    case Ok((e, payload)) =>
      Some(l.(me := e, toMe := l.toMe.(flight := l.toMe.flight[1..], got := l.toMe.got + [payload])))
  }

  function Take(l: Link, s: Step): Option<Link> {
    match s
    case Send(first, payload, now) =>
      Some(if first then SendHere(l, payload, now) else Flip(SendHere(Flip(l), payload, now)))
    case Receive(first, now) =>
      if first then ReceiveHere(l, now) else
      match ReceiveHere(Flip(l), now)
      case None => None
      case Some(m) => Some(Flip(m))
  }

  function Run(l: Link, steps: seq<Step>): Option<Link>
    decreases |steps|
  {
    if steps == [] then Some(l) else
    match Take(l, steps[0])
    case None => None
    case Some(m) => Run(m, steps[1..])
  }

  const NO_WIRE: Wire := Wire([], [], [])

  /** The two ends as the handshake leaves them; their timers may have been started at different times. */
  function Fresh(mine: nat, theirs: nat): Link {
    Link(Established(mine), Established(theirs), NO_WIRE, NO_WIRE)
  }

  // ---------- nothing is altered or reordered ----------

  function Payloads(q: seq<Flight>): seq<Bytes> {
    if q == [] then [] else (if q[0].frame.Sealed? then [q[0].frame.payload] else []) + Payloads(q[1..])
  }

  lemma {:induction false} PayloadsSnoc(q: seq<Flight>, f: Flight)
    requires f.frame.Sealed?
    ensures Payloads(q + [f]) == Payloads(q) + [f.frame.payload]
  {
    if q == [] {
      assert [f][1..] == [];
    } else {
      PayloadsSnoc(q[1..], f);
      assert (q + [f])[1..] == q[1..] + [f];
    }
  }

  predicate Conserves(w: Wire) {
    w.sent == w.got + Payloads(w.flight)
  }

  lemma SendConserves(l: Link, payload: Bytes, now: nat)
    requires Conserves(l.toPeer)
    ensures var m := SendHere(l, payload, now); Conserves(m.toPeer) && m.toMe == l.toMe
  {
    match Seal(l.me, payload, now)
    case Err(_) =>
    case Ok((e, f)) =>
      PayloadsSnoc(l.toPeer.flight, Flight(f, TimerOut(l.me, now)));
      assert l.toPeer.got + (Payloads(l.toPeer.flight) + [payload])
          == l.toPeer.got + Payloads(l.toPeer.flight) + [payload];
  }

  lemma ReceiveConserves(l: Link, now: nat)
    requires Conserves(l.toMe)
    ensures match ReceiveHere(l, now)
      case None => true
      case Some(m) => Conserves(m.toMe) && m.toPeer == l.toPeer
  {
    if l.toMe.flight != [] && Open(l.me, l.toMe.flight[0].frame, now).Ok? {
      var payload := l.toMe.flight[0].frame.payload;
      assert l.toMe.got + ([payload] + Payloads(l.toMe.flight[1..]))
          == l.toMe.got + [payload] + Payloads(l.toMe.flight[1..]);
    }
  }

  lemma TakeConserves(l: Link, s: Step)
    requires Conserves(l.toPeer) && Conserves(l.toMe)
    ensures match Take(l, s)
      case None => true
      case Some(m) => Conserves(m.toPeer) && Conserves(m.toMe)
  {
    match s
    case Send(first, payload, now) =>
      SendConserves(if first then l else Flip(l), payload, now);
    case Receive(first, now) =>
      ReceiveConserves(if first then l else Flip(l), now);
  }

  /** Whatever an end has opened is, unaltered and in order, what the other end sealed first. */
  lemma {:induction false} OpenedIsSealed(l: Link, steps: seq<Step>)
    requires Conserves(l.toPeer) && Conserves(l.toMe)
    ensures match Run(l, steps)
      case None => true
      case Some(m) =>
        && m.toPeer.got <= m.toPeer.sent && m.toMe.got <= m.toMe.sent
        && Conserves(m.toPeer) && Conserves(m.toMe)
    decreases |steps|
  {
    if steps != [] {
      TakeConserves(l, steps[0]);
      match Take(l, steps[0])
      case None =>
      case Some(m) => OpenedIsSealed(m, steps[1..]);
    }
  }

  // ---------- half-duplex traffic stays in step ----------

  function Mirror(t: Tally): Tally {
    Tally(t.inn, t.out, t.bytes)
  }

  /** The tally once every frame of the queue has been opened. */
  function Catch(t: Tally, q: seq<Flight>): Option<Tally>
    decreases |q|
  {
    if q == [] then Some(t)
    else if OpenError(t, q[0].frame).Some? then None
    else Catch(Opening(t, q[0].frame, q[0].timed), q[1..])
  }

  lemma {:induction false} CatchSnoc(t: Tally, q: seq<Flight>, f: Flight)
    requires Catch(t, q).Some? && OpenError(Catch(t, q).value, f.frame).None?
    ensures Catch(t, q + [f]) == Some(Opening(Catch(t, q).value, f.frame, f.timed))
    decreases |q|
  {
    if q == [] {
      assert [f][1..] == [];
    } else {
      CatchSnoc(Opening(t, q[0].frame, q[0].timed), q[1..], f);
      assert (q + [f])[1..] == q[1..] + [f];
    }
  }

  /** Once I have opened all that is in flight to me, I mirror my peer, if nothing is in flight to him. */
  predicate Ready(l: Link) {
    l.toPeer.flight == [] ==> Catch(l.me.tally, l.toMe.flight) == Some(Mirror(l.peer.tally))
  }

  predicate InStep(l: Link) {
    (l.toMe.flight == [] || l.toPeer.flight == []) && Ready(l) && Ready(Flip(l))
  }

  /** Half-duplex: an end seals only when nothing is in flight towards it. */
  predicate Quiet(l: Link, s: Step) {
    s.Send? ==> (if s.first then l.toMe else l.toPeer).flight == []
  }

  /** The oldest frame is opened with the timer run out exactly if it was sealed so, or uses up the byte budget anyway. */
  predicate TimersAgree(l: Link, now: nat) {
    l.toMe.flight == [] ||
    (var f := l.toMe.flight[0];
     TimerOut(l.me, now) == f.timed || (f.frame.Sealed? && Rekeys(l.me.tally, |f.frame.payload|, false)))
  }

  predicate Polite(l: Link, s: Step) {
    Quiet(l, s) && (s.Receive? ==> TimersAgree(if s.first then l else Flip(l), s.now))
  }

  predicate QuietRun(l: Link, steps: seq<Step>)
    decreases |steps|
  {
    steps == [] || (Quiet(l, steps[0]) && (Take(l, steps[0]).Some? ==> QuietRun(Take(l, steps[0]).value, steps[1..])))
  }

  predicate PoliteRun(l: Link, steps: seq<Step>)
    decreases |steps|
  {
    steps == [] || (Polite(l, steps[0]) && (Take(l, steps[0]).Some? ==> PoliteRun(Take(l, steps[0]).value, steps[1..])))
  }

  lemma QuietSend(l: Link, payload: Bytes, now: nat)
    requires InStep(l) && l.toMe.flight == []
    ensures InStep(SendHere(l, payload, now))
  {
    match Seal(l.me, payload, now)
    case Err(_) =>
    case Ok((e, f)) =>
      assert Ready(Flip(l));
      CatchSnoc(l.peer.tally, l.toPeer.flight, Flight(f, TimerOut(l.me, now)));
  }

  /** In step, the oldest frame opens; and the ends are in step afterwards exactly if the timers agree on it. */
  lemma ReceiveKeepsStepExactly(l: Link, now: nat)
    requires InStep(l)
    ensures match ReceiveHere(l, now)
      case None => false
      case Some(m) => InStep(m) <==> TimersAgree(l, now)
  {
    if l.toMe.flight != [] {
      assert Ready(l);
      OpensInStep(l, now);
      if !TimersAgree(l, now) {
        var f := l.toMe.flight[0];
        DisagreedEpoch(l.me.tally, f, l.toMe.flight[1..], TimerOut(l.me, now), Mirror(l.peer.tally));
      }
    }
  }

  lemma OpensInStep(l: Link, now: nat)
    requires InStep(l) && l.toMe.flight != []
    ensures var f := l.toMe.flight[0];
      && OpenError(l.me.tally, f.frame).None? && l.toPeer.flight == []
      && ReceiveHere(l, now).Some?
      && ReceiveHere(l, now).value.me.tally == Opening(l.me.tally, f.frame, TimerOut(l.me, now))
      && ReceiveHere(l, now).value.toMe.flight == l.toMe.flight[1..]
      && Catch(Opening(l.me.tally, f.frame, f.timed), l.toMe.flight[1..]) == Some(Mirror(l.peer.tally))
  {
  }

  /** Whoever rekeys on a frame when the other end did not, or the other way round, catches up with nobody. */
  lemma DisagreedEpoch(t: Tally, f: Flight, rest: seq<Flight>, timed: bool, goal: Tally)
    requires OpenError(t, f.frame).None? && !Rekeys(t, |f.frame.payload|, false) && timed != f.timed
    requires Catch(Opening(t, f.frame, f.timed), rest) == Some(goal)
    ensures Catch(Opening(t, f.frame, timed), rest) != Some(goal)
  {
    var right, wrong := Opening(t, f.frame, f.timed), Opening(t, f.frame, timed);
    assert right.inn.epoch != wrong.inn.epoch;
  }

  /** Every state of the run is in step, and no frame fails to open. */
  predicate InStepRun(l: Link, steps: seq<Step>)
    decreases |steps|
  {
    InStep(l) && (steps == [] || (Take(l, steps[0]).Some? && InStepRun(Take(l, steps[0]).value, steps[1..])))
  }

  lemma StepInStepExactly(l: Link, s: Step)
    requires InStep(l) && Quiet(l, s)
    ensures match Take(l, s)
      case None => false
      case Some(m) => InStep(m) <==> Polite(l, s)
  {
    if s.Send? {
      QuietSend(if s.first then l else Flip(l), s.payload, s.now);
    } else {
      ReceiveKeepsStepExactly(if s.first then l else Flip(l), s.now);
    }
  }

  /**
   The exact condition of lockstep without crossing frames: a half-duplex run is in step throughout if
   and only if on every frame opened the timers of the two ends agree, or the byte budget decides.
   */
  lemma {:induction false} LockstepExactly(l: Link, steps: seq<Step>)
    requires InStep(l) && QuietRun(l, steps)
    ensures InStepRun(l, steps) <==> PoliteRun(l, steps)
    decreases |steps|
  {
    if steps != [] {
      StepInStepExactly(l, steps[0]);
      var m := Take(l, steps[0]).value;
      if InStep(m) {
        LockstepExactly(m, steps[1..]);
      }
    }
  }

  /**
   Half-duplex traffic keeps the ends in step: over every such run, whatever the sizes, rekeys and
   pipelining, every frame opens, and the sender is always the receiver advanced over what is in flight.
   */
  lemma {:induction false} HalfDuplexStaysInStep(l: Link, steps: seq<Step>)
    requires InStep(l) && PoliteRun(l, steps)
    ensures Run(l, steps).Some? && InStep(Run(l, steps).value)
    decreases |steps|
  {
    if steps != [] {
      StepInStepExactly(l, steps[0]);
      HalfDuplexStaysInStep(Take(l, steps[0]).value, steps[1..]);
    }
  }

  /** The same from the handshake on, with what it means for the payloads. */
  lemma HalfDuplexDelivers(mine: nat, theirs: nat, steps: seq<Step>)
    requires PoliteRun(Fresh(mine, theirs), steps)
    ensures match Run(Fresh(mine, theirs), steps)
      case None => false
      case Some(l) =>
        && InStep(l)
        && l.toPeer.sent == l.toPeer.got + Payloads(l.toPeer.flight)
        && l.toMe.sent == l.toMe.got + Payloads(l.toMe.flight)
  {
    HalfDuplexStaysInStep(Fresh(mine, theirs), steps);
    OpenedIsSealed(Fresh(mine, theirs), steps);
  }

  // ---------- crossing frames ----------

  function Crossing(mine: Bytes, theirs: Bytes, times: (nat, nat, nat, nat)): seq<Step> {
    [Send(true, mine, times.0), Send(false, theirs, times.1), Receive(true, times.2), Receive(false, times.3)]
  }

  /**
   Two frames that cross, each sealed before either is opened, both open exactly when neither end
   rekeys on sealing its own, by the budget or by its timer: the claim that the ends stay in lockstep
   fails otherwise.
   */
  lemma CrossingFrames(l: Link, mine: Bytes, theirs: Bytes, times: (nat, nat, nat, nat))
    requires l.me.tally == Mirror(l.peer.tally) && l.toMe.flight == l.toPeer.flight == []
    requires SealError(l.me.tally, mine).None? && SealError(l.peer.tally, theirs).None?
    ensures Run(l, Crossing(mine, theirs, times)).Some?
       <==> !Rekeys(l.me.tally, |mine|, TimerOut(l.me, times.0)) && !Rekeys(l.peer.tally, |theirs|, TimerOut(l.peer, times.1))
  {
    var a := SendHere(l, mine, times.0);
    var b := Flip(SendHere(Flip(a), theirs, times.1));
    RunFour(l, Crossing(mine, theirs, times));
    assert a.toPeer.flight == [Flight(Sealed(l.me.tally.out, mine), TimerOut(l.me, times.0))];
    assert b.toMe.flight == [Flight(Sealed(l.peer.tally.out, theirs), TimerOut(l.peer, times.1))];
    var first := ReceiveHere(b, times.2);
    assert first.Some? <==> !Rekeys(l.me.tally, |mine|, TimerOut(l.me, times.0));
    if first.Some? {
      assert Flip(first.value).toMe == b.toPeer && Flip(first.value).me == b.peer;
      assert ReceiveHere(Flip(first.value), times.3).Some? <==> !Rekeys(l.peer.tally, |theirs|, TimerOut(l.peer, times.1));
    }
  }

  lemma RunFour(l: Link, s: seq<Step>)
    requires |s| == 4 && s[0].Send? && s[1].Send?
    ensures var b := Take(Take(l, s[0]).value, s[1]).value;
      Run(l, s) == match Take(b, s[2]) case None => None case Some(c) => Take(c, s[3])
  {
    var a := Take(l, s[0]).value;
    var b := Take(a, s[1]).value;
    assert s[1..][0] == s[1] && s[1..][1..] == s[2..];
    assert s[2..][0] == s[2] && s[2..][1..] == s[3..];
    assert s[3..][0] == s[3] && s[3..][1..] == [];
    assert Run(l, s) == Run(a, s[1..]) == Run(b, s[2..]);
    match Take(b, s[2])
    case None =>
    case Some(c) =>
      assert Run(c, s[3..]) == match Take(c, s[3]) case None => None case Some(d) => Some(d);
  }

  /** A state two ends reach by sending one way only: `k` full frames, none left in flight. */
  predicate Warm(l: Link, k: nat) {
    && k * MAX_PAYLOAD < REKEY_BYTES
    && l.me == End(Tally(Cipher(0, k), Cipher(0, 0), k * MAX_PAYLOAD), 0)
    && l.peer == End(Mirror(l.me.tally), 0)
    && l.toPeer.flight == l.toMe.flight == []
  }

  function Warming(payload: Bytes, k: nat): seq<Step> {
    if k == 0 then [] else [Send(true, payload, 0), Receive(false, 0)] + Warming(payload, k - 1)
  }

  lemma {:induction false} WarmsUp(l: Link, j: nat, payload: Bytes, k: nat)
    requires Warm(l, j) && |payload| == MAX_PAYLOAD && (j + k) * MAX_PAYLOAD < REKEY_BYTES
    ensures Run(l, Warming(payload, k)).Some? && Warm(Run(l, Warming(payload, k)).value, j + k)
    decreases k
  {
    if k > 0 {
      var steps := Warming(payload, k);
      var a := SendHere(l, payload, 0);
      assert a.toPeer.flight == [Flight(Sealed(Cipher(0, j), payload), false)];
      var b := Take(a, Receive(false, 0)).value;
      assert Warm(b, j + 1);
      assert steps[1..][0] == Receive(false, 0) && steps[1..][1..] == Warming(payload, k - 1);
      assert Run(l, steps) == Run(a, steps[1..]) == Run(b, Warming(payload, k - 1));
      WarmsUp(b, j + 1, payload, k - 1);
    }
  }

  lemma {:induction false} RunAppend(l: Link, a: seq<Step>, b: seq<Step>)
    ensures Run(l, a + b) == match Run(l, a) case None => None case Some(m) => Run(m, b)
    decreases |a|
  {
    if a == [] {
      assert a + b == b;
    } else {
      assert (a + b)[1..] == a[1..] + b;
      match Take(l, a[0])
      case None =>
      case Some(m) => RunAppend(m, a[1..], b);
    }
  }

  /** With no clock involved at all, two crossing frames break a session that has used up its budget. */
  lemma CrossingBreaksTheLink()
    ensures exists steps: seq<Step> :: Run(Fresh(0, 0), steps).None? && (forall s :: s in steps ==> s.now == 0)
  {
    var full: Bytes := seq(MAX_PAYLOAD, _ => 0);
    var k := 15_262;
    var warming := Warming(full, k);
    var crossing := Crossing(full, [0], (0, 0, 0, 0));
    WarmsUp(Fresh(0, 0), 0, full, k);
    var l := Run(Fresh(0, 0), warming).value;
    CrossingFrames(l, full, [0], (0, 0, 0, 0));
    RunAppend(Fresh(0, 0), warming, crossing);
    WarmingAtZero(full, k);
    assert Run(Fresh(0, 0), warming + crossing).None?;
  }

  lemma {:induction false} WarmingAtZero(payload: Bytes, k: nat)
    ensures forall s :: s in Warming(payload, k) ==> s.now == 0
  {
    if k > 0 {
      WarmingAtZero(payload, k - 1);
    }
  }

  /**
   Nor is it enough that no frames cross: timers started one second apart break a link on which one
   end only sends, its second frame sealed after a rekey the other end has not made yet.
   */
  lemma TimerSkewBreaksTheLink()
    ensures var second := 1_000_000_000;
      Run(Fresh(0, second), [Send(true, [], 3600 * second), Receive(false, 3600 * second),
                             Send(true, [], 3600 * second), Receive(false, 3600 * second)]).None?
  {
    var now := 3_600_000_000_000;
    var steps := [Send(true, [], now), Receive(false, now), Send(true, [], now), Receive(false, now)];
    var l := Fresh(0, 1_000_000_000);
    var a := Take(l, steps[0]).value;
    assert a.toPeer.flight == [Flight(Sealed(Cipher(0, 0), []), true)];
    var b := Take(a, steps[1]).value;
    assert b.peer.tally == Tally(Cipher(0, 0), Cipher(0, 1), 0) && b.me.tally.out == Cipher(1, 1);
    var c := Take(b, steps[2]).value;
    assert c.toPeer.flight == [Flight(Sealed(Cipher(1, 1), []), false)];
    assert Take(c, steps[3]).None?;
    assert steps[1..][0] == steps[1] && steps[1..][1..] == steps[2..];
    assert steps[2..][0] == steps[2] && steps[2..][1..] == steps[3..];
    assert Run(l, steps) == Run(a, steps[1..]) == Run(b, steps[2..]) == Run(c, steps[3..]);
  }
}
