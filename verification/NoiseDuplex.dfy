/**
 Full-duplex traffic. A session breaks exactly when an end does not rekey where its peer did; where
 only the byte budget causes rekeys a receiver is never behind the frames it gets, so then it breaks
 only by rekeying too early or sealing too late.
 */
module NoiseDuplex {
  import opened Prelude
  import opened NoiseSession
  import opened NoiseLink

  /** Plaintext bytes of the frames of one epoch. */
  function Weight(q: seq<Flight>, epoch: nat): nat {
    if q == [] then 0
    else (if q[0].frame.Sealed? && q[0].frame.key.epoch == epoch then |q[0].frame.payload| else 0) + Weight(q[1..], epoch)
  }

  /** Frames in flight carry consecutive nonces up to the sender's, and epochs that never go down. */
  predicate Lane(q: seq<Flight>, epoch: nat, nonce: nat, out: Cipher) {
    if q == [] then nonce == out.nonce && epoch <= out.epoch
    else
      && q[0].frame.Sealed? && |q[0].frame.payload| <= MAX_PAYLOAD
      && q[0].frame.key.nonce == nonce && epoch <= q[0].frame.key.epoch
      && Lane(q[1..], q[0].frame.key.epoch, nonce + 1, out)
  }

  lemma {:induction false} LaneBounds(q: seq<Flight>, epoch: nat, nonce: nat, out: Cipher, e: nat)
    requires Lane(q, epoch, nonce, out)
    ensures epoch <= out.epoch && nonce + |q| == out.nonce
    ensures e < epoch || e > out.epoch ==> Weight(q, e) == 0
  {
    if q != [] {
      LaneBounds(q[1..], q[0].frame.key.epoch, nonce + 1, out, e);
    }
  }

  lemma {:induction false} LaneSnoc(q: seq<Flight>, epoch: nat, nonce: nat, out: Cipher, f: Flight, to: Cipher)
    requires Lane(q, epoch, nonce, out) && f.frame.Sealed? && f.frame.key == out && |f.frame.payload| <= MAX_PAYLOAD
    requires to.nonce == out.nonce + 1 && to.epoch >= out.epoch
    ensures Lane(q + [f], epoch, nonce, to)
  {
    if q == [] {
      assert [f][1..] == [];
    } else {
      LaneSnoc(q[1..], q[0].frame.key.epoch, nonce + 1, out, f, to);
      assert (q + [f])[1..] == q[1..] + [f];
    }
  }

  /** A rekey of the sender moves no frame. */
  lemma {:induction false} LaneRaise(q: seq<Flight>, epoch: nat, nonce: nat, out: Cipher, to: Cipher)
    requires Lane(q, epoch, nonce, out) && to.nonce == out.nonce && to.epoch >= out.epoch
    ensures Lane(q, epoch, nonce, to)
  {
    if q != [] {
      LaneRaise(q[1..], q[0].frame.key.epoch, nonce + 1, out, to);
    }
  }

  lemma {:induction false} WeightSnoc(q: seq<Flight>, f: Flight, e: nat)
    ensures Weight(q + [f], e) == Weight(q, e) + Weight([f], e)
  {
    if q == [] {
      assert q + [f] == [f];
    } else {
      WeightSnoc(q[1..], f, e);
      assert (q + [f])[1..] == q[1..] + [f];
    }
  }

  function Epoch(t: Tally): nat {
    t.out.epoch
  }

  /** Both directions are in the same epoch. */
  predicate InKey(t: Tally) {
    t.out.epoch == t.inn.epoch
  }

  predicate Sound(t: Tally) {
    InKey(t) && t.bytes < REKEY_BYTES
  }

  /** The end `a` is some epochs ahead of `b`: what it sent in each of them is still in flight, and fills it. */
  predicate Ahead(a: Tally, b: Tally, q: seq<Flight>) {
    && a.bytes == Weight(q, Epoch(a))
    && b.bytes + Weight(q, Epoch(b)) >= REKEY_BYTES
    && (forall j: nat | Epoch(b) < j < Epoch(a) :: Weight(q, j) >= REKEY_BYTES)
  }

  predicate Balanced(a: Tally, b: Tally, toB: seq<Flight>, toA: seq<Flight>) {
    if Epoch(a) == Epoch(b) then a.bytes + Weight(toA, Epoch(a)) == b.bytes + Weight(toB, Epoch(a))
    else if Epoch(a) > Epoch(b) then Ahead(a, b, toB)
    else Ahead(b, a, toA)
  }

  predicate Lanes(l: Link) {
    && Lane(l.toMe.flight, 0, l.me.tally.inn.nonce, l.peer.tally.out)
    && Lane(l.toPeer.flight, 0, l.peer.tally.inn.nonce, l.me.tally.out)
  }

  predicate Orderly(l: Link) {
    && Sound(l.me.tally) && Sound(l.peer.tally)
    && Lanes(l)
    && Balanced(l.me.tally, l.peer.tally, l.toPeer.flight, l.toMe.flight)
  }

  lemma FlipOrderly(l: Link)
    requires Orderly(l)
    ensures Orderly(Flip(l))
  {
  }

  // ---------- every step keeps the balance ----------

  lemma SealBalance(a: Tally, b: Tally, toB: seq<Flight>, toA: seq<Flight>, payload: Bytes, f: Flight)
    requires Sound(a) && Sound(b) && Balanced(a, b, toB, toA)
    requires SealError(a, payload).None? && f.frame == Sealed(a.out, payload)
    requires forall e | e > Epoch(a) :: Weight(toB, e) == 0
    ensures Balanced(Sealing(a, payload, false), b, toB + [f], toA)
  {
    var c := Sealing(a, payload, false);
    assert [f][1..] == [];
    forall e: nat
      ensures Weight(toB + [f], e) == Weight(toB, e) + (if e == Epoch(a) then |payload| else 0)
    {
      WeightSnoc(toB, f, e);
      assert Weight([f], e) == (if e == Epoch(a) then |payload| else 0) + Weight([], e);
    }
    if Epoch(a) == Epoch(b) {
      assert Epoch(c) > Epoch(a) ==> Ahead(c, b, toB + [f]);
    } else if Epoch(a) > Epoch(b) {
      assert Ahead(c, b, toB + [f]);
    } else if Epoch(c) < Epoch(b) {
      assert Ahead(b, c, toA);
    }
  }

  lemma OpenBalance(a: Tally, b: Tally, toB: seq<Flight>, toA: seq<Flight>)
    requires Sound(a) && Sound(b) && Balanced(a, b, toB, toA)
    requires toA != [] && OpenError(a, toA[0].frame).None?
    requires Epoch(a) <= Epoch(b)
    requires forall e | e > Epoch(a) :: Weight(toB, e) == 0
    ensures Balanced(Opening(a, toA[0].frame, false), b, toB, toA[1..])
  {
    var c := Opening(a, toA[0].frame, false);
    forall e: nat
      ensures Weight(toA, e) == Weight(toA[1..], e) + (if e == Epoch(a) then |toA[0].frame.payload| else 0)
    {
    }
    if Epoch(a) == Epoch(b) {
      assert Epoch(c) > Epoch(a) ==> Ahead(c, b, toB);
    } else if Epoch(c) < Epoch(b) {
      assert Ahead(b, c, toA[1..]);
    }
  }

  lemma LaneFloor(q: seq<Flight>, epoch: nat, floor: nat, nonce: nat, out: Cipher)
    requires Lane(q, epoch, nonce, out) && floor <= epoch
    ensures Lane(q, floor, nonce, out)
  {
  }

  /** What holds with or without timers: nonces run on, epochs never go down, both directions rekey together. */
  predicate Aligned(l: Link) {
    InKey(l.me.tally) && InKey(l.peer.tally) && Lanes(l)
  }

  lemma SendAligned(l: Link, payload: Bytes, now: nat)
    requires Aligned(l)
    ensures Aligned(SendHere(l, payload, now))
  {
    if SealError(l.me.tally, payload).None? {
      var m := SendHere(l, payload, now);
      var f := m.toPeer.flight[|l.toPeer.flight|];
      LaneSnoc(l.toPeer.flight, 0, l.peer.tally.inn.nonce, l.me.tally.out, f, m.me.tally.out);
    }
  }

  lemma ReceiveAligned(l: Link, now: nat)
    requires Aligned(l)
    ensures match ReceiveHere(l, now) case None => true case Some(m) => Aligned(m)
  {
    if l.toMe.flight != [] && OpenError(l.me.tally, l.toMe.flight[0].frame).None? {
      var q := l.toMe.flight;
      var m := ReceiveHere(l, now).value;
      LaneFloor(q[1..], q[0].frame.key.epoch, 0, q[0].frame.key.nonce + 1, l.peer.tally.out);
      LaneRaise(l.toPeer.flight, 0, l.peer.tally.inn.nonce, l.me.tally.out, m.me.tally.out);
    }
  }

  lemma TakeAligned(l: Link, s: Step)
    requires Aligned(l)
    ensures match Take(l, s) case None => true case Some(m) => Aligned(m)
  {
    var here := if s.first then l else Flip(l);
    if s.Send? {
      SendAligned(here, s.payload, s.now);
    } else {
      ReceiveAligned(here, s.now);
    }
  }

  // ---------- runs in which no timer decides ----------

  /** If the end's timer has run out, the byte budget is used up as well. */
  predicate TimerIsIdle(e: End, n: nat, now: nat) {
    TimerOut(e, now) ==> Rekeys(e.tally, n, false)
  }

  lemma NothingBeyond(l: Link)
    requires Aligned(l)
    ensures forall e | e > Epoch(l.me.tally) :: Weight(l.toPeer.flight, e) == 0
  {
    forall e | e > Epoch(l.me.tally) ensures Weight(l.toPeer.flight, e) == 0 {
      LaneBounds(l.toPeer.flight, 0, l.peer.tally.inn.nonce, l.me.tally.out, e);
    }
  }

  lemma SendOrderly(l: Link, payload: Bytes, now: nat)
    requires Orderly(l) && TimerIsIdle(l.me, |payload|, now)
    ensures Orderly(SendHere(l, payload, now))
  {
    SendAligned(l, payload, now);
    if SealError(l.me.tally, payload).None? {
      var m := SendHere(l, payload, now);
      var f := m.toPeer.flight[|l.toPeer.flight|];
      assert m.me.tally == Sealing(l.me.tally, payload, false);
      NothingBeyond(l);
      SealBalance(l.me.tally, l.peer.tally, l.toPeer.flight, l.toMe.flight, payload, f);
    }
  }

  lemma ReceiveOrderly(l: Link, now: nat)
    requires Orderly(l) && (l.toMe.flight != [] ==> TimerIsIdle(l.me, PayloadSize(l.toMe.flight[0].frame), now))
    ensures match ReceiveHere(l, now) case None => true case Some(m) => Orderly(m)
  {
    ReceiveAligned(l, now);
    if l.toMe.flight != [] && OpenError(l.me.tally, l.toMe.flight[0].frame).None? {
      var q := l.toMe.flight;
      var m := ReceiveHere(l, now).value;
      assert m.me.tally == Opening(l.me.tally, q[0].frame, false);
      NothingBeyond(l);
      LaneBounds(q[1..], q[0].frame.key.epoch, q[0].frame.key.nonce + 1, l.peer.tally.out, 0);
      OpenBalance(l.me.tally, l.peer.tally, l.toPeer.flight, q);
    }
  }

  function PayloadSize(f: Frame): nat {
    if f.Sealed? then |f.payload| else 0
  }

  /** The acting end's timer does not decide whether it rekeys. */
  predicate Untimed(l: Link, s: Step) {
    var here := if s.first then l else Flip(l);
    match s
    case Send(_, payload, now) => TimerIsIdle(here.me, |payload|, now)
    case Receive(_, now) =>
      here.toMe.flight != [] ==> TimerIsIdle(here.me, PayloadSize(here.toMe.flight[0].frame), now)
  }

  predicate UntimedRun(l: Link, steps: seq<Step>)
    decreases |steps|
  {
    steps == [] || (Untimed(l, steps[0]) && (Take(l, steps[0]).Some? ==> UntimedRun(Take(l, steps[0]).value, steps[1..])))
  }

  lemma TakeOrderly(l: Link, s: Step)
    requires Orderly(l) && Untimed(l, s)
    ensures match Take(l, s) case None => true case Some(m) => Orderly(m)
  {
    FlipOrderly(l);
    var here := if s.first then l else Flip(l);
    match s
    case Send(_, payload, now) =>
      SendOrderly(here, payload, now);
      FlipOrderly(SendHere(here, payload, now));
    case Receive(_, now) =>
      ReceiveOrderly(here, now);
      if ReceiveHere(here, now).Some? {
        FlipOrderly(ReceiveHere(here, now).value);
      }
  }

  lemma {:induction false} RunOrderly(l: Link, steps: seq<Step>)
    requires Orderly(l) && UntimedRun(l, steps)
    ensures match Run(l, steps) case None => true case Some(m) => Orderly(m)
    decreases |steps|
  {
    if steps != [] {
      TakeOrderly(l, steps[0]);
      match Take(l, steps[0])
      case None =>
      case Some(m) => RunOrderly(m, steps[1..]);
    }
  }

  // ---------- who is behind ----------

  /** My oldest incoming frame was sealed before a rekey I have already made. */
  predicate Doomed(l: Link) {
    l.toMe.flight != [] && l.toMe.flight[0].frame.Sealed?
    && l.toMe.flight[0].frame.key.epoch < l.me.tally.inn.epoch
  }

  predicate NotBehind(e: End, w: Wire) {
    w.flight == [] || (w.flight[0].frame.Sealed? && w.flight[0].frame.key.epoch <= e.tally.inn.epoch)
  }

  lemma OldestFrame(l: Link)
    requires Orderly(l) && l.toMe.flight != []
    ensures var f := l.toMe.flight[0].frame;
      && f.Sealed? && f.key.epoch <= l.me.tally.inn.epoch
      && (OpenError(l.me.tally, f).Some? <==> f.key.epoch < l.me.tally.inn.epoch)
  {
    var q := l.toMe.flight;
    var e := q[0].frame.key.epoch;
    LaneBounds(q[1..], e, q[0].frame.key.nonce + 1, l.peer.tally.out, Epoch(l.me.tally));
    assert e > Epoch(l.me.tally) ==> Weight(q, Epoch(l.me.tally)) == 0;
  }

  /**
   Over every run of crossing traffic in which no timer decides and nothing has failed yet, the
   oldest frame in flight is never of a later epoch than its receiver, and it fails to open exactly
   if it is of an earlier one.
   */
  lemma ReceiverIsNeverBehind(mine: nat, theirs: nat, steps: seq<Step>)
    requires UntimedRun(Fresh(mine, theirs), steps)
    ensures match Run(Fresh(mine, theirs), steps)
      case None => true
      case Some(l) =>
        && NotBehind(l.me, l.toMe) && NotBehind(l.peer, l.toPeer)
        && (forall now :: ReceiveHere(l, now).None? <==> Doomed(l))
        && (forall now :: ReceiveHere(Flip(l), now).None? <==> Doomed(Flip(l)))
  {
    RunOrderly(Fresh(mine, theirs), steps);
    match Run(Fresh(mine, theirs), steps)
    case None =>
    case Some(l) =>
      FlipOrderly(l);
      if l.toMe.flight != [] {
        OldestFrame(l);
      }
      if l.toPeer.flight != [] {
        OldestFrame(Flip(l));
      }
  }

  function Turn(s: Step): Step {
    s.(first := !s.first)
  }

  /** My oldest incoming frame is not under the key I have now. */
  predicate Stuck(l: Link) {
    l.toMe.flight != [] && l.toMe.flight[0].frame.Sealed? && l.toMe.flight[0].frame.key.epoch != l.me.tally.inn.epoch
  }

  predicate Dead(l: Link) {
    Stuck(l) || Stuck(Flip(l))
  }

  lemma StuckExactly(l: Link, now: nat)
    requires Aligned(l)
    ensures ReceiveHere(l, now).None? <==> Stuck(l)
  {
    if l.toMe.flight != [] {
      var q := l.toMe.flight;
      LaneBounds(q[1..], q[0].frame.key.epoch, q[0].frame.key.nonce + 1, l.peer.tally.out, 0);
    }
  }

  /**
   The first end rekeys with a frame in flight towards it under the key it gives up: any frame, if
   it rekeys on sealing one; the next frame, if it rekeys on opening one.
   */
  predicate RekeysEarly(l: Link, s: Step) {
    match Take(l, s)
    case None => false
    case Some(m) =>
      && m.me.tally.inn.epoch != l.me.tally.inn.epoch && m.toMe.flight != []
      && (s.Send? || (m.toMe.flight[0].frame.Sealed? && m.toMe.flight[0].frame.key.epoch == l.me.tally.inn.epoch))
  }

  /** The first end seals a frame before it has made a rekey its peer has already made. */
  predicate SealsLate(l: Link, s: Step) {
    s.Send? && SealError(l.me.tally, s.payload).None? && l.me.tally.out.epoch < l.peer.tally.inn.epoch
  }

  /** Without timers a late seal takes a frame of the peer that is still in flight. */
  lemma LateNeedsCrossing(l: Link, s: Step)
    requires Orderly(l) && SealsLate(l, s)
    ensures l.toMe.flight != []
  {
  }

  lemma SendDooms(l: Link, s: Step)
    requires Aligned(l) && !Dead(l) && s.Send? && s.first
    ensures var m := SendHere(l, s.payload, s.now);
      (Doomed(m) <==> RekeysEarly(l, s)) && (Doomed(Flip(m)) <==> SealsLate(l, s))
  {
    var m := SendHere(l, s.payload, s.now);
    LaneBounds(l.toMe.flight, 0, l.me.tally.inn.nonce, l.peer.tally.out, 0);
    if l.toPeer.flight != [] {
      LaneBounds(l.toPeer.flight[1..], l.toPeer.flight[0].frame.key.epoch,
                 l.toPeer.flight[0].frame.key.nonce + 1, l.me.tally.out, 0);
      assert SealError(l.me.tally, s.payload).None? ==> m.toPeer.flight[0] == l.toPeer.flight[0];
    }
  }

  lemma ReceiveDooms(l: Link, s: Step)
    requires Aligned(l) && !Dead(l) && s.Receive? && s.first
    ensures match ReceiveHere(l, s.now)
      case None => false
      case Some(m) => (Doomed(m) <==> RekeysEarly(l, s)) && !Doomed(Flip(m))
  {
    StuckExactly(l, s.now);
    if l.toMe.flight != [] {
      var q := l.toMe.flight;
      var m := ReceiveHere(l, s.now).value;
      assert Lane(q[1..], q[0].frame.key.epoch, q[0].frame.key.nonce + 1, l.peer.tally.out);
      assert m.me.tally == Opening(l.me.tally, q[0].frame, TimerOut(l.me, s.now));
      assert m.toMe.flight == q[1..];
    }
  }

  /**
   How a live link gets a frame that its receiver has left behind, exactly, timers included: an end
   rekeys with frames of the old key still in flight towards it, or seals a frame before a rekey its
   peer has already made.
   */
  lemma StepDooms(l: Link, s: Step)
    requires Aligned(l) && !Dead(l) && s.first
    ensures match Take(l, s)
      case None => false
      case Some(m) => (Doomed(m) <==> RekeysEarly(l, s)) && (Doomed(Flip(m)) <==> SealsLate(l, s))
  {
    if s.Send? {
      SendDooms(l, s);
    } else {
      ReceiveDooms(l, s);
    }
  }

  /** My oldest incoming frame is of an epoch I have not reached. */
  predicate Behind(l: Link) {
    Stuck(l) && !Doomed(l)
  }

  predicate CaughtUp(l: Link) {
    !Behind(l) && !Behind(Flip(l))
  }

  predicate CaughtUpThroughout(l: Link, steps: seq<Step>)
    decreases |steps|
  {
    CaughtUp(l)
    && (steps != [] && Take(l, steps[0]).Some? ==> CaughtUpThroughout(Take(l, steps[0]).value, steps[1..]))
  }

  /**
   The first end seals onto an empty wire a frame of an epoch its peer has not reached, or opens a
   frame and does not rekey although its peer did before it sealed the next one.
   */
  predicate OutrunsHere(l: Link, s: Step) {
    match s
    case Send(_, payload, _) =>
      SealError(l.me.tally, payload).None? && l.toPeer.flight == [] && l.me.tally.out.epoch > l.peer.tally.inn.epoch
    case Receive(_, now) =>
      var q := l.toMe.flight;
      && |q| > 1 && OpenError(l.me.tally, q[0].frame).None? && q[1].frame.Sealed?
      && q[1].frame.key.epoch
         > l.me.tally.inn.epoch + if Rekeys(l.me.tally, |q[0].frame.payload|, TimerOut(l.me, now)) then 1 else 0
  }

  predicate Outruns(l: Link, s: Step) {
    if s.first then OutrunsHere(l, s) else OutrunsHere(Flip(l), Turn(s))
  }

  predicate OutrunsIn(l: Link, steps: seq<Step>)
    decreases |steps|
  {
    steps != [] && (Outruns(l, steps[0]) || (Take(l, steps[0]).Some? && OutrunsIn(Take(l, steps[0]).value, steps[1..])))
  }

  lemma SendOutruns(l: Link, s: Step)
    requires Aligned(l) && CaughtUp(l) && s.Send? && s.first
    ensures CaughtUp(SendHere(l, s.payload, s.now)) <==> !OutrunsHere(l, s)
  {
    var m := SendHere(l, s.payload, s.now);
    if SealError(l.me.tally, s.payload).None? && l.toPeer.flight != [] {
      assert m.toPeer.flight[0] == l.toPeer.flight[0];
    }
  }

  lemma ReceiveOutruns(l: Link, s: Step)
    requires Aligned(l) && CaughtUp(l) && s.Receive? && s.first
    ensures match ReceiveHere(l, s.now)
      case None => !OutrunsHere(l, s)
      case Some(m) => CaughtUp(m) <==> !OutrunsHere(l, s)
  {
    if l.toMe.flight != [] && OpenError(l.me.tally, l.toMe.flight[0].frame).None? {
      var q := l.toMe.flight;
      var m := ReceiveHere(l, s.now).value;
      assert Lane(q[1..], q[0].frame.key.epoch, q[0].frame.key.nonce + 1, l.peer.tally.out);
      assert m.me.tally == Opening(l.me.tally, q[0].frame, TimerOut(l.me, s.now));
      assert m.toMe.flight == q[1..];
    }
  }

  /**
   From any aligned link, over every run, clocks included: no receiver is ever behind the oldest
   frame on its way to it if and only if no step outruns one.
   */
  lemma {:induction false} NeverBehindExactly(l: Link, steps: seq<Step>)
    requires Aligned(l) && CaughtUp(l)
    ensures CaughtUpThroughout(l, steps) <==> !OutrunsIn(l, steps)
    decreases |steps|
  {
    if steps != [] {
      var s := steps[0];
      var here := if s.first then l else Flip(l);
      if s.Send? {
        SendOutruns(here, if s.first then s else Turn(s));
      } else {
        ReceiveOutruns(here, if s.first then s else Turn(s));
      }
      TakeAligned(l, s);
      if Take(l, s).Some? && !Outruns(l, s) {
        NeverBehindExactly(Take(l, s).value, steps[1..]);
      }
    }
  }

  /** Where no timer decides no step does, whatever crosses. */
  lemma {:induction false} OrderlyIsCaughtUp(l: Link, steps: seq<Step>)
    requires Orderly(l) && UntimedRun(l, steps)
    ensures CaughtUpThroughout(l, steps)
    decreases |steps|
  {
    if l.toMe.flight != [] {
      OldestFrame(l);
    }
    if l.toPeer.flight != [] {
      OldestFrame(Flip(l));
    }
    if steps != [] {
      TakeOrderly(l, steps[0]);
      match Take(l, steps[0])
      case None =>
      case Some(m) => OrderlyIsCaughtUp(m, steps[1..]);
    }
  }

  // ---------- every run, timers included ----------

  /**
   The first end parts with its peer's keys: it rekeys on sealing with frames in flight towards it, it
   seals onto an empty wire while the two ends are in different epochs, or it opens a frame and is
   then not in the epoch of the next one, because it rekeyed and the sender did not or the other way
   round.
   */
  predicate PartsHere(l: Link, s: Step) {
    match s
    case Send(_, payload, now) =>
      && SealError(l.me.tally, payload).None?
      && ((l.toMe.flight != [] && Rekeys(l.me.tally, |payload|, TimerOut(l.me, now)))
          || (l.toPeer.flight == [] && l.me.tally.out.epoch != l.peer.tally.inn.epoch))
    case Receive(_, now) =>
      var q := l.toMe.flight;
      && |q| > 1 && q[0].frame.Sealed? && q[1].frame.Sealed?
      && q[1].frame.key.epoch
         != l.me.tally.inn.epoch + if Rekeys(l.me.tally, |q[0].frame.payload|, TimerOut(l.me, now)) then 1 else 0
  }

  predicate Fatal(l: Link, s: Step) {
    if s.first then PartsHere(l, s) else PartsHere(Flip(l), Turn(s))
  }

  lemma SendKills(l: Link, s: Step)
    requires Aligned(l) && !Dead(l) && s.Send? && s.first
    ensures Dead(SendHere(l, s.payload, s.now)) <==> PartsHere(l, s)
  {
    var m := SendHere(l, s.payload, s.now);
    if SealError(l.me.tally, s.payload).None? {
      if l.toPeer.flight != [] {
        assert m.toPeer.flight[0] == l.toPeer.flight[0];
      }
      LaneBounds(l.toMe.flight, 0, l.me.tally.inn.nonce, l.peer.tally.out, 0);
    }
  }

  lemma ReceiveKills(l: Link, s: Step)
    requires Aligned(l) && !Dead(l) && s.Receive? && s.first
    ensures match ReceiveHere(l, s.now)
      case None => false
      case Some(m) => Dead(m) <==> PartsHere(l, s)
  {
    StuckExactly(l, s.now);
    if l.toMe.flight != [] {
      var q := l.toMe.flight;
      var m := ReceiveHere(l, s.now).value;
      assert Lane(q[1..], q[0].frame.key.epoch, q[0].frame.key.nonce + 1, l.peer.tally.out);
      assert m.me.tally == Opening(l.me.tally, q[0].frame, TimerOut(l.me, s.now));
      assert m.toMe.flight == q[1..];
    }
  }

  /** A step kills a live link exactly when its end parts with the other's keys. */
  lemma StepKills(l: Link, s: Step)
    requires Aligned(l) && !Dead(l)
    ensures match Take(l, s)
      case None => false
      case Some(m) => Dead(m) <==> Fatal(l, s)
  {
    var here := if s.first then l else Flip(l);
    var step := if s.first then s else Turn(s);
    if s.Send? {
      SendKills(here, step);
    } else {
      ReceiveKills(here, step);
    }
  }

  predicate FatalRun(l: Link, steps: seq<Step>)
    decreases |steps|
  {
    steps != [] && (Fatal(l, steps[0]) || (Take(l, steps[0]).Some? && FatalRun(Take(l, steps[0]).value, steps[1..])))
  }

  /** A frame of an epoch its receiver has left stays where it is for ever: nothing behind it is ever delivered. */
  lemma {:induction false} DoomedForEver(l: Link, steps: seq<Step>)
    requires Doomed(l)
    ensures match Run(l, steps)
      case None => true
      case Some(m) => Doomed(m) && m.toMe.got == l.toMe.got
    decreases |steps|
  {
    if steps != [] {
      match Take(l, steps[0])
      case None =>
      case Some(m) =>
        assert m.toMe.flight[0] == l.toMe.flight[0];
        DoomedForEver(m, steps[1..]);
    }
  }

  lemma DoomedStays(l: Link, s: Step)
    requires Doomed(l)
    ensures match Take(l, s) case None => true case Some(m) => Doomed(m)
  {
    match Take(l, s)
    case None =>
    case Some(m) => assert m.toMe.flight[0] == l.toMe.flight[0];
  }

  /** An end that is behind can only rekey by sealing, and what it seals comes too late for its peer. */
  lemma BehindStaysDead(l: Link, s: Step)
    requires Aligned(l) && Behind(l)
    ensures match Take(l, s) case None => true case Some(m) => Dead(m)
  {
    var q := l.toMe.flight;
    LaneBounds(q[1..], q[0].frame.key.epoch, q[0].frame.key.nonce + 1, l.peer.tally.out, 0);
    if l.toPeer.flight != [] {
      var r := l.toPeer.flight;
      LaneBounds(r[1..], r[0].frame.key.epoch, r[0].frame.key.nonce + 1, l.me.tally.out, 0);
      assert Doomed(Flip(l));
      TurnedDoomStays(l, s);
    } else if s.Send? && !s.first {
      var m := Take(l, s).value;
      assert m.toMe.flight[0] == q[0];
    }
  }

  lemma TurnedDoomStays(l: Link, s: Step)
    requires Doomed(Flip(l))
    ensures match Take(l, s) case None => true case Some(m) => Doomed(Flip(m))
  {
    TakeTurned(l, s);
    DoomedStays(Flip(l), Turn(s));
  }

  /** The two ends are alike. */
  lemma TakeTurned(l: Link, s: Step)
    ensures Take(Flip(l), Turn(s)) == match Take(l, s) case None => None case Some(m) => Some(Flip(m))
  {
    assert Flip(Flip(l)) == l;
  }

  lemma DeadStays(l: Link, s: Step)
    requires Aligned(l) && Dead(l)
    ensures match Take(l, s) case None => true case Some(m) => Dead(m)
  {
    if Doomed(l) {
      DoomedStays(l, s);
    } else if Doomed(Flip(l)) {
      TurnedDoomStays(l, s);
    } else if Behind(l) {
      BehindStaysDead(l, s);
    } else {
      TakeTurned(l, s);
      BehindStaysDead(Flip(l), Turn(s));
    }
  }

  lemma {:induction false} DeadForEver(l: Link, steps: seq<Step>)
    requires Aligned(l) && Dead(l)
    ensures match Run(l, steps) case None => true case Some(m) => Dead(m)
    decreases |steps|
  {
    if steps != [] && Take(l, steps[0]).Some? {
      TakeAligned(l, steps[0]);
      DeadStays(l, steps[0]);
      DeadForEver(Take(l, steps[0]).value, steps[1..]);
    }
  }

  lemma {:induction false} LivesWithoutFatalSteps(l: Link, steps: seq<Step>)
    requires Aligned(l) && !Dead(l)
    ensures Run(l, steps).Some? && !Dead(Run(l, steps).value) <==> !FatalRun(l, steps)
    decreases |steps|
  {
    if steps != [] {
      StepKills(l, steps[0]);
      TakeAligned(l, steps[0]);
      var m := Take(l, steps[0]).value;
      if Fatal(l, steps[0]) {
        DeadForEver(m, steps[1..]);
      } else {
        LivesWithoutFatalSteps(m, steps[1..]);
      }
    }
  }

  /**
   The exact boundary, over every run from the handshake on, whatever the traffic, the sizes and the
   clocks: every frame received so far opened and the oldest in flight still open if and only if no
   step parted an end from its peer's keys.
   */
  lemma LinkLivesWithoutFatalSteps(mine: nat, theirs: nat, steps: seq<Step>)
    ensures Run(Fresh(mine, theirs), steps).Some? && !Dead(Run(Fresh(mine, theirs), steps).value)
       <==> !FatalRun(Fresh(mine, theirs), steps)
  {
    LivesWithoutFatalSteps(Fresh(mine, theirs), steps);
  }
}
