/**
 The subscriptions of one session. A stream's id is the size of the table plus one plus a seed
 drawn from a process-wide counter; its entry holds the sender whose drop tells the stream to stop.
 */
module Subscriptions {
  import opened Prelude

  /** `Stopping`: the sender is gone. `Ended`: the pump has returned, the entry is still to be removed. */
  datatype Phase = Running | Stopping | Ended | Gone

  datatype Stream = Stream(id: nat, phase: Phase)

  /** `subs` gives the stream whose sender an id holds; streams are numbered in the order they were opened. */
  datatype Session = Session(subs: map<nat, nat>, streams: seq<Stream>, seed: nat)

  datatype Step =
    | Open
    | OpenElsewhere
    | Cancel(id: nat)
    | End(stream: nat)
    | CleanUp(stream: nat)

  const EMPTY: Session := Session(map[], [], 0)

  function NextId(s: Session): nat {
    |s.subs| + 1 + s.seed
  }

  /** The stream whose sender is dropped stops, if it has not ended. */
  function Stop(streams: seq<Stream>, t: nat): seq<Stream> {
    if t < |streams| && streams[t].phase.Running? then streams[t := streams[t].(phase := Stopping)] else streams
  }

  /** Whatever entry the id has is removed and its sender dropped. */
  function Forget(s: Session, id: nat): Session {
    if id !in s.subs then s else Session(s.subs - {id}, Stop(s.streams, s.subs[id]), s.seed)
  }

  function OpenStream(s: Session): Session {
    var id := NextId(s);
    var others := if id in s.subs then Stop(s.streams, s.subs[id]) else s.streams;
    Session(s.subs[id := |s.streams|], others + [Stream(id, Running)], s.seed + 1)
  }

  function Take(s: Session, step: Step): Option<Session> {
    match step
    case Open => Some(OpenStream(s))
    case OpenElsewhere => Some(s.(seed := s.seed + 1))
    case Cancel(id) => Some(Forget(s, id))
    case End(t) =>
      if t < |s.streams| && (s.streams[t].phase.Running? || s.streams[t].phase.Stopping?) then
        Some(s.(streams := s.streams[t := s.streams[t].(phase := Ended)]))
      else None
    case CleanUp(t) =>
      if t < |s.streams| && s.streams[t].phase.Ended? then
        Some(Forget(s.(streams := s.streams[t := s.streams[t].(phase := Gone)]), s.streams[t].id))
      else None
  }

  function Run(s: Session, steps: seq<Step>): Option<Session>
    decreases |steps|
  {
    if steps == [] then Some(s) else
    match Take(s, steps[0])
    case None => None
    case Some(n) => Run(n, steps[1..])
  }

  /** The table as the calls change it. */
  class LiveSession {
    var subs: map<nat, nat>
    var streams: seq<Stream>
    var seed: nat

    function View(): Session
      reads this
    {
      Session(subs, streams, seed)
    }

    constructor (start: nat)
      ensures View() == EMPTY.(seed := start)
    {
      subs, streams, seed := map[], [], start;
    }

    method RpcStream() returns (id: nat)
      modifies this
      ensures id == NextId(old(View())) && View() == OpenStream(old(View()))
    {
      id := |subs| + 1 + seed;
      seed := seed + 1;
      var t := |streams|;
      if id in subs {
        DropSender(subs[id]);
      }
      streams := streams + [Stream(id, Running)];
      subs := subs[id := t];
    }

    method DropSender(t: nat)
      modifies this`streams
      ensures streams == Stop(old(streams), t)
    {
      if t < |streams| && streams[t].phase.Running? {
        streams := streams[t := streams[t].(phase := Stopping)];
      }
    }

    method CancelSubscription(id: nat)
      modifies this
      ensures View() == Forget(old(View()), id)
    {
      if id in subs {
        DropSender(subs[id]);
        subs := subs - {id};
      }
    }

    /** What a stream does to its entry once its pump has returned. */
    method RemoveOwnEntry(t: nat)
      requires t < |streams| && streams[t].phase.Ended?
      modifies this
      ensures Take(old(View()), CleanUp(t)) == Some(View())
    {
      streams := streams[t := streams[t].(phase := Gone)];
      CancelSubscription(streams[t].id);
    }
  }

  // ---------- when ids grow ----------

  function LastId(s: Session): nat {
    if s.streams == [] then 0 else s.streams[|s.streams| - 1].id
  }

  /** How many entries may still be removed before the next id is one that was issued already. */
  function Slack(s: Session): int {
    |s.subs| + s.seed - LastId(s)
  }

  lemma SizeAfterForget(subs: map<nat, nat>, id: nat)
    ensures |subs - {id}| == |subs| - (if id in subs then 1 else 0)
  {
    if id in subs {
      assert subs.Keys - {id} == (subs - {id}).Keys;
      assert |subs.Keys| == |subs| && |(subs - {id}).Keys| == |subs - {id}|;
    } else {
      assert subs - {id} == subs;
    }
  }

  lemma ForgetSlack(s: Session, id: nat)
    ensures Slack(Forget(s, id)) == Slack(s) - (if id in s.subs then 1 else 0)
  {
    SizeAfterForget(s.subs, id);
  }

  /**
   The next id exceeds the last one exactly while there is slack; an open on a new id leaves a slack
   of one, every entry removed takes one away, and every open on another session adds one.
   */
  lemma SlackIsExact(s: Session, step: Step)
    requires Take(s, step).Some?
    ensures NextId(s) > LastId(s) <==> Slack(s) >= 0
    ensures var n := Take(s, step).value;
      match step
      case Open => NextId(s) !in s.subs ==> Slack(n) == 1
      case OpenElsewhere => Slack(n) == Slack(s) + 1
      case Cancel(id) => Slack(n) == Slack(s) - (if id in s.subs then 1 else 0)
      case End(_) => Slack(n) == Slack(s)
      case CleanUp(t) => Slack(n) == Slack(s) - (if s.streams[t].id in s.subs then 1 else 0)
  {
    match step
    case Cancel(id) => ForgetSlack(s, id);
    case CleanUp(t) =>
      var ended := s.(streams := s.streams[t := s.streams[t].(phase := Gone)]);
      assert Slack(ended) == Slack(s);
      ForgetSlack(ended, s.streams[t].id);
    case _ =>
  }

  predicate Increasing(streams: seq<Stream>) {
    forall i, j | 0 <= i < j < |streams| :: streams[i].id < streams[j].id
  }

  predicate Owns(stream: Stream, id: nat) {
    stream.id == id && (stream.phase.Running? || stream.phase.Ended?)
  }

  /** Each entry is that of the stream with its id, and a stream runs exactly while its entry is there. */
  predicate OwnEntries(s: Session) {
    && (forall id | id in s.subs :: s.subs[id] < |s.streams| && Owns(s.streams[s.subs[id]], id))
    && (forall t | 0 <= t < |s.streams| && s.streams[t].phase.Running? ::
        s.streams[t].id in s.subs && s.subs[s.streams[t].id] == t)
  }

  predicate Tidy(s: Session) {
    Increasing(s.streams) && OwnEntries(s)
  }

  lemma OpenTidy(s: Session)
    requires Tidy(s) && Slack(s) >= 0
    ensures Tidy(OpenStream(s)) && NextId(s) !in s.subs
  {
    var n := OpenStream(s);
    assert forall i | 0 <= i < |s.streams| :: s.streams[i].id <= LastId(s);
    assert NextId(s) !in s.subs;
  }

  lemma ForgetTidy(s: Session, id: nat)
    requires Tidy(s)
    ensures Tidy(Forget(s, id))
  {
  }

  lemma EndTidy(s: Session, t: nat)
    requires Tidy(s) && Take(s, End(t)).Some?
    ensures Tidy(Take(s, End(t)).value)
  {
  }

  lemma CleanUpTidy(s: Session, t: nat)
    requires Tidy(s) && Take(s, CleanUp(t)).Some?
    ensures Tidy(Take(s, CleanUp(t)).value)
  {
    var id := s.streams[t].id;
    var n := Take(s, CleanUp(t)).value;
    if id in s.subs {
      assert s.subs[id] == t by {
        assert s.streams[s.subs[id]].id == id;
      }
    }
  }

  lemma StepTidy(s: Session, step: Step)
    requires Tidy(s) && Take(s, step).Some? && (step.Open? ==> Slack(s) >= 0)
    ensures Tidy(Take(s, step).value)
  {
    match step
    case Open => OpenTidy(s);
    case OpenElsewhere =>
    case Cancel(id) => ForgetTidy(s, id);
    case End(t) => EndTidy(s, t);
    case CleanUp(t) => CleanUpTidy(s, t);
  }

  /** The step removes an entry of the table. */
  predicate Removes(s: Session, step: Step) {
    match step
    case Cancel(id) => id in s.subs
    case CleanUp(t) => t < |s.streams| && s.streams[t].id in s.subs
    case _ => false
  }

  /**
   From each open of the session to its next, `left` counts one, and one for every open elsewhere,
   less one for every entry removed; no open but the first may find it negative.
   */
  predicate WithinBudget(s: Session, steps: seq<Step>, left: int)
    decreases |steps|
  {
    steps == [] ||
    (var step := steps[0];
     && (step.Open? && s.streams != [] ==> left >= 0)
     && (Take(s, step).Some? ==> WithinBudget(Take(s, step).value, steps[1..], LeftAfter(s, step, left))))
  }

  function LeftAfter(s: Session, step: Step, left: int): int {
    match step
    case Open => 1
    case OpenElsewhere => left + 1
    case _ => if Removes(s, step) then left - 1 else left
  }

  /** No step changes the id of a stream, or takes a stream away. */
  lemma StepKeepsIds(s: Session, step: Step)
    requires Take(s, step).Some?
    ensures |s.streams| <= |Take(s, step).value.streams|
    ensures forall t | 0 <= t < |s.streams| :: Take(s, step).value.streams[t].id == s.streams[t].id
  {
  }

  lemma {:induction false} RunKeepsIds(s: Session, steps: seq<Step>)
    requires Run(s, steps).Some?
    ensures var z := Run(s, steps).value;
      && |s.streams| <= |z.streams|
      && forall t | 0 <= t < |s.streams| :: z.streams[t].id == s.streams[t].id
    decreases |steps|
  {
    if steps != [] {
      StepKeepsIds(s, steps[0]);
      RunKeepsIds(Take(s, steps[0]).value, steps[1..]);
    }
  }

  /** An open without slack gives an id that is no greater than the last, and it stays so. */
  lemma OverdrawnOpen(s: Session, rest: seq<Step>)
    requires s.streams != [] && Slack(s) < 0 && Run(OpenStream(s), rest).Some?
    ensures !Increasing(Run(OpenStream(s), rest).value.streams)
  {
    var n := |s.streams|;
    var z := Run(OpenStream(s), rest).value;
    StepKeepsIds(s, Open);
    RunKeepsIds(OpenStream(s), rest);
    assert z.streams[n - 1].id == LastId(s) && z.streams[n].id == NextId(s);
  }

  /** The count is the slack, once the session has opened a stream. */
  predicate Counts(s: Session, left: int) {
    if s.streams == [] then s.subs == map[] else left == Slack(s)
  }

  lemma CountsOn(s: Session, step: Step, left: int)
    requires Counts(s, left) && Take(s, step).Some? && (step.Open? ==> NextId(s) !in s.subs)
    ensures Counts(Take(s, step).value, LeftAfter(s, step, left))
  {
    SlackIsExact(s, step);
  }

  lemma BudgetStep(s: Session, step: Step, left: int)
    requires Tidy(s) && Counts(s, left) && Take(s, step).Some? && (step.Open? ==> Slack(s) >= 0)
    ensures Tidy(Take(s, step).value) && Counts(Take(s, step).value, LeftAfter(s, step, left))
  {
    StepTidy(s, step);
    if step.Open? {
      OpenTidy(s);
    }
    CountsOn(s, step, left);
  }

  /** The count decides, as long as no open has overdrawn it. */
  lemma {:induction false} BudgetIsExact(s: Session, steps: seq<Step>, left: int)
    requires Tidy(s) && Counts(s, left) && Run(s, steps).Some?
    ensures WithinBudget(s, steps, left) ==> Tidy(Run(s, steps).value)
    ensures !WithinBudget(s, steps, left) ==> !Increasing(Run(s, steps).value.streams)
    decreases |steps|
  {
    if steps != [] {
      var step, rest := steps[0], steps[1..];
      if step.Open? && s.streams != [] && left < 0 {
        OverdrawnOpen(s, rest);
      } else {
        BudgetStep(s, step, left);
        BudgetIsExact(Take(s, step).value, rest, LeftAfter(s, step, left));
      }
    }
  }

  /**
   Over every run of a session, opened after any number of opens elsewhere: its subscription ids
   strictly increase if and only if, from each of its opens to the next, no more entries are removed
   than seeds are drawn, its own included. Ids of different sessions are compared in ProcessIds.
   */
  lemma IdsIncreaseExactly(steps: seq<Step>, seed: nat)
    requires Run(EMPTY.(seed := seed), steps).Some?
    ensures Increasing(Run(EMPTY.(seed := seed), steps).value.streams) <==> WithinBudget(EMPTY.(seed := seed), steps, 0)
  {
    BudgetIsExact(EMPTY.(seed := seed), steps, 0);
  }

  /** And then an id names only the stream it was returned for, and a stream runs exactly until it ends or is cancelled. */
  lemma IdsIncrease(steps: seq<Step>, seed: nat)
    requires Run(EMPTY.(seed := seed), steps).Some? && WithinBudget(EMPTY.(seed := seed), steps, 0)
    ensures Tidy(Run(EMPTY.(seed := seed), steps).value)
  {
    BudgetIsExact(EMPTY.(seed := seed), steps, 0);
  }

  /** From one open to the next at most one entry is removed; `spent` tells whether one has been. */
  predicate OneRemovalRun(s: Session, steps: seq<Step>, spent: bool)
    decreases |steps|
  {
    steps == [] ||
    (!(spent && Removes(s, steps[0])) &&
     (Take(s, steps[0]).Some? ==>
        OneRemovalRun(Take(s, steps[0]).value, steps[1..], !steps[0].Open? && (spent || Removes(s, steps[0])))))
  }

  lemma {:induction false} OneRemovalIsWithinBudget(s: Session, steps: seq<Step>, spent: bool, left: int)
    requires OneRemovalRun(s, steps, spent) && (s.streams != [] ==> left >= if spent then 0 else 1)
    ensures WithinBudget(s, steps, left)
    decreases |steps|
  {
    if steps != [] && Take(s, steps[0]).Some? {
      var step := steps[0];
      StepKeepsIds(s, step);
      OneRemovalIsWithinBudget(Take(s, step).value, steps[1..], !step.Open? && (spent || Removes(s, step)),
                               LeftAfter(s, step, left));
    }
  }

  /** A session from which at most one entry goes between two opens never repeats an id. */
  lemma OneRemovalIsSafe(steps: seq<Step>, seed: nat)
    requires OneRemovalRun(EMPTY.(seed := seed), steps, false) && Run(EMPTY.(seed := seed), steps).Some?
    ensures Tidy(Run(EMPTY.(seed := seed), steps).value)
  {
    OneRemovalIsWithinBudget(EMPTY.(seed := seed), steps, false, 0);
    IdsIncrease(steps, seed);
  }

  // ---------- what a repeated id does ----------

  lemma RunOne(s: Session, step: Step, n: Session, rest: seq<Step>)
    requires Take(s, step) == Some(n)
    ensures Run(s, [step] + rest) == Run(n, rest)
  {
    assert ([step] + rest)[1..] == rest;
  }

  lemma OpenRepeats(s: Session, t: nat)
    requires Tidy(s) && NextId(s) in s.subs && s.subs[NextId(s)] == t && s.streams[t].phase.Running?
    ensures var n := OpenStream(s);
      && t < |s.streams| && |n.streams| == |s.streams| + 1
      && n.subs[NextId(s)] == |s.streams|
      && n.streams[t] == Stream(NextId(s), Stopping) && n.streams[|s.streams|] == Stream(NextId(s), Running)
  {
  }

  lemma CleanUpTakesOther(s: Session, t: nat, other: nat)
    requires t < |s.streams| && other < |s.streams| && t != other
    requires s.streams[t].phase.Ended? && s.streams[other].phase.Running?
    requires s.streams[t].id in s.subs && s.subs[s.streams[t].id] == other
    ensures match Take(s, CleanUp(t))
      case None => false
      case Some(n) =>
        && |n.streams| == |s.streams| && s.streams[t].id !in n.subs
        && n.streams[t].phase.Gone? && n.streams[other] == Stream(s.streams[other].id, Stopping)
  {
  }

  /**
   When the new id is that of a running stream, the open stops that stream; and once it has ended
   and cleaned up, the new one is told to stop as well, though nobody cancelled either.
   */
  lemma RepeatedIdStopsBoth(s: Session, t: nat)
    requires Tidy(s) && NextId(s) in s.subs && s.subs[NextId(s)] == t && s.streams[t].phase.Running?
    ensures match Run(s, [Open, End(t), CleanUp(t)])
      case None => false
      case Some(n) =>
        && |n.streams| == |s.streams| + 1 && t < |s.streams| && NextId(s) !in n.subs
        && n.streams[t].phase.Gone? && n.streams[|s.streams|].phase.Stopping?
  {
    var a := OpenStream(s);
    OpenRepeats(s, t);
    var b := Take(a, End(t)).value;
    CleanUpTakesOther(b, t, |s.streams|);
    var c := Take(b, CleanUp(t)).value;
    RunOne(b, CleanUp(t), c, []);
    RunOne(a, End(t), b, [CleanUp(t)]);
    RunOne(s, Open, a, [End(t), CleanUp(t)]);
    assert [Open] + [End(t), CleanUp(t)] == [Open, End(t), CleanUp(t)];
    assert [End(t)] + [CleanUp(t)] == [End(t), CleanUp(t)] && [CleanUp(t)] + [] == [CleanUp(t)];
  }

  /** It happens: three opens, the first two cancelled, and the fourth gets the id of the third. */
  lemma ThreeOpensTwoCancels()
    ensures var steps := [Open, Open, Open, Cancel(1), Cancel(3)];
      match Run(EMPTY, steps)
      case None => false
      case Some(s) => s == Session(map[5 := 2], [Stream(1, Stopping), Stream(3, Stopping), Stream(5, Running)], 3)
    ensures NextId(Session(map[5 := 2], [Stream(1, Stopping), Stream(3, Stopping), Stream(5, Running)], 3)) == 5
  {
    var c := Session(map[1 := 0, 3 := 1, 5 := 2], [Stream(1, Running), Stream(3, Running), Stream(5, Running)], 3);
    ThreeOpens(c, [Cancel(1), Cancel(3)]);
    TwoCancels(c);
    assert [Open, Open, Open] + [Cancel(1), Cancel(3)] == [Open, Open, Open, Cancel(1), Cancel(3)];
  }

  lemma ThreeOpens(c: Session, rest: seq<Step>)
    requires c == Session(map[1 := 0, 3 := 1, 5 := 2], [Stream(1, Running), Stream(3, Running), Stream(5, Running)], 3)
    ensures Run(EMPTY, [Open, Open, Open] + rest) == Run(c, rest)
  {
    var a := Session(map[1 := 0], [Stream(1, Running)], 1);
    var b := Session(map[1 := 0, 3 := 1], [Stream(1, Running), Stream(3, Running)], 2);
    assert OpenStream(EMPTY) == a && OpenStream(a) == b && OpenStream(b) == c;
    RunOne(b, Open, c, rest);
    RunOne(a, Open, b, [Open] + rest);
    RunOne(EMPTY, Open, a, [Open] + ([Open] + rest));
    assert [Open] + ([Open] + ([Open] + rest)) == [Open, Open, Open] + rest;
  }

  lemma TwoCancels(c: Session)
    requires c == Session(map[1 := 0, 3 := 1, 5 := 2], [Stream(1, Running), Stream(3, Running), Stream(5, Running)], 3)
    ensures Run(c, [Cancel(1), Cancel(3)])
         == Some(Session(map[5 := 2], [Stream(1, Stopping), Stream(3, Stopping), Stream(5, Running)], 3))
  {
    var d := Session(map[3 := 1, 5 := 2], [Stream(1, Stopping), Stream(3, Running), Stream(5, Running)], 3);
    var e := Session(map[5 := 2], [Stream(1, Stopping), Stream(3, Stopping), Stream(5, Running)], 3);
    assert c.subs - {1} == d.subs && d.subs - {3} == e.subs;
    assert Forget(c, 1) == d && Forget(d, 3) == e;
    RunOne(d, Cancel(3), e, []);
    RunOne(c, Cancel(1), d, [Cancel(3)]);
    assert [Cancel(1)] + [Cancel(3)] == [Cancel(1), Cancel(3)] && [Cancel(3)] + [] == [Cancel(3)];
  }
}
