/**
 Subscription ids over a whole process: any number of sessions, opened and closed at any time, that
 draw their seeds from one counter. What a session does is what Subscriptions says of it.
 */
module ProcessIds {
  import opened Prelude
  import opened Subscriptions

  /** The open sessions, the counter, and the ids handed out so far, oldest first. */
  datatype Process = Process(sessions: map<nat, Session>, seed: nat, ids: seq<nat>)

  datatype Event = Connect(handle: nat) | Close(handle: nat) | On(handle: nat, step: Step)

  function Begin(seed: nat): Process {
    Process(map[], seed, [])
  }

  /** A session of the process, with the counter they share. */
  function At(p: Process, h: nat): Session
    requires h in p.sessions
  {
    p.sessions[h].(seed := p.seed)
  }

  /** `None` when the event is not one the process can take. */
  function Next(p: Process, e: Event): Option<Process> {
    match e
    case Connect(h) => if h in p.sessions then None else Some(p.(sessions := p.sessions[h := EMPTY]))
    case Close(h) => Some(p.(sessions := p.sessions - {h}))
    case On(h, step) =>
      if h !in p.sessions || step.OpenElsewhere? then None
      else
        match Take(At(p, h), step)
        case None => None
        case Some(s) =>
          Some(Process(p.sessions[h := s], s.seed, if step.Open? then p.ids + [NextId(At(p, h))] else p.ids))
  }

  function After(p: Process, events: seq<Event>): Option<Process>
    decreases |events|
  {
    if events == [] then Some(p) else
    match Next(p, events[0])
    case None => None
    case Some(q) => After(q, events[1..])
  }

  // ---------- one session of the process ----------

  /** The process as the session `h` sees it. */
  function Seen(e: Event, h: nat): seq<Step> {
    if !e.On? then [] else if e.handle == h then [e.step] else if e.step.Open? then [OpenElsewhere] else []
  }

  function AllSeen(events: seq<Event>, h: nat): seq<Step> {
    if events == [] then [] else Seen(events[0], h) + AllSeen(events[1..], h)
  }

  predicate StaysOpen(events: seq<Event>, h: nat) {
    forall e | e in events :: !(e.Close? && e.handle == h)
  }

  lemma SeenStep(p: Process, e: Event, h: nat)
    requires h in p.sessions && Next(p, e).Some? && !(e.Close? && e.handle == h)
    ensures h in Next(p, e).value.sessions
    ensures if Seen(e, h) == [] then At(Next(p, e).value, h) == At(p, h)
      else |Seen(e, h)| == 1 && Take(At(p, h), Seen(e, h)[0]) == Some(At(Next(p, e).value, h))
  {
    if e.On? {
      SeedMoves(At(p, e.handle), e.step);
    }
  }

  lemma SeedMoves(s: Session, step: Step)
    requires Take(s, step).Some? && !step.OpenElsewhere?
    ensures Take(s, step).value.seed == s.seed + if step.Open? then 1 else 0
  {
  }

  /** What happens to a session while it is open is a run of that session, with every open elsewhere seen. */
  lemma {:induction false} SessionOfProcess(p: Process, events: seq<Event>, h: nat)
    requires h in p.sessions && After(p, events).Some? && StaysOpen(events, h)
    ensures h in After(p, events).value.sessions
    ensures Run(At(p, h), AllSeen(events, h)) == Some(At(After(p, events).value, h))
    decreases |events|
  {
    if events != [] {
      var e, rest := events[0], events[1..];
      assert e in events && forall x | x in rest :: x in events;
      SeenStep(p, e, h);
      SessionOfProcess(Next(p, e).value, rest, h);
      if Seen(e, h) == [] {
        assert Seen(e, h) + AllSeen(rest, h) == AllSeen(rest, h);
      } else {
        assert Seen(e, h) == [Seen(e, h)[0]];
        RunOne(At(p, h), Seen(e, h)[0], At(Next(p, e).value, h), AllSeen(rest, h));
      }
    }
  }

  // ---------- ids over the process ----------

  predicate Increases(ids: seq<nat>) {
    forall i, j | 0 <= i < j < |ids| :: ids[i] < ids[j]
  }

  predicate AllDifferent(ids: seq<nat>) {
    forall i, j | 0 <= i < j < |ids| :: ids[i] != ids[j]
  }

  /** The sizes of the tables that the opens of a run found, on whatever session. */
  function Sizes(p: Process, events: seq<Event>): seq<nat>
    decreases |events|
  {
    if events == [] || Next(p, events[0]).None? then [] else
    var rest := Sizes(Next(p, events[0]).value, events[1..]);
    if events[0].On? && events[0].step.Open? then [|p.sessions[events[0].handle].subs|] + rest else rest
  }

  /** The id of the k-th open is the size it found, one, and its place in the order of opens. */
  predicate Numbered(ids: seq<nat>, sizes: seq<nat>, seed: nat) {
    |ids| == |sizes| && forall k | 0 <= k < |ids| :: ids[k] == sizes[k] + 1 + seed + k
  }

  lemma {:induction false} IdsAreNumbered(p: Process, events: seq<Event>)
    requires After(p, events).Some?
    ensures var q := After(p, events).value;
      && p.ids <= q.ids && Numbered(q.ids[|p.ids|..], Sizes(p, events), p.seed)
    decreases |events|
  {
    if events != [] {
      var e := events[0];
      var m, q := Next(p, e).value, After(p, events).value;
      IdsAreNumbered(m, events[1..]);
      if e.On? {
        SeedMoves(At(p, e.handle), e.step);
        if e.step.Open? {
          NumberedCons(NextId(At(p, e.handle)), |p.sessions[e.handle].subs|, q.ids[|m.ids|..], Sizes(m, events[1..]), p.seed);
          assert q.ids[|p.ids|..] == [NextId(At(p, e.handle))] + q.ids[|m.ids|..];
        }
      }
    }
  }

  lemma NumberedCons(id: nat, size: nat, ids: seq<nat>, sizes: seq<nat>, seed: nat)
    requires id == size + 1 + seed && Numbered(ids, sizes, seed + 1)
    ensures Numbered([id] + ids, [size] + sizes, seed)
  {
    forall k | 0 <= k < |ids| + 1 ensures ([id] + ids)[k] == ([size] + sizes)[k] + 1 + seed + k {
      if k > 0 {
        assert ([id] + ids)[k] == ids[k - 1] && ([size] + sizes)[k] == sizes[k - 1];
      }
    }
  }

  /** No open finds a smaller table than the open before it did, on any session. */
  predicate NeverSmaller(sizes: seq<nat>) {
    forall k | 0 < k < |sizes| :: sizes[k - 1] <= sizes[k]
  }

  lemma {:induction false} NeverSmallerAt(sizes: seq<nat>, i: nat, j: nat)
    requires NeverSmaller(sizes) && i <= j < |sizes|
    ensures sizes[i] <= sizes[j]
    decreases j
  {
    if i < j {
      NeverSmallerAt(sizes, i, j - 1);
    }
  }

  /**
   Over every run of a process, sessions coming and going: the ids it hands out strictly increase if
   and only if no open finds a smaller table than the open before it, on whatever session, found. The
   comment beside the code promises ids "monotonic, unique within the process".
   */
  lemma IdsIncreaseExactly(events: seq<Event>, seed: nat)
    requires After(Begin(seed), events).Some?
    ensures Increases(After(Begin(seed), events).value.ids) <==> NeverSmaller(Sizes(Begin(seed), events))
  {
    IdsAreNumbered(Begin(seed), events);
    var ids, sizes := After(Begin(seed), events).value.ids, Sizes(Begin(seed), events);
    assert ids[0..] == ids;
    if NeverSmaller(sizes) {
      forall i, j | 0 <= i < j < |ids| ensures ids[i] < ids[j] {
        NeverSmallerAt(sizes, i, j);
      }
    } else {
      var k :| 0 < k < |sizes| && sizes[k - 1] > sizes[k];
      assert ids[k - 1] >= ids[k];
    }
  }

  /** The k-th open after another, on any session, finds a table smaller by exactly k. */
  predicate Meets(sizes: seq<nat>) {
    exists i, j :: 0 <= i < j < |sizes| && sizes[i] == sizes[j] + (j - i)
  }

  /** And no id is handed out twice if and only if no open finds a table smaller, by as many opens as lie between, than an earlier one. */
  lemma IdsDifferExactly(events: seq<Event>, seed: nat)
    requires After(Begin(seed), events).Some?
    ensures AllDifferent(After(Begin(seed), events).value.ids) <==> !Meets(Sizes(Begin(seed), events))
  {
    IdsAreNumbered(Begin(seed), events);
    var ids, sizes := After(Begin(seed), events).value.ids, Sizes(Begin(seed), events);
    assert ids[0..] == ids;
    if Meets(sizes) {
      var i, j :| 0 <= i < j < |sizes| && sizes[i] == sizes[j] + (j - i);
      assert ids[i] == ids[j];
    }
  }

  lemma AfterOne(p: Process, e: Event, q: Process, rest: seq<Event>)
    requires Next(p, e) == Some(q)
    ensures After(p, [e] + rest) == After(q, rest)
  {
    assert ([e] + rest)[1..] == rest;
  }

  const FIRST_ONE: Session := Session(map[1 := 0], [Stream(1, Running)], 1)
  const FIRST_TWO: Session := Session(map[1 := 0, 3 := 1], [Stream(1, Running), Stream(3, Running)], 2)
  const SECOND_ONE: Session := Session(map[3 := 0], [Stream(3, Running)], 3)

  lemma TheseOpens()
    ensures OpenStream(EMPTY) == FIRST_ONE && NextId(EMPTY) == 1
    ensures OpenStream(FIRST_ONE) == FIRST_TWO && NextId(FIRST_ONE) == 3
    ensures OpenStream(EMPTY.(seed := 2)) == SECOND_ONE && NextId(EMPTY.(seed := 2)) == 3
  {
    assert [] + [Stream(1, Running)] == [Stream(1, Running)] && [] + [Stream(3, Running)] == [Stream(3, Running)];
    assert [Stream(1, Running)] + [Stream(3, Running)] == [Stream(1, Running), Stream(3, Running)];
    assert |FIRST_ONE.subs| == 1;
    assert EMPTY.subs[1 := 0] == map[1 := 0] && EMPTY.subs[3 := 0] == map[3 := 0];
    assert FIRST_ONE.subs[3 := 1] == FIRST_TWO.subs;
  }

  function Two(first: Session, second: Session, seed: nat, ids: seq<nat>): Process {
    Process(map[1 := first, 2 := second], seed, ids)
  }

  lemma FirstOpens(a: Session, b: Session, seed: nat, ids: seq<nat>)
    ensures var s := a.(seed := seed);
      Next(Two(a, b, seed, ids), On(1, Open)) == Some(Two(OpenStream(s), b, seed + 1, ids + [NextId(s)]))
  {
    var s := a.(seed := seed);
    assert At(Two(a, b, seed, ids), 1) == s;
    assert Two(a, b, seed, ids).sessions[1 := OpenStream(s)] == map[1 := OpenStream(s), 2 := b];
  }

  lemma SecondOpens(a: Session, b: Session, seed: nat, ids: seq<nat>)
    ensures var s := b.(seed := seed);
      Next(Two(a, b, seed, ids), On(2, Open)) == Some(Two(a, OpenStream(s), seed + 1, ids + [NextId(s)]))
  {
    var s := b.(seed := seed);
    assert At(Two(a, b, seed, ids), 2) == s;
    assert Two(a, b, seed, ids).sessions[2 := OpenStream(s)] == map[1 := a, 2 := OpenStream(s)];
  }

  lemma ConnectBoth(rest: seq<Event>)
    ensures After(Begin(0), [Connect(1), Connect(2)] + rest) == After(Two(EMPTY, EMPTY, 0, []), rest)
  {
    AfterOne(Begin(0), Connect(1), Process(map[1 := EMPTY], 0, []), [Connect(2)] + rest);
    AfterOne(Process(map[1 := EMPTY], 0, []), Connect(2), Two(EMPTY, EMPTY, 0, []), rest);
    assert [Connect(1)] + ([Connect(2)] + rest) == [Connect(1), Connect(2)] + rest;
  }

  lemma ThreeOpens()
    ensures After(Two(EMPTY, EMPTY, 0, []), [On(1, Open), On(1, Open), On(2, Open)])
         == Some(Two(FIRST_TWO, SECOND_ONE, 3, [1, 3, 3]))
  {
    TheseOpens();
    FirstOpens(EMPTY, EMPTY, 0, []);
    FirstOpens(FIRST_ONE, EMPTY, 1, [1]);
    SecondOpens(FIRST_TWO, EMPTY, 2, [1, 3]);
    assert [] + [1] == [1] && [1] + [3] == [1, 3] && [1, 3] + [3] == [1, 3, 3];
    AfterOne(Two(EMPTY, EMPTY, 0, []), On(1, Open), Two(FIRST_ONE, EMPTY, 1, [1]), [On(1, Open), On(2, Open)]);
    AfterOne(Two(FIRST_ONE, EMPTY, 1, [1]), On(1, Open), Two(FIRST_TWO, EMPTY, 2, [1, 3]), [On(2, Open)]);
    AfterOne(Two(FIRST_TWO, EMPTY, 2, [1, 3]), On(2, Open), Two(FIRST_TWO, SECOND_ONE, 3, [1, 3, 3]), []);
    var one: seq<Event> := [On(1, Open)];
    assert one + [On(1, Open), On(2, Open)] == [On(1, Open), On(1, Open), On(2, Open)];
    assert one + [On(2, Open)] == [On(1, Open), On(2, Open)];
    assert [On(2, Open)] + [] == [On(2, Open)];
  }

  /** Neither session of that run loses an entry. */
  lemma BothWithinBudget()
    ensures WithinBudget(EMPTY, [Open, Open, OpenElsewhere], 0)
    ensures WithinBudget(EMPTY, [OpenElsewhere, OpenElsewhere, Open], 0)
  {
  }

  /** Two sessions that never lose an entry, each within its own budget, share the id 3. */
  lemma TwoSessionsShareAnId()
    ensures After(Begin(0), [Connect(1), Connect(2)] + [On(1, Open), On(1, Open), On(2, Open)])
         == Some(Two(FIRST_TWO, SECOND_ONE, 3, [1, 3, 3]))
    ensures WithinBudget(EMPTY, AllSeen([On(1, Open), On(1, Open), On(2, Open)], 1), 0)
    ensures WithinBudget(EMPTY, AllSeen([On(1, Open), On(1, Open), On(2, Open)], 2), 0)
  {
    var opens: seq<Event> := [On(1, Open), On(1, Open), On(2, Open)];
    ConnectBoth(opens);
    ThreeOpens();
    BothWithinBudget();
    assert AllSeen(opens, 1) == [Open, Open, OpenElsewhere];
    assert AllSeen(opens, 2) == [OpenElsewhere, OpenElsewhere, Open];
  }
}
