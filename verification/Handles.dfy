/** Session handles: a wrapping counter that starts at one, and the table of open sessions. */
module Handles {
  import opened Prelude

  /**
   `issued` lists every handle the counter has given out, `pending` those whose session is not in
   the table yet (the counter and the table are two steps), `closed` those removed from it.
   */
  datatype Registry<S> = Registry(
    next: u64,
    sessions: map<u64, S>,
    issued: seq<u64>,
    pending: set<u64>,
    closed: set<u64>)

  datatype Step<S> = Claim | Publish(id: u64, session: S) | Remove(handle: u64)

  function Wrap(x: nat): u64 {
    x % TWO_TO_THE_64
  }

  function New<S>(): Registry<S> {
    Registry(1, map[], [], {}, {})
  }

  /** `None` when the step is not one the program can take. */
  function Take<S>(r: Registry<S>, s: Step<S>): Option<Registry<S>> {
    match s
    case Claim => Some(r.(next := Wrap(r.next + 1), issued := r.issued + [r.next], pending := r.pending + {r.next}))
    case Publish(id, session) =>
      if id !in r.pending then None
      else Some(r.(sessions := r.sessions[id := session], pending := r.pending - {id}))
    case Remove(handle) =>
      if handle !in r.sessions then Some(r)
      else Some(r.(sessions := r.sessions - {handle}, closed := r.closed + {handle}))
  }

  function Run<S>(r: Registry<S>, steps: seq<Step<S>>): Option<Registry<S>>
    decreases |steps|
  {
    if steps == [] then Some(r) else
    match Take(r, steps[0])
    case None => None
    case Some(q) => Run(q, steps[1..])
  }

  predicate Distinct(ids: seq<u64>) {
    forall i, j | 0 <= i < j < |ids| :: ids[i] != ids[j]
  }

  /** Every handle is what its place in the order of opens says, and only such are pending, open or closed. */
  predicate Sound<S>(r: Registry<S>) {
    Counted(r) && forall id | id in r.pending + r.sessions.Keys + r.closed :: id in r.issued
  }

  predicate Counted<S>(r: Registry<S>) {
    && (forall k | 0 <= k < |r.issued| :: r.issued[k] == Wrap(k + 1))
    && r.next == Wrap(|r.issued| + 1)
  }

  /** Pending, open and closed are three different things. */
  predicate Separate<S>(r: Registry<S>) {
    r.pending !! r.sessions.Keys && r.pending !! r.closed && r.sessions.Keys !! r.closed
  }

  lemma StepCounts<S>(r: Registry<S>, s: Step<S>)
    requires Counted(r) && Take(r, s).Some?
    ensures Counted(Take(r, s).value)
  {
    if s.Claim? {
      WrapNext(|r.issued| + 1);
    }
  }

  lemma WrapNext(n: nat)
    ensures Wrap(Wrap(n) + 1) == Wrap(n + 1)
  {
  }

  lemma {:induction false} RunCounts<S>(r: Registry<S>, steps: seq<Step<S>>)
    requires Counted(r) && Run(r, steps).Some?
    ensures Counted(Run(r, steps).value)
    decreases |steps|
  {
    if steps != [] {
      StepCounts(r, steps[0]);
      RunCounts(Take(r, steps[0]).value, steps[1..]);
    }
  }

  /** The next handle is a new one, up to the 2^64th open. */
  lemma NextIsNew<S>(r: Registry<S>)
    requires Counted(r) && |r.issued| < TWO_TO_THE_64
    ensures r.next !in r.issued
  {
    forall k | 0 <= k < |r.issued| ensures r.issued[k] != r.next {
      assert r.issued[k] == k + 1;
    }
  }

  lemma StepKeepsHandles<S>(r: Registry<S>, s: Step<S>)
    requires Sound(r) && Separate(r) && Take(r, s).Some?
    requires |Take(r, s).value.issued| <= TWO_TO_THE_64
    ensures Sound(Take(r, s).value) && Separate(Take(r, s).value)
  {
    StepCounts(r, s);
    if s.Claim? {
      NextIsNew(r);
    }
  }

  lemma IssuedOnlyGrows<S>(r: Registry<S>, steps: seq<Step<S>>)
    requires Run(r, steps).Some?
    ensures r.issued <= Run(r, steps).value.issued && r.closed <= Run(r, steps).value.closed
    decreases |steps|
  {
    if steps != [] {
      IssuedOnlyGrows(Take(r, steps[0]).value, steps[1..]);
    }
  }

  lemma {:induction false} RunKeepsHandles<S>(r: Registry<S>, steps: seq<Step<S>>)
    requires Sound(r) && Separate(r) && Run(r, steps).Some?
    requires |Run(r, steps).value.issued| <= TWO_TO_THE_64
    ensures Sound(Run(r, steps).value) && Separate(Run(r, steps).value)
    decreases |steps|
  {
    if steps != [] {
      var q := Take(r, steps[0]).value;
      IssuedOnlyGrows(q, steps[1..]);
      StepKeepsHandles(r, steps[0]);
      RunKeepsHandles(q, steps[1..]);
    }
  }

  /**
   In every interleaving of opens and closes: the handles are distinct if and only if no more than
   2^64 were issued, and none of them is the sentinel zero if and only if fewer were.
   */
  lemma HandlesAreDistinctExactly<S>(steps: seq<Step<S>>)
    requires Run(New<S>(), steps).Some?
    ensures var issued := Run(New<S>(), steps).value.issued;
      && (Distinct(issued) <==> |issued| <= TWO_TO_THE_64)
      && (0 !in issued <==> |issued| < TWO_TO_THE_64)
  {
    RunCounts(New<S>(), steps);
    var issued := Run(New<S>(), steps).value.issued;
    if |issued| > TWO_TO_THE_64 {
      assert issued[0] == issued[TWO_TO_THE_64];
    }
    if |issued| >= TWO_TO_THE_64 {
      assert issued[TWO_TO_THE_64 - 1] == 0;
    } else {
      forall k | 0 <= k < |issued| ensures issued[k] != 0 {
        assert issued[k] == k + 1;
      }
    }
  }

  /** Up to the 2^64th open, a handle that was closed is never open again, and an open one was issued. */
  lemma HandlesAreNeverReused<S>(steps: seq<Step<S>>, more: seq<Step<S>>)
    requires Run(New<S>(), steps).Some? && Run(Run(New<S>(), steps).value, more).Some?
    requires |Run(Run(New<S>(), steps).value, more).value.issued| <= TWO_TO_THE_64
    ensures var r := Run(New<S>(), steps).value;
      var q := Run(r, more).value;
      && (forall id | id in q.sessions :: id in q.issued)
      && (forall id | id in r.closed :: id !in q.sessions)
  {
    var r := Run(New<S>(), steps).value;
    IssuedOnlyGrows(r, more);
    RunKeepsHandles(New<S>(), steps);
    RunKeepsHandles(r, more);
  }

  function Claims<S>(n: nat): seq<Step<S>> {
    if n == 0 then [] else [Claim] + Claims(n - 1)
  }

  /** `q` is `r` after `n` more claims. */
  ghost predicate Claimed<S>(r: Registry<S>, q: Registry<S>, n: nat) {
    && Counted(q) && r.issued <= q.issued && |q.issued| == |r.issued| + n
    && q.sessions == r.sessions && q.closed == r.closed && r.pending <= q.pending
    && forall k | |r.issued| <= k < |q.issued| :: q.issued[k] in q.pending
  }

  lemma ClaimedBefore<S>(r: Registry<S>, m: Registry<S>, q: Registry<S>, n: nat)
    requires Take(r, Claim) == Some(m) && Claimed(m, q, n)
    ensures Claimed(r, q, n + 1)
  {
    assert q.issued[|r.issued|] == m.issued[|r.issued|] == r.next;
  }

  /** Any number of opens may be under way at once, each with its handle. */
  lemma {:induction false} RunClaims<S>(r: Registry<S>, n: nat, rest: seq<Step<S>>)
    requires Counted(r)
    ensures exists q :: Run(r, Claims(n) + rest) == Run(q, rest) && Claimed(r, q, n)
    decreases n
  {
    if n == 0 {
      assert Claims<S>(0) + rest == rest;
      assert Claimed(r, r, 0);
    } else {
      var m := Take(r, Claim).value;
      StepCounts(r, Claim);
      RunClaims(m, n - 1, rest);
      var q :| Run(m, Claims(n - 1) + rest) == Run(q, rest) && Claimed(m, q, n - 1);
      assert (Claims<S>(n) + rest)[1..] == Claims<S>(n - 1) + rest;
      ClaimedBefore(r, m, q, n - 1);
    }
  }

  /** A run that issues `n` handles, with one open at its end that was closed on the way. */
  predicate Reuses<S>(steps: seq<Step<S>>, more: seq<Step<S>>, n: nat, id: u64) {
    match Run(New<S>(), steps)
    case None => false
    case Some(r) =>
      match Run(r, more)
      case None => false
      case Some(q) => id in r.closed && id in q.sessions && |q.issued| == n
  }

  /** A closed handle can be open again in a run that issues `n` of them if and only if `n` is more than 2^64. */
  lemma ReuseExactly<S>(session: S, n: nat)
    ensures (exists steps: seq<Step<S>>, more, id :: Reuses(steps, more, n, id)) <==> n > TWO_TO_THE_64
  {
    if n > TWO_TO_THE_64 {
      var r := FirstIsClosed(session);
      RunClaims(r, n - 1, [Publish(1, session)]);
      var q :| Run(r, Claims(n - 1) + [Publish(1, session)]) == Run(q, [Publish(1, session)]) && Claimed(r, q, n - 1);
      assert q.issued[TWO_TO_THE_64] == 1;
      assert Run(q, [Publish(1, session)]) == Take(q, Publish(1, session));
      assert Reuses([Claim, Publish(1, session), Remove(1)], Claims(n - 1) + [Publish(1, session)], n, 1);
    } else {
      forall steps: seq<Step<S>>, more, id ensures !Reuses(steps, more, n, id) {
        if Reuses(steps, more, n, id) {
          HandlesAreNeverReused(steps, more);
        }
      }
    }
  }

  /** The first session is opened and closed. */
  lemma FirstIsClosed<S>(session: S) returns (r: Registry<S>)
    ensures Run(New<S>(), [Claim, Publish(1, session), Remove(1)]) == Some(r)
    ensures Counted(r) && r.issued == [1] && 1 in r.closed
  {
    var a := Take(New<S>(), Claim).value;
    var b := Take(a, Publish(1, session)).value;
    r := Take(b, Remove(1)).value;
    var steps: seq<Step<S>> := [Claim, Publish(1, session), Remove(1)];
    assert steps[1..] == [Publish(1, session), Remove(1)] && steps[1..][1..] == [Remove(1)] && steps[1..][1..][1..] == [];
    assert Run(New<S>(), steps) == Run(a, steps[1..]) == Run(b, steps[1..][1..]) == Run(r, []);
  }

  /** The table itself. Its view is the value the steps above speak of. */
  class SessionRegistry<S> {
    var nextId: u64
    var sessions: map<u64, S>
    ghost var issued: seq<u64>
    ghost var pending: set<u64>
    ghost var closed: set<u64>

    ghost function View(): Registry<S>
      reads this
    {
      Registry(nextId, sessions, issued, pending, closed)
    }

    constructor ()
      ensures View() == New<S>()
    {
      nextId := 1;
      sessions := map[];
      issued, pending, closed := [], {}, {};
    }

    /** `fetch_add`, and then the insertion under the lock. */
    method Insert(session: S) returns (id: u64)
      modifies this
      ensures Run(old(View()), [Claim, Publish(id, session)]) == Some(View())
      ensures id == old(nextId)
    {
      ghost var before := View();
      id := nextId;
      nextId := Wrap(nextId + 1);
      issued, pending := issued + [id], pending + {id};
      assert Take(before, Claim) == Some(View());
      ghost var claimed := View();
      sessions := sessions[id := session];
      pending := pending - {id};
      ghost var steps: seq<Step<S>> := [Claim, Publish(id, session)];
      assert steps[1..][0] == Publish(id, session) && steps[1..][1..] == [];
      assert Run(before, steps) == Run(claimed, steps[1..]) == Run(View(), []);
    }

    method Find(handle: u64) returns (session: Option<S>)
      ensures session.Some? <==> handle in View().sessions
      ensures session.Some? ==> session.value == View().sessions[handle]
    {
      if handle in sessions {
        return Some(sessions[handle]);
      }
      return None;
    }

    method Remove(handle: u64) returns (session: Option<S>)
      modifies this
      ensures Take(old(View()), Step.Remove(handle)) == Some(View())
      ensures session.Some? <==> handle in old(View()).sessions
      ensures session.Some? ==> session.value == old(View()).sessions[handle]
    {
      session := Find(handle);
      if session.Some? {
        sessions := sessions - {handle};
        closed := closed + {handle};
      }
    }
  }
}
