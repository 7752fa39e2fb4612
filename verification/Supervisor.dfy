/**
 The restart policy of the actor supervisor: a 16-slot ring of crash times, a one-minute window,
 a backoff table, and the Failed state.  Times and durations are in nanoseconds.
 */
module Supervisor {
  import opened Prelude

  const SECOND: nat := 1_000_000_000

  const RESTART_WINDOW: nat := 60 * SECOND

  const MAX_RESTARTS_IN_WINDOW: nat := 10

  const IMMEDIATE_RESTART_LIMIT: nat := 3

  const RESTART_HISTORY_CAP: nat := 16

  const BACKOFF_TABLE: seq<nat> :=
    [1 * SECOND, 2 * SECOND, 4 * SECOND, 8 * SECOND, 16 * SECOND, 32 * SECOND, 32 * SECOND]

  datatype ActorState =
    | Starting
    | Running
    | Restarting(backoff: nat)
    | Failed

  // ---------- the policy over the whole history ----------

  /** How many of `times` fall within the window that ends at `now`. */
  function CountInWindow(times: seq<nat>, now: nat): nat {
    if times == [] then 0 else
    CountInWindow(times[..|times| - 1], now) +
    (if SatSub(now, times[|times| - 1]) <= RESTART_WINDOW then 1 else 0)
  }

  /** The state a crash leads to, given the number of crashes in the window, itself included. */
  function Decide(count: nat): ActorState {
    if count > MAX_RESTARTS_IN_WINDOW then Failed
    else if count <= IMMEDIATE_RESTART_LIMIT then Restarting(0)
    else
      var idx := count - (IMMEDIATE_RESTART_LIMIT + 1);
      Restarting(BACKOFF_TABLE[Min(idx, |BACKOFF_TABLE| - 1)])
  }

  /** What the last crash of a history leads to, when no crash is forgotten. */
  function DecideFull(crashes: seq<nat>): ActorState
    requires crashes != []
  {
    Decide(CountInWindow(crashes, crashes[|crashes| - 1]))
  }

  ghost predicate NonDecreasing(times: seq<nat>) {
    forall i, j :: 0 <= i < j < |times| ==> times[i] <= times[j]
  }

  // ---------- the ring is as good as the whole history ----------

  /** The last `cap` of `times`. */
  function Recent(times: seq<nat>, cap: nat): seq<nat> {
    if |times| <= cap then times else times[|times| - cap..]
  }

  lemma {:induction false} CountBounds(times: seq<nat>, now: nat)
    ensures CountInWindow(times, now) <= |times|
  {
    if times != [] {
      CountBounds(times[..|times| - 1], now);
    }
  }

  lemma {:induction false} CountAppend(a: seq<nat>, b: seq<nat>, now: nat)
    ensures CountInWindow(a + b, now) == CountInWindow(a, now) + CountInWindow(b, now)
  {
    if b == [] {
      assert a + b == a;
    } else {
      CountAppend(a, b[..|b| - 1], now);
      assert (a + b)[..|a + b| - 1] == a + b[..|b| - 1];
    }
  }

  lemma {:induction false} CountAll(times: seq<nat>, now: nat)
    requires forall k :: 0 <= k < |times| ==> SatSub(now, times[k]) <= RESTART_WINDOW
    ensures CountInWindow(times, now) == |times|
  {
    if times != [] {
      CountAll(times[..|times| - 1], now);
    }
  }

  lemma {:induction false} CountNone(times: seq<nat>, now: nat)
    requires forall k :: 0 <= k < |times| ==> SatSub(now, times[k]) > RESTART_WINDOW
    ensures CountInWindow(times, now) == 0
  {
    if times != [] {
      CountNone(times[..|times| - 1], now);
    }
  }

  /** Crash times in order: a bounded memory counts the same, up to its size. */
  lemma RingCounts(times: seq<nat>, cap: nat, now: nat)
    requires NonDecreasing(times)
    ensures CountInWindow(Recent(times, cap), now) == Min(CountInWindow(times, now), cap)
  {
    CountBounds(times, now);
    if |times| > cap {
      var i := |times| - cap;
      assert times == times[..i] + times[i..];
      CountAppend(times[..i], times[i..], now);
      CountBounds(times[i..], now);
      if cap > 0 && SatSub(now, times[i]) > RESTART_WINDOW {
        OlderAreOut(times, i, now);
      } else {
        NewerAreIn(times, i, now);
      }
    }
  }

  lemma OlderAreOut(times: seq<nat>, i: nat, now: nat)
    requires NonDecreasing(times) && i < |times| && SatSub(now, times[i]) > RESTART_WINDOW
    ensures CountInWindow(times[..i], now) == 0
  {
    forall k | 0 <= k < i ensures SatSub(now, times[k]) > RESTART_WINDOW {
      assert times[k] <= times[i];
    }
    CountNone(times[..i], now);
  }

  lemma NewerAreIn(times: seq<nat>, i: nat, now: nat)
    requires NonDecreasing(times) && i <= |times| && (i < |times| ==> SatSub(now, times[i]) <= RESTART_WINDOW)
    ensures CountInWindow(times[i..], now) == |times| - i
  {
    forall k | i <= k < |times| ensures SatSub(now, times[k]) <= RESTART_WINDOW {
      assert i < k ==> times[i] <= times[k];
    }
    CountAll(times[i..], now);
  }

  /** For every history in order, the 16-slot ring gives the decision of the unbounded history. */
  lemma RingDecidesAsFull(crashes: seq<nat>)
    requires crashes != [] && NonDecreasing(crashes)
    ensures Decide(CountInWindow(Recent(crashes, RESTART_HISTORY_CAP), crashes[|crashes| - 1])) == DecideFull(crashes)
  {
    RingCounts(crashes, RESTART_HISTORY_CAP, crashes[|crashes| - 1]);
  }

  // ---------- the supervisor ----------

  class RestartHistory {
    var entries: seq<nat>
    var total: u64
    ghost var crashes: seq<nat>  // every crash ever recorded

    ghost predicate Valid()
      reads this
    {
      && entries == Recent(crashes, RESTART_HISTORY_CAP)
      && total == Min(|crashes|, U64_MAX)
    }

    constructor ()
      ensures Valid() && crashes == []
    {
      entries, total, crashes := [], 0, [];
    }

    method Record(now: nat)
      requires Valid()
      modifies this
      ensures Valid() && crashes == old(crashes) + [now]
    {
      if |entries| == RESTART_HISTORY_CAP {
        entries := entries[1..];
      }
      entries := entries + [now];
      total := SatAdd(total, 1);
      crashes := crashes + [now];
    }

    method CountRecent(now: nat) returns (count: nat)
      requires Valid()
      ensures count == CountInWindow(entries, now)
    {
      count := 0;
      for i := 0 to |entries|
        invariant count == CountInWindow(entries[..i], now)
      {
        assert entries[..i + 1][..i] == entries[..i];
        if SatSub(now, entries[i]) <= RESTART_WINDOW {
          count := count + 1;
        }
      }
      assert entries[..|entries|] == entries;
    }
  }

  /** How one attempt at running an actor ends, and whether shutdown was requested around it. */
  datatype Outcome =
    | StoppedBefore
    | Shutdown
    | CleanExit
    | Crashed(now: nat, stoppedInBackoff: bool)

  class SupervisedActor {
    const history: RestartHistory
    var state: ActorState

    constructor ()
      ensures fresh(history) && history.Valid() && history.crashes == [] && state == Starting
    {
      history := new RestartHistory();
      state := Starting;
    }

    /** Records a crash and decides whether to restart. */
    method DecideRestart(now: nat) returns (restart: bool)
      requires history.Valid() && NonDecreasing(history.crashes + [now])
      modifies this, history
      ensures history.Valid() && history.crashes == old(history.crashes) + [now]
      ensures state == DecideFull(history.crashes)
      ensures restart <==> state != Failed
    {
      history.Record(now);
      var count := history.CountRecent(now);
      RingDecidesAsFull(history.crashes);
      if count > MAX_RESTARTS_IN_WINDOW {
        state := Failed;
        return false;
      }
      var backoff := 0;
      if count > IMMEDIATE_RESTART_LIMIT {
        var idx := count - (IMMEDIATE_RESTART_LIMIT + 1);
        backoff := BACKOFF_TABLE[Min(idx, |BACKOFF_TABLE| - 1)];
      }
      state := Restarting(backoff);
      return true;
    }

    /** One round of the wrapper: an attempt, and what is decided when it crashed. */
    method RunAttempt(attempt: Outcome) returns (again: bool)
      requires history.Valid()
      requires attempt.Crashed? ==> NonDecreasing(history.crashes + [attempt.now])
      modifies this, history
      ensures history.Valid()
      ensures (Life(history.crashes, state), again) == AfterAttempt(Life(old(history.crashes), old(state)), attempt)
    {
      if attempt.StoppedBefore? {
        return false;
      }
      state := Running;
      if !attempt.Crashed? {
        return false;
      }
      again := DecideRestart(attempt.now);
      if again && state.backoff > 0 && attempt.stoppedInBackoff {
        again := false;
      }
    }

    /** The wrapper, over the attempts made until one of them ends it. */
    method RunSupervised(attempts: seq<Outcome>) returns (begun: nat)
      requires history.Valid() && history.crashes == [] && NonDecreasing(CrashTimes(attempts))
      modifies this, history
      ensures history.Valid() && Life(history.crashes, state) == Supervise(Life([], old(state)), attempts)
      ensures begun == Begun(Life([], old(state)), attempts)
    {
      var i := 0;
      var again := true;
      while again && i < |attempts|
        invariant i <= |attempts| && history.Valid()
        invariant again ==> history.crashes + CrashTimes(attempts[i..]) == CrashTimes(attempts)
        invariant (if again then Supervise(Life(history.crashes, state), attempts[i..]) else Life(history.crashes, state))
               == Supervise(Life([], old(state)), attempts)
        invariant i + (if again then Begun(Life(history.crashes, state), attempts[i..]) else 0)
               == Begun(Life([], old(state)), attempts)
        decreases |attempts| - i
      {
        assert attempts[i..][1..] == attempts[i + 1..];
        if attempts[i].Crashed? {
          NextCrash(attempts, i, history.crashes);
        }
        again := RunAttempt(attempts[i]);
        i := i + 1;
      }
      begun := i;
    }
  }

  lemma NextCrash(attempts: seq<Outcome>, i: nat, past: seq<nat>)
    requires i < |attempts| && attempts[i].Crashed? && NonDecreasing(CrashTimes(attempts))
    requires past + CrashTimes(attempts[i..]) == CrashTimes(attempts)
    ensures NonDecreasing(past + [attempts[i].now])
    ensures past + [attempts[i].now] + CrashTimes(attempts[i + 1..]) == CrashTimes(attempts)
  {
    var crashes := past + [attempts[i].now];
    var later := CrashTimes(attempts[i + 1..]);
    assert attempts[i..][1..] == attempts[i + 1..];
    assert past + ([attempts[i].now] + later) == crashes + later;
    PrefixNonDecreasing(crashes, later);
  }

  lemma PrefixNonDecreasing(a: seq<nat>, b: seq<nat>)
    requires NonDecreasing(a + b)
    ensures NonDecreasing(a)
  {
    forall i, j | 0 <= i < j < |a|
      ensures a[i] <= a[j]
    {
      assert (a + b)[i] <= (a + b)[j];
    }
  }

  /** The times of the crashed attempts, up to the first that did not crash. */
  function CrashTimes(attempts: seq<Outcome>): seq<nat> {
    if attempts == [] || !attempts[0].Crashed? then [] else [attempts[0].now] + CrashTimes(attempts[1..])
  }

  /** The crashes of an actor so far, and its state. */
  datatype Life = Life(crashes: seq<nat>, state: ActorState)

  /** What an attempt leads to, by the unbounded policy, and whether there is another. */
  function AfterAttempt(life: Life, attempt: Outcome): (Life, bool) {
    match attempt
    case StoppedBefore => (life, false)
    case Shutdown => (life.(state := Running), false)
    case CleanExit => (life.(state := Running), false)
    case Crashed(now, stoppedInBackoff) =>
      var crashes := life.crashes + [now];
      var state := DecideFull(crashes);
      (Life(crashes, state), !state.Failed? && !(state.backoff > 0 && stoppedInBackoff))
  }

  /** A life under supervision. */
  function Supervise(life: Life, attempts: seq<Outcome>): Life
    decreases |attempts|
  {
    if attempts == [] then life else
    var (next, again) := AfterAttempt(life, attempts[0]);
    if again then Supervise(next, attempts[1..]) else next
  }

  /** How many of the attempts are made. */
  function Begun(life: Life, attempts: seq<Outcome>): nat
    decreases |attempts|
  {
    if attempts == [] then 0 else
    var (next, again) := AfterAttempt(life, attempts[0]);
    1 + if again then Begun(next, attempts[1..]) else 0
  }

  // ---------- when an actor fails ----------

  /** The `m` latest crashes are in the window exactly when the count reaches `m`. */
  lemma CountReaches(times: seq<nat>, m: nat)
    requires NonDecreasing(times) && 1 <= m <= |times|
    ensures var now := times[|times| - 1];
      CountInWindow(times, now) >= m <==> now - times[|times| - m] <= RESTART_WINDOW
  {
    var now := times[|times| - 1];
    var recent := times[|times| - m..];
    assert recent == Recent(times, m);
    assert times[|times| - m] <= now;
    RingCounts(times, m, now);
    if now - times[|times| - m] <= RESTART_WINDOW {
      CountAll(recent, now);
    } else {
      assert recent == [recent[0]] + recent[1..];
      CountAppend([recent[0]], recent[1..], now);
      CountBounds(recent[1..], now);
      assert [recent[0]][..0] == [];
    }
  }

  /** A crash is the last one exactly when it is the eleventh, or a later one, within a minute. */
  lemma FailsExactlyOnEleventh(crashes: seq<nat>)
    requires crashes != [] && NonDecreasing(crashes)
    ensures var n := |crashes|;
      DecideFull(crashes) == Failed <==> n >= 11 && crashes[n - 1] - crashes[n - 11] <= RESTART_WINDOW
  {
    if |crashes| >= 11 {
      CountReaches(crashes, 11);
    } else {
      CountBounds(crashes, crashes[|crashes| - 1]);
    }
  }

  /** The clamp on the table's index never bites: the n-th crash in the window, 4 to 10, has its own entry. */
  lemma BackoffOf(count: nat)
    requires IMMEDIATE_RESTART_LIMIT < count <= MAX_RESTARTS_IN_WINDOW
    ensures count - 4 < |BACKOFF_TABLE| && Decide(count) == Restarting(BACKOFF_TABLE[count - 4])
  {
  }

  /** Restarts are immediate up to the third crash in the window; then the wait doubles from one second to 32. */
  lemma BackoffDoubles(count: nat)
    requires 1 <= count <= MAX_RESTARTS_IN_WINDOW
    ensures Decide(count).Restarting?
    ensures count <= 3 ==> Decide(count).backoff == 0
    ensures count == 4 ==> Decide(count).backoff == SECOND
    ensures 4 < count ==> Decide(count).backoff == Min(2 * Decide(count - 1).backoff, 32 * SECOND)
  {
  }

  // ---------- when the wrapper ends ----------

  /**
   The attempt behind `k` crashes is followed by another: it crashed, not as the eleventh within a
   minute, and no shutdown came while it waited, which it does from the fourth within a minute on.
   */
  predicate GoesOn(times: seq<nat>, k: nat, attempt: Outcome) {
    && attempt.Crashed? && k < |times|
    && !(k >= 10 && times[k] - times[k - 10] <= RESTART_WINDOW)
    && !(attempt.stoppedInBackoff && k >= 3 && times[k] - times[k - 3] <= RESTART_WINDOW)
  }

  /** A restart waits exactly from the fourth crash within a minute on. */
  lemma WaitsFromTheFourth(crashes: seq<nat>)
    requires crashes != [] && NonDecreasing(crashes) && DecideFull(crashes).Restarting?
    ensures var n := |crashes|;
      DecideFull(crashes).backoff > 0 <==> n >= 4 && crashes[n - 1] - crashes[n - 4] <= RESTART_WINDOW
  {
    if |crashes| >= 4 {
      CountReaches(crashes, 4);
    } else {
      CountBounds(crashes, crashes[|crashes| - 1]);
    }
  }

  lemma AgainExactly(life: Life, attempt: Outcome, later: seq<nat>)
    requires attempt.Crashed? ==> NonDecreasing(life.crashes + [attempt.now] + later)
    ensures AfterAttempt(life, attempt).1 <==>
      attempt.Crashed? && GoesOn(life.crashes + [attempt.now] + later, |life.crashes|, attempt)
  {
    if attempt.Crashed? {
      var crashes := life.crashes + [attempt.now];
      PrefixNonDecreasing(crashes, later);
      assert forall k | 0 <= k < |crashes| :: (crashes + later)[k] == crashes[k];
      FailsExactlyOnEleventh(crashes);
      if DecideFull(crashes).Restarting? {
        WaitsFromTheFourth(crashes);
      }
    }
  }

  /** The first `n` attempts are made: each but the last is followed by another, and the last of them is not, unless it is the last of all. */
  predicate Made(times: seq<nat>, done: nat, attempts: seq<Outcome>, n: nat) {
    && n <= |attempts| && (attempts != [] ==> n > 0)
    && (forall k | 0 <= k < n - 1 :: GoesOn(times, done + k, attempts[k]))
    && (0 < n < |attempts| ==> !GoesOn(times, done + n - 1, attempts[n - 1]))
  }

  lemma MadeOneMore(times: seq<nat>, done: nat, attempts: seq<Outcome>, n: nat)
    requires attempts != [] && GoesOn(times, done, attempts[0]) && Made(times, done + 1, attempts[1..], n)
    ensures Made(times, done, attempts, n + 1)
  {
    forall k | 0 <= k < n ensures GoesOn(times, done + k, attempts[k]) {
      assert k > 0 ==> GoesOn(times, done + 1 + (k - 1), attempts[1..][k - 1]);
    }
    assert n > 0 ==> attempts[1..][n - 1] == attempts[n];
  }

  /** What attempts leave behind when each but the last is followed by another. */
  function Final(life: Life, attempts: seq<Outcome>): Life
    decreases |attempts|
  {
    if attempts == [] then life
    else if attempts[0].Crashed? then
      var crashes := life.crashes + [attempts[0].now];
      Final(Life(crashes, DecideFull(crashes)), attempts[1..])
    else if attempts[0].StoppedBefore? then life
    else life.(state := Running)
  }

  lemma FinalOne(life: Life, attempts: seq<Outcome>, n: nat)
    requires n < |attempts|
    ensures var next := AfterAttempt(life, attempts[0]).0;
      Final(life, attempts[..n + 1]) == if attempts[0].Crashed? then Final(next, attempts[1..][..n]) else next
  {
    assert attempts[..n + 1][0] == attempts[0] && attempts[..n + 1][1..] == attempts[1..][..n];
  }

  lemma {:induction false} EndsExactlyFrom(life: Life, attempts: seq<Outcome>, times: seq<nat>)
    requires times == life.crashes + CrashTimes(attempts) && NonDecreasing(times)
    ensures Made(times, |life.crashes|, attempts, Begun(life, attempts))
    ensures Supervise(life, attempts) == Final(life, attempts[..Begun(life, attempts)])
    decreases |attempts|
  {
    if attempts != [] {
      var attempt, rest := attempts[0], attempts[1..];
      var (next, again) := AfterAttempt(life, attempt);
      assert !attempt.Crashed? ==> !again;
      if attempt.Crashed? {
        assert times == life.crashes + [attempt.now] + CrashTimes(rest);
        AgainExactly(life, attempt, CrashTimes(rest));
      }
      if again {
        var n := Begun(next, rest);
        EndsExactlyFrom(next, rest, times);
        MadeOneMore(times, |life.crashes|, attempts, n);
        FinalOne(life, attempts, n);
      } else {
        FinalOne(life, attempts, 0);
      }
    }
  }

  /**
   For every list of attempts the wrapper makes them one after the other up to the first that is not
   followed by another, which is the first that did not crash, crashed as the eleventh within a minute,
   or was told to stop while it waited; the crashes and the state are what those attempts leave behind.
   */
  lemma WrapperEndsExactly(initial: ActorState, attempts: seq<Outcome>)
    requires NonDecreasing(CrashTimes(attempts))
    ensures var n := Begun(Life([], initial), attempts);
      && Made(CrashTimes(attempts), 0, attempts, n)
      && Supervise(Life([], initial), attempts) == Final(Life([], initial), attempts[..n])
  {
    assert [] + CrashTimes(attempts) == CrashTimes(attempts);
    EndsExactlyFrom(Life([], initial), attempts, CrashTimes(attempts));
  }

  /** How many crashes fall in the closed minute that starts at `from`. */
  function InMinute(crashes: seq<nat>, from: nat): nat {
    if crashes == [] then 0 else
    InMinute(crashes[..|crashes| - 1], from) +
    (if from <= crashes[|crashes| - 1] <= from + RESTART_WINDOW then 1 else 0)
  }

  ghost predicate AllGranted(crashes: seq<nat>) {
    forall n :: 1 <= n <= |crashes| ==> DecideFull(crashes[..n]) != Failed
  }

  /** No closed minute holds more than ten crashes that were granted a restart. */
  lemma {:induction false} TenPerMinute(crashes: seq<nat>, from: nat)
    requires AllGranted(crashes)
    ensures InMinute(crashes, from) <= MAX_RESTARTS_IN_WINDOW
  {
    if crashes != [] {
      var init, last := crashes[..|crashes| - 1], crashes[|crashes| - 1];
      forall n | 1 <= n <= |init|
        ensures DecideFull(init[..n]) != Failed
      {
        assert init[..n] == crashes[..n];
      }
      TenPerMinute(init, from);
      if from <= last <= from + RESTART_WINDOW {
        MinuteInWindow(crashes, from, last);
        assert crashes[..|crashes|] == crashes;
      }
    }
  }

  lemma {:induction false} MinuteInWindow(crashes: seq<nat>, from: nat, now: nat)
    requires from <= now <= from + RESTART_WINDOW
    ensures InMinute(crashes, from) <= CountInWindow(crashes, now)
  {
    if crashes != [] {
      MinuteInWindow(crashes[..|crashes| - 1], from, now);
    }
  }

  // ---------- backoffs that are waited out ----------

  /** If crash `n - 1` was granted a restart, crash `n` comes at least its backoff later. */
  ghost predicate WaitedOut(crashes: seq<nat>, n: nat)
    requires 1 <= n < |crashes|
  {
    var state := DecideFull(crashes[..n]);
    state.Restarting? ==> crashes[n - 1] + state.backoff <= crashes[n]
  }

  ghost predicate Honoured(crashes: seq<nat>) {
    forall n :: 1 <= n < |crashes| ==> WaitedOut(crashes, n)
  }

  /** Crash `n - 1` was granted a restart, and crash `n` comes at least its backoff later. */
  ghost predicate Restarted(crashes: seq<nat>, n: nat)
    requires 1 <= n < |crashes|
  {
    DecideFull(crashes[..n]).Restarting? && WaitedOut(crashes, n)
  }

  ghost predicate AllRestarted(crashes: seq<nat>) {
    forall n :: 1 <= n < |crashes| ==> Restarted(crashes, n)
  }

  lemma RestartedPrefix(crashes: seq<nat>, m: nat)
    requires AllRestarted(crashes) && m <= |crashes|
    ensures AllRestarted(crashes[..m])
  {
    forall n | 1 <= n < m
      ensures Restarted(crashes[..m], n)
    {
      assert Restarted(crashes, n);
      assert crashes[..m][..n] == crashes[..n];
    }
  }

  lemma {:induction false} RestartedIsOrdered(crashes: seq<nat>)
    requires AllRestarted(crashes)
    ensures NonDecreasing(crashes)
  {
    if crashes != [] {
      var n := |crashes| - 1;
      RestartedPrefix(crashes, n);
      RestartedIsOrdered(crashes[..n]);
      if n >= 1 {
        assert Restarted(crashes, n);
        forall i | 0 <= i < n
          ensures crashes[i] <= crashes[n]
        {
          assert i < n - 1 ==> crashes[..n][i] <= crashes[..n][n - 1];
        }
      }
    }
  }

  /** The backoffs granted to the first `k` crashes of a window, added up. */
  function Waits(k: nat): nat
    requires k <= 10
  {
    if k <= IMMEDIATE_RESTART_LIMIT then 0 else Waits(k - 1) + BACKOFF_TABLE[k - 4]
  }

  /** If the latest of `n` crashes is the k-th or a later one within a minute, the k-th backoff is waited before the next. */
  lemma WaitsAtLeast(crashes: seq<nat>, n: nat, k: nat)
    requires AllRestarted(crashes) && NonDecreasing(crashes) && 4 <= k <= 9 && k <= n < |crashes|
    requires crashes[n - 1] - crashes[n - k] <= RESTART_WINDOW
    requires CountInWindow(crashes[..n], crashes[n - 1]) <= 9
    ensures crashes[n - 1] + BACKOFF_TABLE[k - 4] <= crashes[n]
  {
    var before := crashes[..n];
    assert crashes == before + crashes[n..];
    PrefixNonDecreasing(before, crashes[n..]);
    CountReaches(before, k);
    var count := CountInWindow(before, before[n - 1]);
    BackoffOf(count);
    assert Restarted(crashes, n);
    assert BACKOFF_TABLE[k - 4] <= BACKOFF_TABLE[count - 4];
  }

  /** Within a minute, `k` crashes after crash `f` all the granted backoffs have been waited. */
  lemma {:induction false} WaitsAddUp(crashes: seq<nat>, f: nat, k: nat)
    requires AllRestarted(crashes) && NonDecreasing(crashes) && 3 <= k <= 9 && f + k < |crashes|
    requires crashes[f + k] - crashes[f] <= RESTART_WINDOW
    requires forall n :: 1 <= n < |crashes| ==> CountInWindow(crashes[..n], crashes[n - 1]) <= 9
    ensures crashes[f] + Waits(k) <= crashes[f + k]
  {
    if k == 3 {
      assert crashes[f] <= crashes[f + k];
    } else {
      assert crashes[f + k - 1] <= crashes[f + k];
      WaitsAddUp(crashes, f, k - 1);
      WaitsAtLeast(crashes, f + k, k);
    }
  }

  /** 1 + 2 + 4 + 8 + 16 + 32 seconds of waiting push the first of ten crashes out of the last one's minute. */
  lemma TenthIsOutside(crashes: seq<nat>)
    requires AllRestarted(crashes) && NonDecreasing(crashes) && |crashes| >= 10
    requires forall n :: 1 <= n < |crashes| ==> CountInWindow(crashes[..n], crashes[n - 1]) <= 9
    ensures crashes[|crashes| - 1] - crashes[|crashes| - 10] > RESTART_WINDOW
  {
    assert Waits(6) == 7 * SECOND && Waits(9) == 63 * SECOND;
    if crashes[|crashes| - 1] - crashes[|crashes| - 10] <= RESTART_WINDOW {
      WaitsAddUp(crashes, |crashes| - 10, 9);
    }
  }

  lemma {:induction false} NeverTenWhenRestarted(crashes: seq<nat>)
    requires AllRestarted(crashes)
    ensures forall n :: 1 <= n <= |crashes| ==> CountInWindow(crashes[..n], crashes[n - 1]) <= 9
  {
    if crashes != [] {
      var n := |crashes| - 1;
      RestartedPrefix(crashes, n);
      NeverTenWhenRestarted(crashes[..n]);
      RestartedIsOrdered(crashes);
      forall m | 1 <= m <= n
        ensures CountInWindow(crashes[..m], crashes[m - 1]) <= 9
      {
        assert crashes[..n][..m] == crashes[..m];
      }
      assert crashes[..|crashes|] == crashes;
      if |crashes| >= 10 {
        TenthIsOutside(crashes);
        CountReaches(crashes, 10);
      } else {
        CountBounds(crashes, crashes[n]);
      }
    }
  }

  /** Where the backoffs are waited out, every crash but the last is in fact granted a restart. */
  lemma {:induction false} HonouredIsRestarted(crashes: seq<nat>)
    requires Honoured(crashes)
    ensures AllRestarted(crashes)
  {
    if |crashes| > 1 {
      var n := |crashes| - 1;
      var before := crashes[..n];
      forall m | 1 <= m < n
        ensures WaitedOut(before, m)
      {
        assert WaitedOut(crashes, m);
        assert before[..m] == crashes[..m];
      }
      HonouredIsRestarted(before);
      NeverTenWhenRestarted(before);
      assert before[..n] == before;
      forall m | 1 <= m < |crashes|
        ensures Restarted(crashes, m)
      {
        assert WaitedOut(crashes, m);
        if m < n {
          assert Restarted(before, m);
          assert before[..m] == crashes[..m];
        }
      }
    }
  }

  /** Whatever the crashes, as long as the backoffs granted are waited out no window ever holds ten. */
  lemma NeverTenInWindow(crashes: seq<nat>)
    requires Honoured(crashes)
    ensures forall n :: 1 <= n <= |crashes| ==> CountInWindow(crashes[..n], crashes[n - 1]) <= 9
  {
    HonouredIsRestarted(crashes);
    NeverTenWhenRestarted(crashes);
  }

  /** The attempts of a supervised actor that waits out its backoffs never make it Failed. */
  lemma {:induction false} FailedIsUnreachable(life: Life, attempts: seq<Outcome>)
    requires Honoured(life.crashes + CrashTimes(attempts)) && life.state != Failed
    ensures Supervise(life, attempts).state != Failed
    decreases |attempts|
  {
    if attempts != [] && attempts[0].Crashed? {
      var crashes := life.crashes + [attempts[0].now];
      var all := life.crashes + CrashTimes(attempts);
      assert all == crashes + CrashTimes(attempts[1..]);
      assert all[..|crashes|] == crashes;
      NeverTenInWindow(all);
      assert all[|crashes| - 1] == crashes[|crashes| - 1];
      assert DecideFull(crashes) != Failed;
      var next := Life(crashes, DecideFull(crashes));
      FailedIsUnreachable(next, attempts[1..]);
    }
  }

  /** Nine in a window is reached, with every backoff waited out to the nanosecond. */
  lemma NineIsReached()
    ensures var crashes := seq(9, k requires 0 <= k < 9 => Waits(k));
      Honoured(crashes) && CountInWindow(crashes, crashes[8]) == 9
  {
    var crashes := seq(9, k requires 0 <= k < 9 => Waits(k));
    assert Waits(6) == 7 * SECOND && Waits(8) == 31 * SECOND;
    forall n | 1 <= n <= 9
      ensures CountInWindow(crashes[..n], crashes[n - 1]) == n
      ensures n < 9 ==> WaitedOut(crashes, n)
    {
      CountAll(crashes[..n], crashes[n - 1]);
    }
    assert crashes[..9] == crashes;
  }

  /** `n` crashes at one instant, as under a paused timer that does not slow the clock of the crashes. */
  function AtOnce(n: nat): seq<nat> {
    if n == 0 then [] else AtOnce(n - 1) + [0]
  }

  /** When no time passes between the crashes, the first ten are granted and the eleventh fails. */
  lemma EleventhAtOnceFails(n: nat)
    requires n >= 1
    ensures |AtOnce(n)| == n
    ensures DecideFull(AtOnce(n)) == Failed <==> n >= 11
  {
    AtOnceIsAllNow(n);
    CountAll(AtOnce(n), 0);
  }

  lemma {:induction false} AtOnceIsAllNow(n: nat)
    ensures |AtOnce(n)| == n && forall k :: 0 <= k < n ==> AtOnce(n)[k] == 0
  {
    if n > 0 {
      AtOnceIsAllNow(n - 1);
    }
  }
}
