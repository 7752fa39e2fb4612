/**
 What a process makes of a lock somebody else holds: it breaks the lock exactly if the record it read
 was unreadable or its process was probed dead, and otherwise reports that another is running.
 */
module PidDecisions {
  import opened Prelude
  import opened PidFile

  /** What a look at a contended file found: the recorded process, if the record could be read, and the probe's answer. */
  datatype Look = Look(record: Option<nat>, alive: bool)

  /** What the last step of the process in a run found, if that step was such a look. */
  ghost function LastLook(w: World, steps: seq<Step>, p: nat, seen: Option<Look>): Option<Look>
    requires Valid(w)
    decreases |steps|
  {
    if steps == [] || Take(w, steps[0]).None? then seen
    else
      TakeKeepsValid(w, steps[0]);
      LastLook(Take(w, steps[0]).value, steps[1..], p, if steps[0].p == p then Found(w, steps[0]) else seen)
  }

  function Found(w: World, s: Step): Option<Look>
    requires Valid(w)
  {
    if s.call.ReadRecord? && s.p < |w.procs| && w.procs[s.p].Contended? then
      assert ValidPc(w.procs[s.p], |w.disk.records|);
      Some(Look(w.disk.records[w.procs[s.p].ino], s.call.alive))
    else None
  }

  predicate IsStale(l: Look) {
    l.record.None? || !l.alive
  }

  /** Breaking the lock, or having reported a running process, as the look says. */
  predicate Follows(pc: Pc, seen: Option<Look>) {
    && (pc.Breaking? <==> seen.Some? && IsStale(seen.value))
    && (seen.Some? && !IsStale(seen.value) ==> pc.Idle?)
  }

  lemma StepFollows(w: World, s: Step, p: nat, seen: Option<Look>)
    requires Valid(w) && p < |w.procs| && Follows(w.procs[p], seen) && Take(w, s).Some?
    ensures |Take(w, s).value.procs| == |w.procs|
    ensures Follows(Take(w, s).value.procs[p], if s.p == p then Found(w, s) else seen)
  {
    TakeKeepsValid(w, s);
    OnlyOneMoves(w, s);
  }

  lemma {:induction false} RunFollows(w: World, steps: seq<Step>, z: World, p: nat, seen: Option<Look>)
    requires Valid(w) && Run(w, steps, z) && p < |w.procs| && Follows(w.procs[p], seen)
    ensures |z.procs| == |w.procs| && Follows(z.procs[p], LastLook(w, steps, p, seen))
    decreases |steps|
  {
    if steps != [] {
      TakeKeepsValid(w, steps[0]);
      StepFollows(w, steps[0], p, seen);
      RunFollows(Take(w, steps[0]).value, steps[1..], z, p, if steps[0].p == p then Found(w, steps[0]) else seen);
    }
  }

  /**
   In every run from the start, under every interleaving: a process can break the lock exactly if the
   last thing it did was to look at a contended file and find no readable record or a dead process; if
   it found a live one it has given up.
   */
  lemma BreaksExactlyWhenStale(w: World, steps: seq<Step>, z: World, p: nat)
    requires Start(w) && Run(w, steps, z) && p < |w.procs|
    ensures var look := LastLook(w, steps, p, None);
      && Valid(z) && |z.procs| == |w.procs|
      && (Take(z, Step(p, BreakOpen)).Some? <==> look.Some? && (look.value.record.None? || !look.value.alive))
      && (look.Some? && look.value.record.Some? && look.value.alive ==> z.procs[p] == Idle)
  {
    StartIsGuarded(w);
    LocksArePerFile(w, steps, z);
    RunFollows(w, steps, z, p, None);
  }

  // ---------- what a process has done ----------

  /** The calls the process has made since it last opened the path, the opening left out. */
  function SinceOpen(steps: seq<Step>, p: nat): seq<Call> {
    if steps == [] then [] else
    var before, last := SinceOpen(steps[..|steps| - 1], p), steps[|steps| - 1];
    if last.p != p then before else if last.call.Open? then [] else before + [last.call]
  }

  /** The first `n` calls are one try, or a try, a look, a reopening and a second try. */
  predicate Took(calls: seq<Call>, n: int) {
    && n <= |calls|
    && ((n == 1 && calls[0] == TryLock) || (n == 4 && Broke(calls) && calls[3] == TryLock))
  }

  predicate Looked(calls: seq<Call>) {
    |calls| >= 2 && calls[0] == TryLock && calls[1].ReadRecord?
  }

  predicate Broke(calls: seq<Call>) {
    |calls| >= 3 && Looked(calls) && calls[2] == BreakOpen
  }

  /** The calls that lead to a place. */
  predicate CameBy(pc: Pc, calls: seq<Call>) {
    var n := |calls|;
    match pc
    case Idle => true
    case Opened(_, breaking) => if breaking then n == 3 && Broke(calls) else n == 0
    case Contended(_) => n == 1 && calls[0] == TryLock
    case Breaking => n == 2 && Looked(calls)
    case Locked(_) => Took(calls, n)
    case Guard(_) => n >= 1 && Took(calls, n - 1) && calls[n - 1] == WriteRecord
    case Closing => n >= 2 && Took(calls, n - 2) && calls[n - 2] == WriteRecord && calls[n - 1] == Close
  }

  lemma StepCameBy(w: World, s: Step, calls: seq<Call>)
    requires Valid(w) && Take(w, s).Some? && CameBy(w.procs[s.p], calls)
    ensures CameBy(Take(w, s).value.procs[s.p], if s.call.Open? then [] else calls + [s.call])
  {
    var longer := calls + [s.call];
    assert longer[|calls|] == s.call && forall k | 0 <= k < |calls| :: longer[k] == calls[k];
  }

  lemma SinceOpenSnoc(steps: seq<Step>, s: Step, p: nat)
    ensures SinceOpen(steps + [s], p) ==
      if s.p != p then SinceOpen(steps, p) else if s.call.Open? then [] else SinceOpen(steps, p) + [s.call]
  {
    assert (steps + [s])[..|steps + [s]| - 1] == steps;
  }

  lemma CameOn(w: World, done: seq<Step>, s: Step, p: nat)
    requires Valid(w) && Take(w, s).Some? && p < |w.procs| && CameBy(w.procs[p], SinceOpen(done, p))
    ensures p < |Take(w, s).value.procs| && CameBy(Take(w, s).value.procs[p], SinceOpen(done + [s], p))
  {
    OnlyOneMoves(w, s);
    SinceOpenSnoc(done, s, p);
    if s.p == p {
      StepCameBy(w, s, SinceOpen(done, p));
    }
  }

  lemma {:induction false} RunCameBy(w: World, done: seq<Step>, steps: seq<Step>, z: World, p: nat)
    requires Valid(w) && Run(w, steps, z) && p < |w.procs| && CameBy(w.procs[p], SinceOpen(done, p))
    ensures p < |z.procs| && CameBy(z.procs[p], SinceOpen(done + steps, p))
    decreases |steps|
  {
    if steps == [] {
      assert done + steps == done;
    } else {
      var s := steps[0];
      TakeKeepsValid(w, s);
      CameOn(w, done, s, p);
      RunCameBy(Take(w, s).value, done + [s], steps[1..], z, p);
      assert done + [s] + steps[1..] == done + steps;
    }
  }

  /**
   In every run a guard was reached by one attempt at the lock, or by a second one after a look at the
   record and a reopening, and nothing else; a process that loses the second attempt does not try again.
   */
  lemma GuardsComeByTheirCalls(w: World, steps: seq<Step>, z: World, p: nat)
    requires Start(w) && Run(w, steps, z) && p < |w.procs|
    ensures p < |z.procs| && CameBy(z.procs[p], SinceOpen(steps, p))
  {
    RunCameBy(w, [], steps, z, p);
    assert [] + steps == steps;
  }

  // ---------- undisturbed starts ----------

  lemma {:induction false} RunSnoc(w: World, steps: seq<Step>, m: World, s: Step)
    requires Valid(w) && Run(w, steps, m) && Valid(m) && Take(m, s).Some?
    ensures Run(w, steps + [s], Take(m, s).value)
    decreases |steps|
  {
    if steps == [] {
      assert steps + [s] == [s] && [s][1..] == [];
      TakeKeepsValid(m, s);
    } else {
      TakeKeepsValid(w, steps[0]);
      RunSnoc(Take(w, steps[0]).value, steps[1..], m, s);
      assert (steps + [s])[0] == steps[0] && (steps + [s])[1..] == steps[1..] + [s];
    }
  }

  /** One step further, to a world given by its parts. */
  lemma Then(w: World, steps: seq<Step>, m: World, s: Step, z: World)
    requires Valid(w) && Run(w, steps, m) && Valid(m) && Take(m, s).Some? && Same(Take(m, s).value, z)
    ensures Run(w, steps + [s], z) && Valid(z)
  {
    RunSnoc(w, steps, m, s);
    TakeKeepsValid(m, s);
    assert Take(m, s).value == z;
  }

  function Calls(p: nat, calls: seq<Call>): seq<Step> {
    if calls == [] then [] else Calls(p, calls[..|calls| - 1]) + [Step(p, calls[|calls| - 1])]
  }

  /** A process makes one call more. */
  lemma ThenCalls(w: World, p: nat, calls: seq<Call>, m: World, call: Call, z: World)
    requires Valid(w) && Run(w, Calls(p, calls), m) && Valid(m)
    requires Take(m, Step(p, call)).Some? && Same(Take(m, Step(p, call)).value, z)
    ensures Run(w, Calls(p, calls + [call]), z) && Valid(z)
  {
    Then(w, Calls(p, calls), m, Step(p, call), z);
    assert (calls + [call])[..|calls + [call]| - 1] == calls;
  }

  function At(w: World, p: nat, pc: Pc): World
    requires p < |w.procs|
  {
    World(w.disk, w.procs[p := pc])
  }

  function Recorded(d: Disk, i: Inode, record: Option<nat>): Disk
    requires i < |d.records|
  {
    Disk(d.path, d.records[i := record])
  }

  /** A process alone with a file locks it and writes its record. */
  lemma LocksTheFile(w: World, p: nat, calls: seq<Call>, m: World)
    requires Valid(w) && Run(w, Calls(p, calls), m) && Valid(m)
    requires p < |m.procs| && m.procs[p].Opened? && Free(m.procs, m.procs[p].ino)
    ensures var i := m.procs[p].ino;
      && i < |m.disk.records|
      && Run(w, Calls(p, calls + [TryLock] + [WriteRecord]), World(Recorded(m.disk, i, Some(p)), m.procs[p := Guard(i)]))
  {
    var i := m.procs[p].ino;
    assert ValidPc(m.procs[p], |m.disk.records|);
    var locked := At(m, p, Locked(i));
    ThenCalls(w, p, calls, m, TryLock, locked);
    ThenCalls(w, p, calls + [TryLock], locked, WriteRecord, World(Recorded(m.disk, i, Some(p)), m.procs[p := Guard(i)]));
  }

  /** A first process gets the guard of the file the path names, with its own record in it, whatever was there. */
  lemma FirstStartGetsTheGuard(w: World, p: nat)
    requires Start(w) && p < |w.procs|
    ensures var (d, i) := OpenOrCreate(w.disk);
      i < |d.records| && d.path == Some(i)
      && Run(w, Calls(p, [Open, TryLock, WriteRecord]), World(Recorded(d, i, Some(p)), w.procs[p := Guard(i)]))
  {
    var (d, i) := OpenOrCreate(w.disk);
    var atLock := World(d, w.procs[p := Opened(i, false)]);
    assert Run(w, Calls(p, []), w);
    ThenCalls(w, p, [], w, Open, atLock);
    LocksTheFile(w, p, [Open], atLock);
    assert [] + [Open] == [Open] && [Open] + [TryLock] + [WriteRecord] == [Open, TryLock, WriteRecord];
    assert atLock.procs[p := Guard(i)] == w.procs[p := Guard(i)];
  }

  /** One whose record cannot be written ends without the lock, and leaves the record as it was or emptied. */
  lemma FailedStartLeavesNoLock(w: World, p: nat, cleared: bool)
    requires Start(w) && p < |w.procs|
    ensures var (d, i) := OpenOrCreate(w.disk);
      i < |d.records| && d.path == Some(i)
      && Run(w, Calls(p, [Open, TryLock, WriteFails(cleared)]),
             World(if cleared then Recorded(d, i, None) else d, w.procs))
  {
    var (d, i) := OpenOrCreate(w.disk);
    var atLock, locked := World(d, w.procs[p := Opened(i, false)]), World(d, w.procs[p := Locked(i)]);
    assert Run(w, Calls(p, []), w);
    ThenCalls(w, p, [], w, Open, atLock);
    ThenCalls(w, p, [Open], atLock, TryLock, locked);
    assert w.procs[p := Idle] == w.procs;
    assert [] + [Open] == [Open] && [Open] + [TryLock] == [Open, TryLock];
    assert [Open, TryLock] + [WriteFails(cleared)] == [Open, TryLock, WriteFails(cleared)];
    ThenCalls(w, p, [Open, TryLock], locked, WriteFails(cleared), World(if cleared then Recorded(d, i, None) else d, w.procs));
  }

  /** Somebody holds the lock of the file the path names, and another process is about to start. */
  predicate Meets(w: World, p: nat, q: nat) {
    && Valid(w) && p < |w.procs| && q < |w.procs| && p != q
    && Holding(w.procs[p]) && w.disk.path == Some(w.procs[p].ino) && w.procs[q].Idle?
  }

  /** A process that finds the lock held comes to look at the record. */
  lemma ComesToLook(w: World, p: nat, q: nat)
    requires Meets(w, p, q)
    ensures var z := At(w, q, Contended(w.procs[p].ino)); Run(w, Calls(q, [Open, TryLock]), z) && Valid(z)
  {
    var i := w.procs[p].ino;
    var atLock := At(w, q, Opened(i, false));
    assert Run(w, Calls(q, []), w);
    ThenCalls(w, q, [], w, Open, atLock);
    assert [] + [Open] == [Open];
    assert Holds(atLock.procs[p], i);
    ThenCalls(w, q, [Open], atLock, TryLock, At(w, q, Contended(i)));
    assert [Open] + [TryLock] == [Open, TryLock];
  }

  /** A holder that crashes leaves its file and its record, and its lock goes: the next process gets the guard of that file. */
  lemma CrashedHolderIsReplaced(w: World, p: nat, q: nat)
    requires Meets(w, p, q) && Exclusive(w.procs)
    ensures var i := w.procs[p].ino;
      var crashed := At(w, p, Idle);
      && Run(w, Calls(p, [Crash]), crashed)
      && Run(crashed, Calls(q, [Open, TryLock, WriteRecord]),
             World(Recorded(w.disk, i, Some(q)), w.procs[p := Idle][q := Guard(i)]))
  {
    var i := w.procs[p].ino;
    var crashed := At(w, p, Idle);
    assert Run(w, Calls(p, []), w);
    ThenCalls(w, p, [], w, Crash, crashed);
    assert [] + [Crash] == [Crash];
    var atLock := At(crashed, q, Opened(i, false));
    assert Run(crashed, Calls(q, []), crashed);
    ThenCalls(crashed, q, [], crashed, Open, atLock);
    assert Free(atLock.procs, i);
    LocksTheFile(crashed, q, [Open], atLock);
    assert [] + [Open] == [Open] && [Open] + [TryLock] + [WriteRecord] == [Open, TryLock, WriteRecord];
    assert atLock.procs[q := Guard(i)] == w.procs[p := Idle][q := Guard(i)];
  }

  /** A guard that is dropped takes the file away, and the next process gets a new one. */
  lemma DroppedGuardIsGone(w: World, p: nat)
    requires Valid(w) && p < |w.procs| && w.procs[p].Guard?
    ensures Run(w, Calls(p, [Close, Unlink]), World(Disk(None, w.disk.records), w.procs[p := Idle]))
  {
    assert Run(w, Calls(p, []), w);
    ThenCalls(w, p, [], w, Close, At(w, p, Closing));
    assert [] + [Close] == [Close] && [Close] + [Unlink] == [Close, Unlink];
    ThenCalls(w, p, [Close], At(w, p, Closing), Unlink, World(Disk(None, w.disk.records), w.procs[p := Idle]));
  }

  /** A second process that meets a recorded, live holder gives up, and leaves the world as it was. */
  lemma LiveHolderIsLeftAlone(w: World, p: nat, q: nat)
    requires Meets(w, p, q) && w.disk.records[w.procs[p].ino].Some?
    ensures Run(w, Calls(q, [Open, TryLock, ReadRecord(true)]), w)
  {
    ComesToLook(w, p, q);
    ThenCalls(w, q, [Open, TryLock], At(w, q, Contended(w.procs[p].ino)), ReadRecord(true), w);
    assert [Open, TryLock] + [ReadRecord(true)] == [Open, TryLock, ReadRecord(true)];
  }

  /** One that finds no record, or a dead process, reopens the file and empties it. */
  lemma StaleFileIsEmptied(w: World, p: nat, q: nat, alive: bool)
    requires Meets(w, p, q) && (w.disk.records[w.procs[p].ino].None? || !alive)
    ensures var i := w.procs[p].ino;
      var z := World(Recorded(w.disk, i, None), w.procs[q := Opened(i, true)]);
      Run(w, Calls(q, [Open, TryLock, ReadRecord(alive), BreakOpen]), z) && Valid(z)
  {
    var i := w.procs[p].ino;
    ComesToLook(w, p, q);
    ThenCalls(w, q, [Open, TryLock], At(w, q, Contended(i)), ReadRecord(alive), At(w, q, Breaking));
    assert [Open, TryLock] + [ReadRecord(alive)] == [Open, TryLock, ReadRecord(alive)];
    ThenCalls(w, q, [Open, TryLock, ReadRecord(alive)], At(w, q, Breaking), BreakOpen,
              World(Recorded(w.disk, i, None), w.procs[q := Opened(i, true)]));
    assert [Open, TryLock, ReadRecord(alive)] + [BreakOpen] == [Open, TryLock, ReadRecord(alive), BreakOpen];
  }

  /** If the lock is still held then, the process gives up; the holder has lost its record, and keeps its lock. */
  lemma HeldLockIsNotBroken(w: World, p: nat, q: nat, alive: bool)
    requires Meets(w, p, q) && (w.disk.records[w.procs[p].ino].None? || !alive)
    ensures Run(w, Calls(q, [Open, TryLock, ReadRecord(alive), BreakOpen, TryLock]),
                World(Recorded(w.disk, w.procs[p].ino, None), w.procs))
  {
    var i := w.procs[p].ino;
    var emptied := World(Recorded(w.disk, i, None), w.procs[q := Opened(i, true)]);
    StaleFileIsEmptied(w, p, q, alive);
    assert Holds(emptied.procs[p], i);
    ThenCalls(w, q, [Open, TryLock, ReadRecord(alive), BreakOpen], emptied, TryLock, World(emptied.disk, w.procs));
    assert [Open, TryLock, ReadRecord(alive), BreakOpen] + [TryLock] == [Open, TryLock, ReadRecord(alive), BreakOpen, TryLock];
  }

  /** From the start: a process gets the guard, and a second one that starts while it lives changes nothing. */
  lemma SecondStartIsRefused(w: World, p: nat, q: nat)
    requires Start(w) && p < |w.procs| && q < |w.procs| && p != q
    ensures exists z ::
      && Valid(z) && |z.procs| == |w.procs| && Run(w, Calls(p, [Open, TryLock, WriteRecord]), z)
      && Run(z, Calls(q, [Open, TryLock, ReadRecord(true)]), z)
      && z.procs[p].Guard? && z.procs[q] == Idle && z.disk.path == Some(z.procs[p].ino)
      && z.disk.records[z.procs[p].ino] == Some(p)
  {
    var (d, i) := OpenOrCreate(w.disk);
    var z := World(Recorded(d, i, Some(p)), w.procs[p := Guard(i)]);
    FirstStartGetsTheGuard(w, p);
    LiveHolderIsLeftAlone(z, p, q);
  }

  /** And one whose probe finds the first process dead breaks its lock. */
  lemma SecondStartBreaksTheDead(w: World, p: nat, q: nat)
    requires Start(w) && p < |w.procs| && q < |w.procs| && p != q
    ensures exists z, m ::
      && Valid(z) && Run(w, Calls(p, [Open, TryLock, WriteRecord]), z)
      && Run(z, Calls(q, [Open, TryLock, ReadRecord(false), BreakOpen]), m)
      && |m.procs| == |w.procs| && m.procs[q].Opened? && m.procs[q].breaking
      && m.disk.path == Some(m.procs[q].ino) && m.procs[q].ino < |m.disk.records|
      && m.disk.records[m.procs[q].ino].None?
  {
    var (d, i) := OpenOrCreate(w.disk);
    var z := World(Recorded(d, i, Some(p)), w.procs[p := Guard(i)]);
    FirstStartGetsTheGuard(w, p);
    StaleFileIsEmptied(z, p, q, false);
  }
}
