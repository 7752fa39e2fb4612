/**
 The single-instance guard: processes that open, lock, rewrite, close and unlink one path, each
 system call a step of its own. A lock belongs to an inode and goes with the descriptor that took it.
 */
module PidFile {
  import opened Prelude

  type Inode = nat

  datatype Pc =
    | Idle
    | Opened(ino: Inode, breaking: bool)
    | Contended(ino: Inode)
    | Breaking
    | Locked(ino: Inode)
    | Guard(ino: Inode)
    | Closing

  /** `records` holds what the file of each inode parses to: the id of a process, or nothing. */
  datatype Disk = Disk(path: Option<Inode>, records: seq<Option<nat>>)

  datatype World = World(disk: Disk, procs: seq<Pc>)

  /** `alive` is the answer of the probe of the recorded process. */
  datatype Call =
    | Open
    | TryLock
    | ReadRecord(alive: bool)
    | BreakOpen
    | WriteRecord
    | WriteFails(cleared: bool)
    | Close
    | Unlink
    | Crash

  datatype Step = Step(p: nat, call: Call)

  predicate Holding(pc: Pc) {
    pc.Locked? || pc.Guard?
  }

  predicate Holds(pc: Pc, i: Inode) {
    Holding(pc) && pc.ino == i
  }

  predicate Free(procs: seq<Pc>, i: Inode) {
    forall p | 0 <= p < |procs| :: !Holds(procs[p], i)
  }

  /** `O_CREAT`: the inode the path names, or a new one it names from now on. */
  function OpenOrCreate(d: Disk): (Disk, Inode) {
    match d.path
    case Some(i) => (d, i)
    case None => (Disk(Some(|d.records|), d.records + [None]), |d.records|)
  }

  predicate ValidPc(pc: Pc, bound: nat) {
    pc.Opened? || pc.Contended? || pc.Locked? || pc.Guard? ==> pc.ino < bound
  }

  predicate Valid(w: World) {
    && (w.disk.path.Some? ==> w.disk.path.value < |w.disk.records|)
    && forall p | 0 <= p < |w.procs| :: ValidPc(w.procs[p], |w.disk.records|)
  }

  function Become(w: World, p: nat, pc: Pc): World
    requires p < |w.procs|
  {
    w.(procs := w.procs[p := pc])
  }

  /** `None` when the process is not at that call. */
  function Take(w: World, s: Step): Option<World>
    requires Valid(w)
  {
    if s.p >= |w.procs| then None else
    match (s.call, w.procs[s.p])
    case (Open, Idle) =>
      var (d, i) := OpenOrCreate(w.disk);
      Some(Become(w.(disk := d), s.p, Opened(i, false)))
    case (TryLock, Opened(i, breaking)) =>
      Some(Become(w, s.p, if Free(w.procs, i) then Locked(i) else if breaking then Idle else Contended(i)))
    case (ReadRecord(alive), Contended(i)) =>
      Some(Become(w, s.p, if w.disk.records[i].Some? && alive then Idle else Breaking))
    case (BreakOpen, Breaking) =>
      var (d, i) := OpenOrCreate(w.disk);
      Some(Become(w.(disk := d.(records := d.records[i := None])), s.p, Opened(i, true)))
    case (WriteRecord, Locked(i)) =>
      Some(Become(w.(disk := w.disk.(records := w.disk.records[i := Some(s.p)])), s.p, Guard(i)))
    case (WriteFails(cleared), Locked(i)) =>
      Some(Become(if cleared then w.(disk := w.disk.(records := w.disk.records[i := None])) else w, s.p, Idle))
    case (Close, Guard(_)) => Some(Become(w, s.p, Closing))
    case (Unlink, Closing) => Some(Become(w.(disk := w.disk.(path := None)), s.p, Idle))
    case (Crash, _) => Some(Become(w, s.p, Idle))
    case _ => None
  }

  lemma TakeKeepsValid(w: World, s: Step)
    requires Valid(w) && Take(w, s).Some?
    ensures Valid(Take(w, s).value) && |Take(w, s).value.procs| == |w.procs|
  {
    var m := Take(w, s).value;
    forall p | 0 <= p < |m.procs| ensures ValidPc(m.procs[p], |m.disk.records|) {
      assert ValidPc(w.procs[p], |w.disk.records|);
    }
  }

  ghost predicate Run(w: World, steps: seq<Step>, z: World)
    requires Valid(w)
    decreases |steps|
  {
    if steps == [] then w == z
    else
      && Take(w, steps[0]).Some?
      && var m := Take(w, steps[0]).value;
         TakeKeepsValid(w, steps[0]); Run(m, steps[1..], z)
  }

  /** No process is inside `acquire` or holds a guard; the path may name a file somebody left. */
  predicate Start(w: World) {
    Valid(w) && forall p | 0 <= p < |w.procs| :: w.procs[p] == Idle
  }

  // ---------- what holds under every interleaving ----------

  /** An inode's lock has one holder. */
  predicate Exclusive(procs: seq<Pc>) {
    forall p, q | 0 <= p < |procs| && 0 <= q < |procs| && Holding(procs[p]) && Holding(procs[q]) :: 
      procs[p].ino == procs[q].ino ==> p == q
  }

  /** The record in a guard's own file is its own, or has been truncated by a process breaking the lock. */
  predicate OwnRecords(w: World)
    requires Valid(w)
  {
    forall p | 0 <= p < |w.procs| && w.procs[p].Guard? ::
      ValidPc(w.procs[p], |w.disk.records|) && w.disk.records[w.procs[p].ino] in {None, Some(p)}
  }

  lemma OnlyOneMoves(w: World, s: Step)
    requires Valid(w) && Take(w, s).Some?
    ensures s.p < |w.procs| && Take(w, s).value.procs == w.procs[s.p := Take(w, s).value.procs[s.p]]
  {
  }

  lemma StepKeepsExclusive(w: World, s: Step)
    requires Valid(w) && Exclusive(w.procs) && Take(w, s).Some?
    ensures Exclusive(Take(w, s).value.procs)
  {
    OnlyOneMoves(w, s);
    var now := Take(w, s).value.procs;
    if Holding(now[s.p]) {
      assert s.call.TryLock? ==> Free(w.procs, now[s.p].ino);
      assert !s.call.TryLock? ==> Holding(w.procs[s.p]) && w.procs[s.p].ino == now[s.p].ino;
      forall q | 0 <= q < |now| && Holding(now[q]) && now[q].ino == now[s.p].ino ensures q == s.p {
        assert q != s.p ==> Holds(w.procs[q], now[s.p].ino);
      }
    }
  }

  lemma StepKeepsRecords(w: World, s: Step)
    requires Valid(w) && Exclusive(w.procs) && OwnRecords(w) && Take(w, s).Some? && Valid(Take(w, s).value)
    ensures OwnRecords(Take(w, s).value)
  {
    OnlyOneMoves(w, s);
    var m := Take(w, s).value;
    forall p | 0 <= p < |m.procs| && m.procs[p].Guard? ensures m.disk.records[m.procs[p].ino] in {None, Some(p)} {
      assert ValidPc(w.procs[p], |w.disk.records|);
      if p != s.p {
        assert w.disk.records[m.procs[p].ino] in {None, Some(p)};
      }
    }
  }

  lemma StepKeepsLocks(w: World, s: Step)
    requires Valid(w) && Exclusive(w.procs) && OwnRecords(w) && Take(w, s).Some?
    ensures Valid(Take(w, s).value) && Exclusive(Take(w, s).value.procs) && OwnRecords(Take(w, s).value)
  {
    TakeKeepsValid(w, s);
    StepKeepsExclusive(w, s);
    StepKeepsRecords(w, s);
  }

  // ---------- the guard ----------

  /** Whoever holds a lock holds the one of the file the path names. */
  predicate Anchored(w: World) {
    forall p | 0 <= p < |w.procs| && Holding(w.procs[p]) :: w.disk.path == Some(w.procs[p].ino)
  }

  /** The process takes the lock of a file the path no longer names. */
  predicate LocksLostFile(w: World, s: Step)
    requires s.p < |w.procs|
  {
    s.call.TryLock? && w.procs[s.p].Opened? && Free(w.procs, w.procs[s.p].ino) && w.disk.path != Some(w.procs[s.p].ino)
  }

  /** The process unlinks the path while another holds the lock of its file. */
  predicate UnlinksHeldFile(w: World, s: Step)
    requires s.p < |w.procs|
  {
    s.call.Unlink? && w.procs[s.p].Closing? && exists q :: 0 <= q < |w.procs| && Holding(w.procs[q])
  }

  /** The two calls that can break the guard, exactly. */
  lemma AnchorIsLostOnlyTwoWays(w: World, s: Step)
    requires Valid(w) && Anchored(w) && Take(w, s).Some?
    ensures Anchored(Take(w, s).value) <==> !LocksLostFile(w, s) && !UnlinksHeldFile(w, s)
  {
    var m := Take(w, s).value;
    if LocksLostFile(w, s) {
      assert Holding(m.procs[s.p]);
    } else if UnlinksHeldFile(w, s) {
      var q :| 0 <= q < |w.procs| && Holding(w.procs[q]);
      assert m.procs[q] == w.procs[q];
    } else {
      forall p | 0 <= p < |m.procs| && Holding(m.procs[p]) ensures m.disk.path == Some(m.procs[p].ino) {
        assert p != s.p ==> Holding(w.procs[p]);
      }
    }
  }

  /** Anchored locks are one lock. */
  lemma AnchoredIsOne(w: World, p: nat, q: nat)
    requires Exclusive(w.procs) && Anchored(w)
    requires p < |w.procs| && q < |w.procs| && Holding(w.procs[p]) && Holding(w.procs[q])
    ensures p == q
  {
  }

  // ---------- when the two gaps are closed ----------

  /** Which of the two gaps are closed: from opening to locking, and from closing to unlinking. */
  datatype Gaps = Gaps(beforeLock: bool, beforeUnlink: bool)

  const BOTH: Gaps := Gaps(true, true)

  predicate InGap(pc: Pc, g: Gaps) {
    (g.beforeLock && pc.Opened?) || (g.beforeUnlink && pc.Closing?)
  }

  /** While a process is in a closed gap, only it takes steps. */
  predicate Undisturbed(w: World, s: Step, g: Gaps) {
    forall q | 0 <= q < |w.procs| && InGap(w.procs[q], g) :: s.p == q
  }

  ghost predicate UndisturbedRun(w: World, steps: seq<Step>, g: Gaps)
    requires Valid(w)
    decreases |steps|
  {
    steps == [] ||
    (Undisturbed(w, steps[0], g) &&
     (Take(w, steps[0]).Some? ==> (TakeKeepsValid(w, steps[0]); UndisturbedRun(Take(w, steps[0]).value, steps[1..], g))))
  }

  /** An opened file is still the one the path names. */
  predicate OpenedIsCurrent(w: World) {
    forall p | 0 <= p < |w.procs| && w.procs[p].Opened? :: w.disk.path == Some(w.procs[p].ino)
  }

  /** Nobody holds a lock while a process is about to unlink. */
  predicate ClosingIsAlone(procs: seq<Pc>) {
    (exists p :: 0 <= p < |procs| && procs[p].Closing?) ==> forall q | 0 <= q < |procs| :: !Holding(procs[q])
  }

  predicate OneInGap(procs: seq<Pc>) {
    forall p, q | 0 <= p < |procs| && 0 <= q < |procs| && InGap(procs[p], BOTH) && InGap(procs[q], BOTH) :: p == q
  }

  predicate GapsAreSafe(w: World) {
    OpenedIsCurrent(w) && ClosingIsAlone(w.procs) && OneInGap(w.procs)
  }

  predicate Guarded(w: World) {
    Valid(w) && Exclusive(w.procs) && OwnRecords(w) && Anchored(w) && GapsAreSafe(w)
  }

  lemma UndisturbedStep(w: World, s: Step)
    requires Guarded(w) && Undisturbed(w, s, BOTH) && Take(w, s).Some?
    ensures Guarded(Take(w, s).value)
  {
    StepKeepsLocks(w, s);
    AnchorIsLostOnlyTwoWays(w, s);
    GapsStaySafe(w, s);
  }

  lemma GapsStaySafe(w: World, s: Step)
    requires Guarded(w) && Undisturbed(w, s, BOTH) && Take(w, s).Some?
    ensures GapsAreSafe(Take(w, s).value)
  {
    OpenedStaysCurrent(w, s);
    ClosingStaysAlone(w, s);
    StillOneInGap(w, s);
  }

  lemma OpenedStaysCurrent(w: World, s: Step)
    requires Valid(w) && OpenedIsCurrent(w) && Undisturbed(w, s, BOTH) && Take(w, s).Some?
    ensures OpenedIsCurrent(Take(w, s).value)
  {
    OnlyOneMoves(w, s);
    var m := Take(w, s).value;
    forall p | 0 <= p < |m.procs| && m.procs[p].Opened? ensures m.disk.path == Some(m.procs[p].ino) {
      if p != s.p {
        assert InGap(w.procs[p], BOTH);
      }
    }
  }

  lemma StillOneInGap(w: World, s: Step)
    requires Valid(w) && OneInGap(w.procs) && Undisturbed(w, s, BOTH) && Take(w, s).Some?
    ensures OneInGap(Take(w, s).value.procs)
  {
    OnlyOneMoves(w, s);
  }

  lemma ClosingStaysAlone(w: World, s: Step)
    requires Valid(w) && Exclusive(w.procs) && Anchored(w) && ClosingIsAlone(w.procs)
    requires Undisturbed(w, s, BOTH) && Take(w, s).Some?
    ensures ClosingIsAlone(Take(w, s).value.procs)
  {
    OnlyOneMoves(w, s);
    var m := Take(w, s).value;
    if p :| 0 <= p < |m.procs| && m.procs[p].Closing? {
      if p == s.p {
        AloneAfterClose(w, s);
      } else {
        assert InGap(w.procs[p], BOTH);
      }
    }
  }

  lemma AloneAfterClose(w: World, s: Step)
    requires Valid(w) && Exclusive(w.procs) && Anchored(w) && Take(w, s).Some?
    requires Take(w, s).value.procs[s.p].Closing?
    ensures forall q | 0 <= q < |w.procs| :: !Holding(Take(w, s).value.procs[q])
  {
    OnlyOneMoves(w, s);
    assert w.procs[s.p].Guard?;
    forall q | 0 <= q < |w.procs| ensures !Holding(Take(w, s).value.procs[q]) {
      if Holding(w.procs[q]) {
        AnchoredIsOne(w, s.p, q);
      }
    }
  }

  lemma {:induction false} UndisturbedStaysGuarded(w: World, steps: seq<Step>, z: World)
    requires Guarded(w) && Run(w, steps, z) && UndisturbedRun(w, steps, BOTH)
    ensures Guarded(z)
    decreases |steps|
  {
    if steps != [] {
      UndisturbedStep(w, steps[0]);
      UndisturbedStaysGuarded(Take(w, steps[0]).value, steps[1..], z);
    }
  }

  lemma StartIsGuarded(w: World)
    requires Start(w)
    ensures Guarded(w)
  {
  }

  /**
   For any number of processes acquiring, breaking stale locks, failing, crashing and dropping their
   guards, whatever file an earlier one left behind: if no other process takes a step between an open
   and its lock, nor between a close and its unlink, then at most one guard exists at any time, and
   the path names the file it locked.
   */
  lemma UndisturbedIsSingle(w: World, steps: seq<Step>, z: World)
    requires Start(w) && Run(w, steps, z) && UndisturbedRun(w, steps, BOTH)
    ensures forall p, q | 0 <= p < |z.procs| && 0 <= q < |z.procs| && z.procs[p].Guard? && z.procs[q].Guard? :: p == q
    ensures forall p | 0 <= p < |z.procs| && z.procs[p].Guard? :: z.disk.path == Some(z.procs[p].ino)
  {
    StartIsGuarded(w);
    UndisturbedStaysGuarded(w, steps, z);
    forall p, q | 0 <= p < |z.procs| && 0 <= q < |z.procs| && z.procs[p].Guard? && z.procs[q].Guard? ensures p == q {
      AnchoredIsOne(z, p, q);
    }
  }

  // ---------- whole runs, whatever the interleaving ----------

  /** Every state of the run is anchored. */
  ghost predicate AlwaysAnchored(w: World, steps: seq<Step>)
    requires Valid(w)
    decreases |steps|
  {
    Anchored(w) &&
    (steps == [] ||
     (Take(w, steps[0]).Some? ==> (TakeKeepsValid(w, steps[0]); AlwaysAnchored(Take(w, steps[0]).value, steps[1..]))))
  }

  /** Some step of the run locks a lost file or unlinks a held one. */
  ghost predicate LosesAnchor(w: World, steps: seq<Step>)
    requires Valid(w)
    decreases |steps|
  {
    steps != [] && Take(w, steps[0]).Some? &&
    (LocksLostFile(w, steps[0]) || UnlinksHeldFile(w, steps[0]) ||
     (TakeKeepsValid(w, steps[0]); LosesAnchor(Take(w, steps[0]).value, steps[1..])))
  }

  lemma {:induction false} AnchoredUntilLost(w: World, steps: seq<Step>)
    requires Valid(w) && Anchored(w)
    ensures AlwaysAnchored(w, steps) <==> !LosesAnchor(w, steps)
    decreases |steps|
  {
    if steps != [] && Take(w, steps[0]).Some? {
      var m := Take(w, steps[0]).value;
      TakeKeepsValid(w, steps[0]);
      AnchorIsLostOnlyTwoWays(w, steps[0]);
      if Anchored(m) {
        AnchoredUntilLost(m, steps[1..]);
      }
    }
  }

  /**
   In every run from the start, under every interleaving, whoever holds a lock holds the one of the
   file the path names, in every state, if and only if no step locks a lost file or unlinks a held
   one; and while that is so there is at most one holder.
   */
  lemma AnchoredRunsExactly(w: World, steps: seq<Step>, z: World)
    requires Start(w) && Run(w, steps, z)
    ensures AlwaysAnchored(w, steps) <==> !LosesAnchor(w, steps)
    ensures !LosesAnchor(w, steps) ==>
      forall p, q | 0 <= p < |z.procs| && 0 <= q < |z.procs| && Holding(z.procs[p]) && Holding(z.procs[q]) :: p == q
  {
    AnchoredUntilLost(w, steps);
    LocksArePerFile(w, steps, z);
    if !LosesAnchor(w, steps) {
      AnchoredAtTheEnd(w, steps, z);
      forall p, q | 0 <= p < |z.procs| && 0 <= q < |z.procs| && Holding(z.procs[p]) && Holding(z.procs[q]) ensures p == q {
        AnchoredIsOne(z, p, q);
      }
    }
  }

  lemma {:induction false} AnchoredAtTheEnd(w: World, steps: seq<Step>, z: World)
    requires Valid(w) && Run(w, steps, z) && AlwaysAnchored(w, steps)
    ensures Anchored(z)
    decreases |steps|
  {
    if steps != [] {
      TakeKeepsValid(w, steps[0]);
      AnchoredAtTheEnd(Take(w, steps[0]).value, steps[1..], z);
    }
  }

  /** With no condition on the interleaving, locks are still exclusive file by file. */
  lemma {:induction false} LocksArePerFile(w: World, steps: seq<Step>, z: World)
    requires Valid(w) && Exclusive(w.procs) && OwnRecords(w) && Run(w, steps, z)
    ensures Valid(z) && Exclusive(z.procs) && OwnRecords(z)
    decreases |steps|
  {
    if steps != [] {
      StepKeepsLocks(w, steps[0]);
      LocksArePerFile(Take(w, steps[0]).value, steps[1..], z);
    }
  }

  // ---------- each gap alone lets two guards in ----------

  /** Some run of steps that keeps the closed gaps leads from `w` to `z`. */
  ghost predicate Reaches(w: World, z: World, g: Gaps) {
    Valid(w) && exists steps :: Run(w, steps, z) && UndisturbedRun(w, steps, g)
  }

  ghost predicate TwoGuards(g: Gaps) {
    exists w, z, p, q ::
      && Start(w) && Reaches(w, z, g)
      && 0 <= p < q < |z.procs| && z.procs[p].Guard? && z.procs[q].Guard?
  }

  predicate Same(a: World, b: World) {
    a.disk.path == b.disk.path && a.disk.records == b.disk.records && a.procs == b.procs
  }

  lemma Arrived(z: World, g: Gaps)
    requires Valid(z)
    ensures Reaches(z, z, g)
  {
    assert Run(z, [], z) && UndisturbedRun(z, [], g);
  }

  lemma Before(w: World, s: Step, m: World, z: World, g: Gaps)
    requires Valid(w) && Take(w, s).Some? && Same(Take(w, s).value, m) && Undisturbed(w, s, g) && Reaches(m, z, g)
    ensures Reaches(w, z, g)
  {
    assert Take(w, s).value == m;
    var steps :| Run(m, steps, z) && UndisturbedRun(m, steps, g);
    var longer := [s] + steps;
    assert longer[1..] == steps;
    assert Run(w, longer, z) && UndisturbedRun(w, longer, g);
  }

  lemma Opens(w: World, p: nat, m: World, z: World, g: Gaps)
    requires Valid(w) && p < |w.procs| && w.procs[p].Idle? && Undisturbed(w, Step(p, Open), g)
    requires var (d, i) := OpenOrCreate(w.disk); Same(World(d, w.procs[p := Opened(i, false)]), m)
    requires Reaches(m, z, g)
    ensures Reaches(w, z, g)
  {
    Before(w, Step(p, Open), m, z, g);
  }

  lemma Closes(w: World, p: nat, m: World, z: World, g: Gaps)
    requires Valid(w) && p < |w.procs| && w.procs[p].Guard? && Undisturbed(w, Step(p, Close), g)
    requires Same(World(w.disk, w.procs[p := Closing]), m)
    requires Reaches(m, z, g)
    ensures Reaches(w, z, g)
  {
    Before(w, Step(p, Close), m, z, g);
  }

  lemma Unlinks(w: World, p: nat, m: World, z: World, g: Gaps)
    requires Valid(w) && p < |w.procs| && w.procs[p].Closing? && Undisturbed(w, Step(p, Unlink), g)
    requires Same(World(w.disk.(path := None), w.procs[p := Idle]), m)
    requires Reaches(m, z, g)
    ensures Reaches(w, z, g)
  {
    Before(w, Step(p, Unlink), m, z, g);
  }

  lemma LocksAndWrites(w: World, p: nat, m: World, z: World, g: Gaps)
    requires Valid(w) && p < |w.procs| && w.procs[p].Opened? && Free(w.procs, w.procs[p].ino)
    requires forall q | 0 <= q < |w.procs| && InGap(w.procs[q], g) :: p == q
    requires var i := w.procs[p].ino;
      Same(World(w.disk.(records := w.disk.records[i := Some(p)]), w.procs[p := Guard(i)]), m)
    requires Reaches(m, z, g)
    ensures Reaches(w, z, g)
  {
    var locked := World(w.disk, w.procs[p := Locked(w.procs[p].ino)]);
    Before(locked, Step(p, WriteRecord), m, z, g);
    Before(w, Step(p, TryLock), locked, z, g);
  }

  /** One process starts up undisturbed: it opens, locks and writes. */
  lemma Acquires(w: World, p: nat, m: World, z: World, g: Gaps)
    requires Valid(w) && p < |w.procs| && w.procs[p].Idle?
    requires var (d, i) := OpenOrCreate(w.disk);
      Free(w.procs, i) && Same(World(d.(records := d.records[i := Some(p)]), w.procs[p := Guard(i)]), m)
    requires forall q | 0 <= q < |w.procs| :: !InGap(w.procs[q], g)
    requires Reaches(m, z, g)
    ensures Reaches(w, z, g)
  {
    var (d, i) := OpenOrCreate(w.disk);
    var atLock := World(d, w.procs[p := Opened(i, false)]);
    assert Free(atLock.procs, i);
    assert atLock.procs[p := Guard(i)] == w.procs[p := Guard(i)];
    LocksAndWrites(atLock, p, m, z, g);
    Opens(w, p, atLock, z, g);
  }

  function Three(path: Option<Inode>, records: seq<Option<nat>>, a: Pc, b: Pc, c: Pc): World {
    World(Disk(path, records), [a, b, c])
  }

  lemma Witness(z: World, g: Gaps)
    requires Reaches(Three(Some(0), [Some(0)], Guard(0), Idle, Idle), z, g)
    requires z == Three(Some(1), [Some(1), Some(2)], Idle, Guard(0), Guard(1))
    ensures TwoGuards(g)
  {
    var start := Three(None, [], Idle, Idle, Idle);
    Acquires(start, 0, Three(Some(0), [Some(0)], Guard(0), Idle, Idle), z, g);
    assert Start(start) && z.procs[1].Guard? && z.procs[2].Guard?;
  }

  /** A process that opened the file before it was unlinked locks a file that no longer has a name. */
  lemma OpenToLockMustNotBeInterrupted()
    ensures TwoGuards(Gaps(false, true))
  {
    var g := Gaps(false, true);
    var lost := Three(None, [Some(0)], Idle, Opened(0, false), Idle);
    var z := Three(Some(1), [Some(1), Some(2)], Idle, Guard(0), Guard(1));
    var held := Three(Some(0), [Some(0)], Guard(0), Opened(0, false), Idle);
    LostFileIsLocked(lost, z, g);
    FileIsLost(held, lost, z, g);
    Opens(Three(Some(0), [Some(0)], Guard(0), Idle, Idle), 1, held, z, g);
    Witness(z, g);
  }

  lemma FileIsLost(held: World, lost: World, z: World, g: Gaps)
    requires held == Three(Some(0), [Some(0)], Guard(0), Opened(0, false), Idle) && !g.beforeLock
    requires lost == Three(None, [Some(0)], Idle, Opened(0, false), Idle) && Reaches(lost, z, g)
    ensures Reaches(held, z, g)
  {
    var closing := Three(Some(0), [Some(0)], Closing, Opened(0, false), Idle);
    Unlinks(closing, 0, lost, z, g);
    Closes(held, 0, closing, z, g);
  }

  lemma LostFileIsLocked(lost: World, z: World, g: Gaps)
    requires lost == Three(None, [Some(0)], Idle, Opened(0, false), Idle) && !g.beforeLock
    requires z == Three(Some(1), [Some(1), Some(2)], Idle, Guard(0), Guard(1))
    ensures Reaches(lost, z, g)
  {
    var written := Three(None, [Some(1)], Idle, Guard(0), Idle);
    Arrived(z, g);
    Acquires(written, 2, z, z, g);
    LocksAndWrites(lost, 1, written, z, g);
  }

  /** A process that closed its guard unlinks the file another has locked in the meantime. */
  lemma CloseToUnlinkMustNotBeInterrupted()
    ensures TwoGuards(Gaps(true, false))
  {
    var g := Gaps(true, false);
    var taken := Three(Some(0), [Some(1)], Closing, Guard(0), Idle);
    var z := Three(Some(1), [Some(1), Some(2)], Idle, Guard(0), Guard(1));
    HeldFileIsUnlinked(taken, z, g);
    FileIsTaken(taken, z, g);
    Witness(z, g);
  }

  lemma FileIsTaken(taken: World, z: World, g: Gaps)
    requires taken == Three(Some(0), [Some(1)], Closing, Guard(0), Idle) && Reaches(taken, z, g) && !g.beforeUnlink
    ensures Reaches(Three(Some(0), [Some(0)], Guard(0), Idle, Idle), z, g)
  {
    var closing := Three(Some(0), [Some(0)], Closing, Idle, Idle);
    Acquires(closing, 1, taken, z, g);
    Closes(Three(Some(0), [Some(0)], Guard(0), Idle, Idle), 0, closing, z, g);
  }

  lemma HeldFileIsUnlinked(taken: World, z: World, g: Gaps)
    requires taken == Three(Some(0), [Some(1)], Closing, Guard(0), Idle) && !g.beforeUnlink
    requires z == Three(Some(1), [Some(1), Some(2)], Idle, Guard(0), Guard(1))
    ensures Reaches(taken, z, g)
  {
    var unlinked := Three(None, [Some(1)], Idle, Guard(0), Idle);
    Arrived(z, g);
    Acquires(unlinked, 2, z, z, g);
    Unlinks(taken, 0, unlinked, z, g);
  }

  // ---------- a lost anchor is a second guard waiting to happen ----------

  const NEITHER: Gaps := Gaps(false, false)

  ghost predicate ReachesTwoGuards(w: World) {
    exists z, p, q :: Reaches(w, z, NEITHER) && 0 <= p < q < |z.procs| && z.procs[p].Guard? && z.procs[q].Guard?
  }

  lemma TwoHere(z: World, p: nat, q: nat)
    requires Valid(z) && p < |z.procs| && q < |z.procs| && p != q && z.procs[p].Guard? && z.procs[q].Guard?
    ensures ReachesTwoGuards(z)
  {
    Arrived(z, NEITHER);
    if p < q {
      assert z.procs[p].Guard? && z.procs[q].Guard?;
    } else {
      assert z.procs[q].Guard? && z.procs[p].Guard?;
    }
  }

  lemma TwoSooner(w: World, s: Step, m: World)
    requires Valid(w) && Take(w, s) == Some(m) && ReachesTwoGuards(m)
    ensures ReachesTwoGuards(w)
  {
    var z, p, q :| Reaches(m, z, NEITHER) && 0 <= p < q < |z.procs| && z.procs[p].Guard? && z.procs[q].Guard?;
    Before(w, s, m, z, NEITHER);
  }

  /** A holder of one file and a holder of another finish writing their records. */
  lemma BothWrite(w: World, p: nat, q: nat)
    requires Valid(w) && p < |w.procs| && q < |w.procs| && p != q && Holding(w.procs[p]) && Holding(w.procs[q])
    ensures ReachesTwoGuards(w)
  {
    if w.procs[p].Guard? {
      OneWrites(w, p, q);
    } else {
      var s := Step(p, WriteRecord);
      TakeKeepsValid(w, s);
      OneWrites(Take(w, s).value, p, q);
      TwoSooner(w, s, Take(w, s).value);
    }
  }

  lemma OneWrites(w: World, p: nat, q: nat)
    requires Valid(w) && p < |w.procs| && q < |w.procs| && p != q && w.procs[p].Guard? && Holding(w.procs[q])
    ensures ReachesTwoGuards(w)
  {
    if w.procs[q].Guard? {
      TwoHere(w, p, q);
    } else {
      var s := Step(q, WriteRecord);
      TakeKeepsValid(w, s);
      TwoHere(Take(w, s).value, p, q);
      TwoSooner(w, s, Take(w, s).value);
    }
  }

  /**
   From any state in which a holder's file is not the one the path names, one more process starting up
   is enough for two guards: the two calls that lose the anchor are exactly what breaks the guard.
   */
  lemma LostAnchorAdmitsTwo(w: World, p: nat, q: nat)
    requires Valid(w) && p < |w.procs| && Holding(w.procs[p]) && w.disk.path != Some(w.procs[p].ino)
    requires q < |w.procs| && w.procs[q].Idle?
    ensures ReachesTwoGuards(w)
  {
    var open := Step(q, Open);
    var a := Take(w, open).value;
    TakeKeepsValid(w, open);
    var i := a.procs[q].ino;
    if Free(a.procs, i) {
      var lock := Step(q, TryLock);
      TakeKeepsValid(a, lock);
      BothWrite(Take(a, lock).value, p, q);
      TwoSooner(a, lock, Take(a, lock).value);
      TwoSooner(w, open, a);
    } else {
      var r :| 0 <= r < |a.procs| && Holds(a.procs[r], i);
      BothWrite(a, p, r);
      TwoSooner(w, open, a);
    }
  }
}
