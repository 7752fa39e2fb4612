# Concerto: a Dafny model of its protocols, policies and parsers

Concerto runs coding agents under a small *agent host* process, supervised by a *Core* daemon that
survives restarts and talks to paired devices. This project models the parts of it whose correctness
does not show from one function body, and proves what they promise over every input, run or
interleaving. Where the code delivers less than its comments say, the model follows the code: a
witness shows the gap, and the exact condition under which the promise holds is proved.

`dafny verify dfyconfig.toml` checks the whole project.

| file | what it models |
|---|---|
| `Rings.dfy` | the byte-bounded replay buffer of the agent host |
| `HostProtocol.dfy` | the agent host as a step system: recorder, supervisor, connections, accept loop, peers |
| `Delivery.dfy`, `HostDelivery.dfy`, `HostTheorems.dfy` | what every run delivers to the Core, and the end of a session |
| `HostGrammar.dfy`, `HostHandshake.dfy`, `HostDuplicates.dfy`, `HostRepeats.dfy` | the order of frames; what a Hello gets; repeated chunks |
| `HostReading.dfy`, `HostOutput.dfy` | what the host does with its peers' frames; whether output reaches a connected Core |
| `HostSlots.dfy`, `HostRelease.dfy`, `HostEnding.dfy` | the single-connection slot; a peer that is gone; the end of a run |
| `HostProgress.dfy` | when a connected Core can still be told that the child exited |
| `Transcript.dfy` | the bounded tail and its last lines |
| `Supervisor.dfy` | the restart policy of the actor supervisor |
| `NoiseSession.dfy`, `NoiseLink.dfy`, `NoiseDuplex.dfy` | rekey accounting of one end; two ends, half-duplex and full-duplex |
| `PidFile.dfy`, `PidDecisions.dfy` | the single-instance guard over a path, inodes, locks and unlink; when a lock is broken |
| `CivilDate.dfy` | civil dates from Unix seconds |
| `Handles.dfy`, `Subscriptions.dfy`, `ProcessIds.dfy` | session handles and subscription ids of the FFI, in one session and over the process |
| `FrameCodec.dfy` | length-prefixed frames |
| `Text.dfy`, `NulText.dfy`, `PorcelainStatus.dfy`, `NameStatus.dfy`, `UnifiedDiff.dfy` | parsers of git output |
| `Cones.dfy` | sparse-cone statistics |
| `DeviceCerts.dfy` | device certificates: issue, sign, verify, validate |

## How the model is built

* **The agent host** is a state machine whose steps are the single lock acquisitions, frame writes and
  frame reads of the concurrent parts of `crates/agent-host/src/main.rs`, interleaved freely. `Apply` gives the
  state after a step; `Exec` runs a list of steps. A full log of the output is kept beside the ring as
  history; no step looks at it except to say what it is. The Core is its read pump
  (`crates/core/src/agent_supervisor/actor.rs`), which takes every chunk and keeps the highest number as
  its watermark; it acknowledges, and says Hello with, numbers up to that watermark. The receiver that
  drops what is at or below its watermark (`HostTheorems.Dedup`) is a specification device: Concerto's
  read pump has no such filter, and `HostRepeats.RepeatsExactly` says exactly what it can see twice.
* **A cipher** is an epoch (the number of rekeys) and a nonce; a frame opens only under the pair it was
  sealed with. Rekeying, section 4.2 of the Noise Protocol Framework (revision 34), replaces the key and,
  by section 11.3, need not reset the nonce; here it does not.
* **Signatures, the digest, CBOR and the frame body codec** are function-valued parameters with the laws
  they promise: verification accepts what signing made, decoding inverts encoding.
* **Clocks** are parameters, in nanoseconds where the code uses `Instant` and in seconds where it uses
  Unix time. Text is modelled one byte a character.
* Objects that the source updates in place (`RingBuffer`, `RestartHistory`, `NoiseSession`, the session
  registry, the subscription table, readers and writers of frames, the recorder) are classes whose
  methods are proved against functions on values; the theorems are about those functions.

## Where the code and its comments part

* `api.rs:80-86` calls the number in `Ready` the highest emitted; it is the highest stored, so after the buffer has
  been emptied by acknowledgements it is 0 (`Rings.LastSeqExact`, `Rings.LastSeqForgetsAckedOutput`).
* `main.rs:849-852` and `931-933` say a spawn failure is surfaced by `AgentExited` and that the exit flag is
  set before the supervisor returns; the early returns of `run_pty` do neither
  (`HostSlots.EarlyReturnIsNeverAnnounced`).
* `hot_reconnect.rs:265-273` says that the host notices a closed bridge only when it next writes, and answers
  `AlreadyConnected` until then; exactly when it can (`HostRelease.FreedExactly`): a Core that leaves a quiet
  session leaves the slot taken (`HostRelease.QuietSessionStaysTaken`).
* `main.rs:745` waits without having looked again, so a chunk notified between the writer's snapshot and its
  wait stays in the ring until the next one (`HostOutput.OutputReachesExactly`, `HostOutput.OutputCanBeStranded`).
* `supervisor.rs:49-50` speaks of Failed after ten crashes; with the backoffs waited out, ten never fall in
  one window, and Failed cannot be reached (`Supervisor.NeverTenInWindow`, `Supervisor.FailedIsUnreachable`).
  The test at `supervisor.rs:731` is written to reach it under a paused timer; crash times come from
  `Instant`, which that does not pause (`Supervisor.EleventhAtOnceFails`).
* `noise_ik.rs:461-466` says that both ends stay in lockstep. Half-duplex traffic does
  (`NoiseLink.HalfDuplexDelivers`) exactly where the timers agree (`NoiseLink.LockstepExactly`); crossing
  frames and skewed timers break it (`NoiseLink.CrossingBreaksTheLink`, `NoiseLink.TimerSkewBreaksTheLink`),
  and the exact boundary for all traffic is `NoiseDuplex.LinkLivesWithoutFatalSteps`.
* `pid_file.rs:9-10` guarantees that no other process can take the lock; that holds of the file, not of the
  path, unless two pairs of calls are not interrupted (`PidFile.UndisturbedIsSingle`, its two witnesses,
  and the exact condition `PidFile.AnchoredRunsExactly`).
  `pid_file.rs:295-297` says that other errors of the probe are reported as alive; the code reports them as
  dead. The probe's answer is arbitrary here, so nothing rests on it.
* `log_filter.rs:353-354` claims the full `i64` range; the year is cut to 32 bits, and the result is exact
  exactly between two instants (`CivilDate.ExactWhenYearFits`). The `y + 1` of the last step is modelled
  with the wrap-around of a release build.
* `lib.rs:330-331` of the FFI says: "Reuse the registry's id space for subscription ids (monotonic, unique within
  the process); store the cancel sender." Over the process ids increase exactly if no open finds a smaller
  table than the open before it found, on whatever session, and differ exactly if none finds one smaller by
  as many entries as opens lie between (`ProcessIds.IdsIncreaseExactly`, `ProcessIds.IdsDifferExactly`); two
  sessions that lose nothing can share an id (`ProcessIds.TwoSessionsShareAnId`). `617-618` promise that
  subscriptions open at once on one session get distinct ids, even from a table just drained. The ids of a
  session increase exactly if no more entries go between two of its opens than seeds are drawn
  (`Subscriptions.IdsIncreaseExactly`); a session that loses two can repeat a live id, and then both streams
  stop (`Subscriptions.ThreeOpensTwoCancels`, `Subscriptions.RepeatedIdStopsBoth`).
* `bridge.rs:58-60` calls an end of file inside a frame a protocol error; the code reports the same `Eof` as
  between frames (`FrameCodec.CutStream`).
* `status.rs:89-91` consumes a second path for renames only; a copy record shifts the parse
  (`PorcelainStatus.ParsingInvertsOutput` gives the exact condition), and can make it slice a character in
  two and panic (`PorcelainStatus.CopyCanPanic`).
* `api.rs:485-487` of gix-wrap treats cones that all mean the root as the whole tree; beside a real directory
  the root is dropped (`Cones.AddingConesIsMonotoneUnless`).

## Model

| member | source | states |
|---|---|---|
| Rings.EvictionIsMinimal | crates/agent-host/src/ring.rs:106-114 | eviction drops the fewest oldest chunks that meet the capacity: every earlier cut exceeds it |
| Rings.RingIsBoundedSuffix | crates/agent-host/src/ring.rs:59-82 | over every run of pushes and prunes the ring is a suffix of exactly what was pushed, within its capacity, and what was dropped never returns |
| Rings.HoldsExactly | crates/agent-host/src/ring.rs:59-114 | after every run the ring holds a chunk if and only if no acknowledgement covers it and it fits the capacity together with all pushed after it |
| Rings.PushEvictsMinimally | crates/agent-host/src/ring.rs:61-68 | after every run, a push drops a chunk only where keeping it would exceed the capacity |
| Rings.LastSeqExact | crates/agent-host/src/ring.rs:95-98 | `last_seq` is the highest number emitted if and only if something is held or nothing was pushed; otherwise it is 0 |
| Rings.LastSeqForgetsAckedOutput | crates/agent-host/src/ring.rs:95-98 | for every chunk that fits, a run in which it was emitted and `last_seq` is 0 |
| Rings.FilterIsCut | crates/agent-host/src/ring.rs:87-93 | on the ring's contiguous numbers, filtering by number is cutting the log |
| Rings.RingBuffer.WithCapacity | crates/agent-host/src/ring.rs:50-57 | a new buffer is the empty suffix of the empty log |
| Rings.RingBuffer.Push | crates/agent-host/src/ring.rs:61-68 | the log grows by the chunk, the number returned is its position, the cut moves only as far as the capacity asks; numbers, byte count and chunks stay consistent |
| Rings.RingBuffer.Evict | crates/agent-host/src/ring.rs:106-114 | the loop reaches exactly the minimal cut |
| Rings.RingBuffer.PruneThrough | crates/agent-host/src/ring.rs:73-82 | exactly the chunks numbered up to the acknowledgement are dropped, never more than there are |
| Rings.RingBuffer.ReplayPastIsReplay | crates/agent-host/src/ring.rs:87-93 | the replay is the log past the later of the cut and the watermark |
| Rings.RingBuffer.LastIsLastSeq | crates/agent-host/src/ring.rs:96-98 | the number at the back of the buffer is the length of the log, or 0 if nothing is held |
| HostTheorems.StepKeeps | crates/agent-host/src/main.rs:596-794 | every step of every party, in any interleaving, keeps the delivery invariant of all connections |
| HostTheorems.RunKeeps | crates/agent-host/src/main.rs:596-978 | the invariant holds in every reachable state |
| HostDelivery.TakeSnapshot | crates/agent-host/src/main.rs:671-696 | a snapshot past a watermark, when everything below it is sent or gone, leaves nothing retained out |
| HostDelivery.SnapReplayDelivers | crates/agent-host/src/main.rs:671-674 | taking the replay past the Hello's number keeps the connection gapless although the watermark was read earlier |
| HostDelivery.SendChunkDelivers | crates/agent-host/src/main.rs:700-710 | a chunk sent, or a write that fails in the middle of a snapshot, keeps what was delivered gapless and authentic |
| HostDelivery.SendExitDelivers | crates/agent-host/src/main.rs:711-744 | AgentExited follows everything recorded before the exit that the connection still owes |
| HostTheorems.NextChunk | crates/core/src/agent_supervisor/actor.rs:1666-1671 | the next chunk the Core takes skips only evicted numbers, seen from its watermark |
| HostTheorems.ReaderDelivers | crates/agent-host/src/main.rs:754-789 | a Pong can never follow AgentExited, and reading changes nothing that was delivered |
| HostTheorems.ReaderKeepsStore | crates/agent-host/src/main.rs:780-783 | an acknowledgement prunes only what the Core has consumed |
| HostTheorems.DedupIsExact | crates/agent-host/src/main.rs:652-747 | a gapless authentic delivery, filtered by watermark, is strictly increasing, authentic, and lacks only evicted numbers |
| HostTheorems.CoreSkipsOnlyEvicted | crates/agent-host/src/main.rs:652-747 | in every run of pushes, acknowledgements, disconnects, reconnects and interleavings, the filtering receiver takes chunks unaltered, in order, at most once, and every number it skips was evicted for capacity |
| HostTheorems.CoreIsLossless | crates/agent-host/src/main.rs:652-747 | when nothing was evicted, that receiver holds exactly the log up to its watermark |
| HostTheorems.ExitIsLastAndComplete | crates/agent-host/src/main.rs:690-747 | AgentExited is the last frame of its connection, carries the child's status, and follows every chunk recorded before the exit flag that is neither below the Hello's watermark, evicted nor acknowledged |
| HostTheorems.DeliveredMeansSent | crates/agent-host/src/main.rs:711-742 | `delivered_exit` implies that some connection ends with AgentExited |
| HostEnding.DeliveredExactly | crates/agent-host/src/main.rs:711-742 | in every run `delivered_exit` is set if and only if some connection carries AgentExited and its writer has done with it |
| HostEnding.AgentExitedTellsTheTruth | crates/agent-host/src/main.rs:448-453 | in every run AgentExited carries the status with which the child ended |
| HostEnding.LeavesExactly | crates/agent-host/src/main.rs:869-926 | in every run the host can still leave if and only if its supervisor has not returned early |
| HostTheorems.HeardExitMeansHeardAll | crates/agent-host/src/main.rs:690-747 | a Core that has read AgentExited has taken everything recorded before the exit, but for what was evicted |
| HostGrammar.ConversationIsOrderly | crates/agent-host/src/main.rs:632-744 | in every run a refused connection hears only why; any other hears Ready first, with the length of the log when `host_last_seq` was read or 0, then output and answers, and AgentExited only at the end |
| HostHandshake.NothingBelowTheHello | crates/agent-host/src/main.rs:606-710 | in every run, on every connection: if a chunk is sent, the first frame the peer sent was a Hello with the right cookie, and the chunk is numbered above the one that Hello names |
| HostHandshake.HelloIsAnswered | crates/agent-host/src/main.rs:606-691 | in every run, a handler left to itself answers a good Hello, if the slot is free, with Ready and then exactly the chunks held above the number it names; otherwise `AlreadyConnected`, `CookieMismatch` or nothing, as the frame deserves |
| HostReading.RingIsRun | crates/agent-host/src/main.rs:169-184 | in every run the host's ring is what its records and the acknowledgements its readers took make of it |
| HostReading.HostHoldsExactly | crates/agent-host/src/main.rs:780-783 | in every run, under every interleaving, the host holds a chunk if and only if no acknowledgement has covered it and it fits the capacity together with all recorded after it |
| HostReading.SkippedDidNotFit | crates/agent-host/src/main.rs:652-747 | in every run, what the filtering receiver skips did not fit the capacity together with all recorded after it |
| HostReading.FittingSessionIsLossless | crates/agent-host/src/ring.rs:59-114 | a session whose whole output fits the capacity is taken losslessly, however often the Core comes and goes |
| HostReading.FramesAreHeard | crates/agent-host/src/main.rs:754-789 | in every run, on every connection, the peer's frames are taken in order and none left out, and there is exactly one Pong for every Ping taken while the wire holds |
| HostReading.CoreTakesWhatItReads | crates/core/src/agent_supervisor/actor.rs:1666-1671 | in every run the Core has taken every chunk it read, in that order and unfiltered, and its watermark is the highest of them |
| HostOutput.OutputReachesExactly | crates/agent-host/src/main.rs:693-745 | in every run, for every waiting writer and every chunk it has still to pass: while the child is quiet the chunk can be sent if and only if a call of `notify_waiters` is still to come |
| HostOutput.RecordedReachesWaiting | crates/agent-host/src/main.rs:169-184 | a chunk that fits the ring and is recorded while the writer waits can reach the connection |
| HostOutput.ExitReachesWaiting | crates/agent-host/src/main.rs:448-453 | a writer that waits when the child exits can be brought to announce it |
| HostOutput.OutputCanBeStranded | crates/agent-host/src/main.rs:693-745 | a run in which a chunk is recorded and notified between the writer's snapshot and its wait, and while the child is quiet nobody sends it |
| HostDuplicates.OnlyTheWindowRepeats | crates/agent-host/src/main.rs:654-691 | a number sent twice on one connection was recorded between the reading of `host_last_seq` and the replay, and is sent once by the handshake and once by the writer |
| HostDuplicates.WindowRepeats | crates/agent-host/src/main.rs:654-691 | for every capacity and every chunk that fits it, a run in which that chunk, recorded in the window, is sent twice |
| HostRepeats.RepeatsExactly | crates/agent-host/src/main.rs:654-710 | in every run, for every connection whose writer has sent nothing yet and every number: some continuation sends it twice on that connection if and only if the replay sent it, it is above the watermark read before the replay, and the ring still holds it |
| HostSlots.SlotIsExclusive | crates/agent-host/src/main.rs:641-649 | in every interleaving `connection_active` is set while a handler is between claim and release, and no other handler is |
| HostSlots.SlotIsFreedOrHeld | crates/agent-host/src/main.rs:791-792 | when the flag is set some handler holds the slot, and the accept loop has left only after the exit flag was set |
| HostRelease.FreedExactly | crates/agent-host/src/main.rs:690-792 | in every run, for every connection that holds the slot and whose peer is gone: while the child is quiet the slot can be freed if and only if the handler has something to write, or will find it |
| HostRelease.QuietSessionStaysTaken | crates/core/tests/hot_reconnect.rs:265-273 | a run after which the Core has gone and, while the child is quiet, the slot stays taken |
| HostRelease.ClosesWhenBothAreDone | crates/agent-host/src/main.rs:791-792 | in every run a connection past its handshake ends only when its writer is done and either its peer has closed and all its frames were taken, or a Ping could not be answered |
| HostRelease.FailedWriteIsTheLast | crates/agent-host/src/main.rs:671-742 | from the step on whose write fails the handler never sends anything again |
| HostRelease.FailedPongIsTheLast | crates/agent-host/src/main.rs:774-779 | a reader that cannot answer a Ping takes nothing more |
| HostSlots.EarlyReturnIsNeverAnnounced | crates/agent-host/src/main.rs:321-382 | after an early return of `run_pty` the accept loop never leaves and no connection ever carries AgentExited |
| HostProgress.ToldExactlyIfItCanHear | crates/agent-host/src/main.rs:652-747 | in every run, for every connection past its claim once the exit flag is set and AgentExited has not been sent on it: some continuation in which nothing is recorded sends it if and only if the handler is still on its way to the flag or has seen it, or waits (or is about to) with a call of `notify_waiters` still to come |
| HostProgress.Announces | crates/agent-host/src/main.rs:690-745 | a handler that can hear is brought to AgentExited by its own steps and one notification |
| HostProgress.WakeCanBeMissed | crates/agent-host/src/main.rs:693-745 | a run in which the exit is notified between the writer's look at the flag and its wait, with the Core still connected |
| HostProgress.StrandedForEver | crates/agent-host/src/main.rs:693-745 | a connection whose handler cannot hear never carries AgentExited while nothing more is recorded |
| Transcript.Recorder.RecordChunk | crates/agent-host/src/main.rs:169-184 | one chunk goes to the ring, and the tail is the last 32 KiB of the old tail and the chunk |
| Transcript.TailIsSuffix | crates/agent-host/src/main.rs:174-182 | however the output is cut into chunks, the tail is the last bytes of the whole stream |
| Transcript.RecordAll | crates/agent-host/src/main.rs:396-400 | recording a session leaves the ring as the pushes of its chunks leave it, whole log and all, and its last bytes in the tail |
| Transcript.TailLines | crates/agent-host/src/exit.rs:45-56 | the last `n` lines of the decoded bytes, or all of them |
| Transcript.FrontChangesOneLine | crates/agent-host/src/exit.rs:49-50 | for any lossy decoding that keeps ASCII bytes, cutting the front of a text, even inside a character, changes its first line only |
| Transcript.LastLinesAreExact | crates/agent-host/src/exit.rs:45-56 | when the tail holds more than `n` lines, its last `n` are the last `n` lines of everything recorded, decoding included |
| Transcript.LastLinesExactly | crates/agent-host/src/exit.rs:45-56 | for plain text, the last `n` lines of the tail are those of the whole stream if and only if the stream fits, or the tail holds more than `n` lines, or it holds exactly `n` and the byte before it is a line feed |
| Transcript.FinalLines | crates/agent-host/src/main.rs:940-944 | the final-info document gets the session's last 100 lines whenever the tail holds more than 100 or the session fits the tail; for plain text exactly then, or when the tail begins with a line and holds 100 |
| Transcript.FirstLineCanBeCut | crates/agent-host/src/exit.rs:45-56 | with the 32 KiB tail and 100 lines: a session of one line a byte longer than the tail gets a cut line |
| Supervisor.RestartHistory.Record | crates/core/src/supervisor.rs:159-165 | the entries are the last 16 of all crashes recorded, and the total saturates |
| Supervisor.RestartHistory.CountRecent | crates/core/src/supervisor.rs:169-174 | the number of entries within the closed window |
| Supervisor.RingCounts | crates/core/src/supervisor.rs:156-174 | a bounded memory of ordered crashes counts what the whole history would, up to its size |
| Supervisor.RingDecidesAsFull | crates/core/src/supervisor.rs:592-621 | for every ordered history the 16-slot ring gives the decision of the unbounded history |
| Supervisor.SupervisedActor.DecideRestart | crates/core/src/supervisor.rs:587-628 | the state and the answer are those of the policy over the whole history |
| Supervisor.SupervisedActor.RunSupervised | crates/core/src/supervisor.rs:488-581 | the wrapper's loop, whatever its attempts, leads to the history and state of the unbounded policy, and makes as many of them |
| Supervisor.WrapperEndsExactly | crates/core/src/supervisor.rs:499-581 | attempts are made one after the other up to the first that did not crash, crashed as the eleventh within a minute, or was told to stop while it waited, which it does from the fourth crash within a minute on; crashes and state are what those attempts leave behind |
| Supervisor.FailsExactlyOnEleventh | crates/core/src/supervisor.rs:599-613 | a crash leads to Failed if and only if the tenth before it is at most a minute older |
| Supervisor.BackoffOf | crates/core/src/supervisor.rs:615-621 | the clamp on the table's index is never needed |
| Supervisor.BackoffDoubles | crates/core/src/supervisor.rs:53-69 | up to the third crash in the window a restart is immediate, then the wait doubles from one second to 32 |
| Supervisor.TenPerMinute | crates/core/src/supervisor.rs:592-621 | no closed minute holds more than ten crashes that were granted a restart |
| Supervisor.NeverTenInWindow | crates/core/src/supervisor.rs:560-621 | in every history in which each restart that was granted waits out its backoff, no window ever holds ten crashes |
| Supervisor.FailedIsUnreachable | crates/core/src/supervisor.rs:488-628 | no run of attempts in which each restart that was granted waits out its backoff makes the actor Failed |
| Supervisor.NineIsReached | crates/core/src/supervisor.rs:51-69 | nine in a window is reached with every backoff waited out |
| Supervisor.EleventhAtOnceFails | crates/core/src/supervisor.rs:587-613 | with no time between crashes ten are granted and the eleventh fails |
| NoiseSession.NoiseSession.EncryptAt | crates/identity/src/noise_ik.rs:405-420 | a payload is sealed under the current key and nonce, counted, and both directions are rekeyed when the budget or the timer is used up; a failure changes nothing |
| NoiseSession.NoiseSession.DecryptAt | crates/identity/src/noise_ik.rs:433-448 | a frame opens only under its own epoch and nonce, is counted and may rekey; a failure changes nothing |
| NoiseSession.NoiseSession.MaybeRekeyAt | crates/identity/src/noise_ik.rs:470-481 | both directions and both counters, or nothing |
| NoiseSession.CountsExactly | crates/identity/src/noise_ik.rs:452-481 | the counter never saturates, stays below the budget, and the two directions change epoch together |
| NoiseSession.BooksBalance | crates/identity/src/noise_ik.rs:405-481 | over every sequence of operations every byte is in exactly one epoch, and no epoch carries more than the budget and one payload |
| NoiseSession.SucceedsExactly | crates/identity/src/noise_ik.rs:405-448 | after every sequence of operations, the next succeeds if and only if its payload fits, the nonces are not used up, and a frame to be opened was sealed under the current epoch and the nonce that is due; a failure changes nothing |
| NoiseSession.TimerRunsFromLastChange | crates/identity/src/noise_ik.rs:470-481 | over every sequence of operations the timer runs from the last change of keys, or from the handshake |
| NoiseSession.RekeysExactly | crates/identity/src/noise_ik.rs:452-481 | after every sequence of operations, the next changes the keys if and only if it succeeds and the epoch has then carried a gigabyte, or the last change is an hour ago |
| NoiseSession.NoNonceTwice | crates/identity/src/noise_ik.rs:405-420 | no two frames of a session are sealed under one key and nonce |
| NoiseLink.OpenedIsSealed | crates/identity/src/noise_ik.rs:405-448 | over every run what an end has opened is, unaltered and in order, a prefix of what the other sealed |
| NoiseLink.CatchSnoc | crates/identity/src/noise_ik.rs:433-448 | opening a queue and one frame more is opening the queue and then that frame |
| NoiseLink.ReceiveKeepsStepExactly | crates/identity/src/noise_ik.rs:433-481 | in step, the oldest frame opens, and the ends are in step afterwards if and only if the timers agree on it or the byte budget decides |
| NoiseLink.LockstepExactly | crates/identity/src/noise_ik.rs:461-481 | a half-duplex run is in step throughout if and only if that holds of every frame opened |
| NoiseLink.HalfDuplexStaysInStep | crates/identity/src/noise_ik.rs:461-481 | over every such run every frame opens, and the sender's state is the receiver's advanced over what is in flight |
| NoiseLink.HalfDuplexDelivers | crates/identity/src/noise_ik.rs:461-481 | the same from the handshake on: sent is opened plus in flight, in both directions |
| NoiseLink.CrossingFrames | crates/identity/src/noise_ik.rs:461-481 | two crossing frames both open if and only if neither end rekeys on sealing its own, by the budget or by its timer |
| NoiseLink.CrossingBreaksTheLink | crates/identity/src/noise_ik.rs:461-481 | a run from the handshake, with no time passing, in which crossing frames break the session |
| NoiseLink.TimerSkewBreaksTheLink | crates/identity/src/noise_ik.rs:470-481 | timers started a second apart break one-way traffic |
| NoiseDuplex.ReceiverIsNeverBehind | crates/identity/src/noise_ik.rs:405-481 | where no timer decides, whatever crosses, the oldest frame in flight is never of a later epoch than its receiver, and fails to open if and only if it is of an earlier one |
| NoiseDuplex.NeverBehindExactly | crates/identity/src/noise_ik.rs:405-481 | over every run, timers included: no receiver is ever behind the oldest frame on its way to it if and only if no step seals onto an empty wire in an epoch its peer has not reached, or opens a frame without the rekey its sender made before the next one |
| NoiseDuplex.StepDooms | crates/identity/src/noise_ik.rs:405-481 | whatever the timers, a live link gets a frame its receiver has left behind if and only if an end rekeys with frames under the old key in flight towards it, or seals before a rekey its peer has made |
| NoiseDuplex.DoomedForEver | crates/identity/src/noise_ik.rs:433-448 | such a frame stays, and nothing behind it is ever delivered |
| NoiseDuplex.StepKills | crates/identity/src/noise_ik.rs:405-481 | a step makes a live link dead if and only if its end parts with its peer's keys: by a rekey with frames in flight towards it, by sealing onto an empty wire in another epoch, or by not rekeying on a frame just as its sender did |
| NoiseDuplex.DeadForEver | crates/identity/src/noise_ik.rs:405-481 | a link whose oldest frame does not open never comes back, whatever the clocks |
| NoiseDuplex.LivesWithoutFatalSteps | crates/identity/src/noise_ik.rs:405-481 | from any aligned live link, a run stays alive if and only if none of its steps parts the keys |
| NoiseDuplex.LinkLivesWithoutFatalSteps | crates/identity/src/noise_ik.rs:405-481 | the same from the handshake on, over every run, whatever the traffic, sizes and timers |
| PidFile.StepKeepsLocks | crates/core/src/pid_file.rs:88-224 | with no condition on the interleaving, an inode's lock has one holder, and a guard's record is its own or was truncated by a breaker |
| PidFile.LocksArePerFile | crates/core/src/pid_file.rs:88-224 | the same over every run |
| PidFile.AnchorIsLostOnlyTwoWays | crates/core/src/pid_file.rs:105-189 | a step makes some holder's file differ from the one the path names if and only if it locks a lost file or unlinks a held one |
| PidFile.AnchoredIsOne | crates/core/src/pid_file.rs:105-116 | while holders hold the file the path names, there is at most one |
| PidFile.AnchoredRunsExactly | crates/core/src/pid_file.rs:88-224 | in every run from the start, under every interleaving, all holders hold the file the path names in every state if and only if no step locks a lost file or unlinks a held one, and then there is at most one |
| PidFile.LostAnchorAdmitsTwo | crates/core/src/pid_file.rs:88-224 | once a holder's file is not the one the path names, one more process starting up is enough for two guards |
| PidFile.UndisturbedIsSingle | crates/core/src/pid_file.rs:88-224 | for any number of processes from the start on, if open-to-lock and close-to-unlink are each uninterrupted, at most one guard exists and the path names its file, through `break_and_retake` and crashes |
| PidFile.OpenToLockMustNotBeInterrupted | crates/core/src/pid_file.rs:96-106 | with only close-to-unlink uninterrupted, a run ends with two guards |
| PidFile.CloseToUnlinkMustNotBeInterrupted | crates/core/src/pid_file.rs:172-178 | with only open-to-lock uninterrupted, a run ends with two guards |
| PidDecisions.BreaksExactlyWhenStale | crates/core/src/pid_file.rs:117-155 | in every run, a process can break the lock if and only if its last step was a look that found no readable record or a dead process; after one that found a live process it has given up |
| PidDecisions.GuardsComeByTheirCalls | crates/core/src/pid_file.rs:88-221 | in every run a guard was reached by one try at the lock, or by a second after a look and a reopening, and by nothing else |
| PidDecisions.FirstStartGetsTheGuard | crates/core/src/pid_file.rs:96-116 | from the start, a process left to itself gets the guard of the file the path names, with its own record in it |
| PidDecisions.FailedStartLeavesNoLock | crates/core/src/pid_file.rs:104-111 | a process whose record cannot be written ends without the lock, the old record left or emptied |
| PidDecisions.CrashedHolderIsReplaced | crates/core/src/pid_file.rs:104-116 | after a holder has crashed the next process gets the guard of its file, and overwrites its record |
| PidDecisions.DroppedGuardIsGone | crates/core/src/pid_file.rs:172-189 | a dropped guard takes the file away |
| PidDecisions.LiveHolderIsLeftAlone | crates/core/src/pid_file.rs:117-137 | a process that meets a recorded, live holder gives up and leaves everything as it was |
| PidDecisions.SecondStartIsRefused | crates/core/src/pid_file.rs:88-137 | from the start, a second process meets the guard of a first one that lives, and changes nothing |
| PidDecisions.StaleFileIsEmptied | crates/core/src/pid_file.rs:138-200 | a process that finds no record, or a dead process, reopens the file and empties it |
| PidDecisions.SecondStartBreaksTheDead | crates/core/src/pid_file.rs:138-200 | from the start, a second process whose probe finds the first dead comes to break its lock |
| PidDecisions.HeldLockIsNotBroken | crates/core/src/pid_file.rs:200-213 | if the lock is still held then, the process gives up; the holder keeps its lock and has lost its record |
| CivilDate.TrueDateIsExact | crates/core/src/log_filter.rs:364-375 | for every day number the date is valid and the calendar, counted year by year and month by month, gives the day number back |
| CivilDate.EraSplits | crates/core/src/log_filter.rs:367-371 | the one-line formula finds the year of the era, and none of the unsigned differences underflows |
| CivilDate.SuccessiveDays | crates/core/src/log_filter.rs:358-377 | successive days have successive dates |
| CivilDate.DayNumberIsInjective | crates/core/src/log_filter.rs:358-377 | a day has one valid date |
| CivilDate.WhenYearFits | crates/core/src/log_filter.rs:370-375 | the year fits in 32 bits exactly between two given seconds |
| CivilDate.ExactWhenYearFits | crates/core/src/log_filter.rs:351-377 | over all of `i64` the result names the right date and time if and only if the second lies between those two |
| CivilDate.CivilRoundTrip | crates/core/src/log_filter.rs:358-377 | every civil date and time with a 32-bit year is found again from its seconds |
| Handles.HandlesAreDistinctExactly | crates/concerto-iroh-ffi/src/registry.rs:64-72 | in every interleaving the handles are distinct if and only if at most 2^64 were issued, and none is zero if and only if fewer were |
| Handles.HandlesAreNeverReused | crates/concerto-iroh-ffi/src/registry.rs:64-97 | up to the 2^64th open, a closed handle is never open again |
| Handles.ReuseExactly | crates/concerto-iroh-ffi/src/registry.rs:64-97 | a closed handle can be open again in a run that issues `n` handles if and only if `n` is more than 2^64 |
| Handles.SessionRegistry.Insert | crates/concerto-iroh-ffi/src/registry.rs:65-72 | the two steps of an open, the claim of a handle and the publication of its session, and the handle is the one claimed |
| Handles.SessionRegistry.Find | crates/concerto-iroh-ffi/src/registry.rs:76-79 | a session is found if and only if its handle is open, and it is that one |
| Handles.SessionRegistry.Remove | crates/concerto-iroh-ffi/src/registry.rs:92-97 | the step of a close; the session comes back if and only if the handle was open |
| Subscriptions.LiveSession.RpcStream | crates/concerto-iroh-ffi/src/lib.rs:327-336 | the id is size plus one plus seed; an entry already there is overwritten, which drops its sender |
| Subscriptions.LiveSession.CancelSubscription | crates/concerto-iroh-ffi/src/lib.rs:419-425 | the entry goes and its stream is told to stop; an unknown id changes nothing |
| Subscriptions.LiveSession.RemoveOwnEntry | crates/concerto-iroh-ffi/src/lib.rs:348-354 | a finished stream removes whatever entry has its id |
| Subscriptions.IdsIncreaseExactly | crates/concerto-iroh-ffi/src/lib.rs:326-425 | over every run of one session, with opens in others, its own ids strictly increase if and only if, from each of its opens to the next, no more entries are removed than seeds are drawn, its own included |
| Subscriptions.IdsIncrease | crates/concerto-iroh-ffi/src/lib.rs:326-425 | and then an id names one stream only, and a stream runs exactly until it ends or is cancelled |
| Subscriptions.OneRemovalIsSafe | crates/concerto-iroh-ffi/src/lib.rs:326-425 | one removal at most between two opens is enough |
| Subscriptions.RepeatedIdStopsBoth | crates/concerto-iroh-ffi/src/lib.rs:332-354 | a repeated id stops the running stream, and its clean-up stops the new one |
| Subscriptions.ThreeOpensTwoCancels | crates/concerto-iroh-ffi/src/lib.rs:330-333 | three opens and two cancels lead to a next id that is live |
| ProcessIds.SessionOfProcess | crates/concerto-iroh-ffi/src/lib.rs:326-355 | over every run of a process, what happens to a session while it is open is a run of that session, with the seeds drawn elsewhere |
| ProcessIds.IdsIncreaseExactly | crates/concerto-iroh-ffi/src/lib.rs:330-333 | over every run of a process with any sessions opened and closed, the ids it hands out strictly increase if and only if no open finds a smaller table than the open before it, on any session, found |
| ProcessIds.IdsDifferExactly | crates/concerto-iroh-ffi/src/lib.rs:330-333 | and no id is handed out twice if and only if no open finds a table smaller than an earlier one did by as many entries as opens lie between |
| ProcessIds.TwoSessionsShareAnId | crates/concerto-iroh-ffi/src/lib.rs:330-333 | two sessions, neither of which loses an entry, share a live id |
| FrameCodec.Reader.Read | crates/agent-host/src/bridge.rs:53-81 | the frame or the error at the head of a stream that ends or breaks, and exactly what is consumed |
| FrameCodec.Writer.Write | crates/agent-host/src/bridge.rs:86-100 | the length word and the body are appended, as far as the stream takes them; nothing if the frame cannot be written |
| FrameCodec.Be32RoundTrip | crates/agent-host/src/bridge.rs:66-95 | the length word is read back |
| FrameCodec.LengthWordIsBigEndian | crates/agent-host/src/bridge.rs:66-95 | the length word is the length's four digits to the base 256, the most significant first |
| FrameCodec.WrittenExactlyIfReadable | crates/agent-host/src/bridge.rs:53-100 | a frame is written, behind those digits, if and only if a reader takes it from such bytes; beyond 16 MiB both refuse it |
| FrameCodec.BodyIsTaken | crates/agent-host/src/bridge.rs:66-81 | a body of any bytes within the limit is taken whole, and the codec alone decides what it is |
| FrameCodec.ReadsThrough | crates/agent-host/src/bridge.rs:53-100 | frames are read back in order whatever follows them, and the reader goes on with that |
| FrameCodec.StreamRoundTrip | crates/agent-host/src/bridge.rs:53-100 | reading what was written gives exactly the frames that could be written, then the end |
| FrameCodec.CutStream | crates/agent-host/src/bridge.rs:57-77 | cut anywhere, the stream gives exactly the frames that lie wholly before the cut, then its end, never a decoding error |
| FrameCodec.BrokenWriteIsTheEnd | crates/agent-host/src/bridge.rs:95-98 | a write that breaks off inside a frame leaves the reader the frames before it, then the end |
| FrameCodec.OversizeIsRefused | crates/agent-host/src/bridge.rs:66-69 | a length over 16 MiB is refused before any of the body is taken |
| PorcelainStatus.ParsePorcelainV1 | crates/gix-wrap/src/status.rs:82-125 | the loop yields the entries of the NUL-separated pieces, or panics exactly where a record is sliced inside a character |
| PorcelainStatus.ParsingInvertsOutput | crates/gix-wrap/src/status.rs:82-125 | for every list of records with NUL-free paths, parsing does not panic and gives back exactly those records if and only if no copy came from a path of three bytes or more |
| PorcelainStatus.StateIsWhatIsSaid | crates/gix-wrap/src/status.rs:102-120 | the state depends on which letters stand in the columns and not where: rename before deletion before addition, anything else a modification |
| PorcelainStatus.CutRenameIsFromNowhere | crates/gix-wrap/src/status.rs:107-113 | output that ends with the path of a rename gives the rename, from an empty path |
| PorcelainStatus.CopyIsMisread | crates/gix-wrap/src/status.rs:102-120 | a copy record on which the parse invents a change |
| PorcelainStatus.CopyCanPanic | crates/gix-wrap/src/status.rs:99 | a copy record on which the parse panics |
| PorcelainStatus.TooManyStay | crates/gix-wrap/src/status.rs:84-123 | once the parser has yielded an entry too many, nothing that follows makes up for it |
| NameStatus.ParseNameStatus | crates/gix-wrap/src/diff.rs:125-164 | the loop yields the changes of the non-empty pieces |
| NameStatus.Chunks.ReadRecord | crates/gix-wrap/src/diff.rs:128-161 | one code takes the paths that go with its letter, and incomplete records yield nothing |
| NameStatus.ParsingInvertsOutput | crates/gix-wrap/src/diff.rs:125-164 | for every list of additions, deletions, edits, type changes, renames, copies and unknown records, parsing gives back each change and stays aligned |
| NameStatus.CutRecordIsDropped | crates/gix-wrap/src/diff.rs:133-161 | output cut off inside its last record gives the changes of the records before it |
| UnifiedDiff.DecimalRoundTrip | crates/gix-wrap/src/diff.rs:220-227 | every 32-bit number is parsed back from its decimal text |
| UnifiedDiff.HeaderRoundTrip | crates/gix-wrap/src/diff.rs:208-227 | every hunk header, with explicit or implicit counts and any trailer, is parsed back |
| UnifiedDiff.HeadersExactly | crates/gix-wrap/src/diff.rs:208-227 | a line is a header with two given ranges if and only if it is `@@ -`, the text of the one, ` +`, the text of the other, and a space before whatever follows |
| UnifiedDiff.PlainLinesAreNoHeaders | crates/gix-wrap/src/diff.rs:208-214 | no line that does not begin with `@@ -` is a header: none of a hunk, none of a preamble |
| UnifiedDiff.LinesOfText | crates/gix-wrap/src/diff.rs:175 | lines written with a newline each are read back without their carriage returns, whatever follows them |
| UnifiedDiff.LineIsReadWithReturn | crates/gix-wrap/src/diff.rs:175 | a carriage return before the newline is no part of the line |
| UnifiedDiff.LastLineNeedsNoNewline | crates/gix-wrap/src/diff.rs:188-190 | a last line without a newline is a line all the same |
| UnifiedDiff.ParseHunks | crates/gix-wrap/src/diff.rs:172-202 | the loop yields the hunks of the fold over lines |
| UnifiedDiff.BodyIsJoined | crates/gix-wrap/src/diff.rs:187-194 | a body is its lines joined by newlines after the leading empty lines |
| UnifiedDiff.BodyIsExact | crates/gix-wrap/src/diff.rs:187-194 | a body is its section's own lines joined if and only if no line ends in a carriage return and the first is not empty, or is the only one |
| UnifiedDiff.ParsingInvertsText | crates/gix-wrap/src/diff.rs:172-227 | for every preamble and every list of sections in which no line has the written form of a header, with line endings of either kind, each hunk has its section's ranges and the lines `str::lines` yields, and its body is the section's own lines if and only if that condition holds |
| Cones.UnderIsComponentwise | crates/gix-wrap/src/api.rs:534-541 | the byte test with its slash boundary holds if and only if the prefix's names are the first names of the path |
| Cones.SlashesDoNotMatter | crates/gix-wrap/src/api.rs:480-484 | slashes before and behind a cone do not matter, and slashes alone name nothing |
| Cones.ConeIndexStats | crates/gix-wrap/src/api.rs:470-529 | the count of the selected files and their sizes summed with saturation |
| Cones.CountedExactly | crates/gix-wrap/src/api.rs:480-523 | an entry is counted if and only if it is a file, executable or symbolic link, and no cone names a directory or its path lies in one that does, name by name |
| Cones.StatsExactly | crates/gix-wrap/src/api.rs:491-528 | the statistics are the number of those entries and their sizes added up, as far as 64 bits go |
| Cones.StatsAreMonotone | crates/gix-wrap/src/api.rs:480-523 | cones that cover others never count less; order and repetition do not matter |
| Cones.CoveredConeIsIgnored | crates/gix-wrap/src/api.rs:480-523 | a cone under one already given changes nothing |
| Cones.AddingConesIsMonotoneUnless | crates/gix-wrap/src/api.rs:480-488 | adding cones never takes a file away, on any index, if and only if it is not a directory added to cones that mean the whole tree |
| Cones.RootBesideDirectoryIsDropped | crates/gix-wrap/src/api.rs:480-488 | the root beside a directory counts only the directory |
| DeviceCerts.VerifyingUndoesSigning | crates/identity/src/cert.rs:47-89 | a signed certificate is verified back from its bytes on the wire |
| DeviceCerts.VerifiesExactly | crates/identity/src/cert.rs:60-89 | bytes are verified as a certificate if and only if they are signed and are its encoding |
| DeviceCerts.IssuedSays | crates/identity/src/issuer.rs:90-104 | the certificate inside issued bytes names the requester's key, the id that is its digest, the name, the core, the times and `admin` |
| DeviceCerts.IssuedIsAcceptedExactlyWhile | crates/identity/src/issuer.rs:90-146 | an issued certificate is accepted with the requester's id, name and `admin` exactly while it is unexpired with five minutes of grace and not revoked; otherwise the reason is the right one |
| DeviceCerts.AcceptedFor | crates/identity/src/issuer.rs:98-126 | where the clock does not saturate, acceptance ends exactly a year and five minutes after issue |
| DeviceCerts.LostAcceptanceNeverReturns | crates/identity/src/issuer.rs:107-146 | for any bytes, an acceptance lost to time or revocation never returns |
| DeviceCerts.RefusedForTheFirstReason | crates/identity/src/issuer.rs:107-146 | any bytes at all are accepted, or refused for the first of: too short, not signed, no certificate's encoding, another core, expired, revoked |
| DeviceCerts.AcceptedBytesAreCanonical | crates/identity/src/cert.rs:78-87 | one body of bytes per certificate is accepted |
| DeviceCerts.AcceptedWasIssued | crates/identity/src/issuer.rs:107-146 | for every core whose public key matches its signing key and any bytes presented that are not a forgery: if they are accepted they were issued to a paired device, are within their lifetime and not revoked; a foreign core key is never the reason for a refusal |
| DeviceCerts.AcceptedBindsTheKey | crates/identity/src/issuer.rs:107-146 | whatever is accepted and not forged certifies the key of a paired device, under the id that is its digest |
| DeviceCerts.IssuedIsNotForged | crates/identity/src/issuer.rs:90-146 | what such a core issued is no forgery, and is accepted exactly while it is unexpired and not revoked |

## Left out

- Rings.RingBuffer.Push: does not model the 64-bit wrap of `next_seq` and `total_bytes`; neither is reachable before 2^64 chunks or bytes.
- HostTheorems.CoreSkipsOnlyEvicted: speaks of recorded chunks; the recorder of PTY output is not joined (main.rs:396-400), so output still in its channel when the exit flag is set is not covered. The peers are honest: a Hello with the right cookie and an Ack name only numbers the Core has received.
- HostDelivery.SendChunkDelivers: a failed write puts no frame on the wire. A partly written frame is not on the host's wire here; a socket that has failed stays failed, so nothing follows it, and it reads as the end of the stream (`FrameCodec.BrokenWriteIsTheEnd`). Nor is the 16 MiB limit inside the host, which its 8 KiB reads never reach.
- HostProgress.ToldExactlyIfItCanHear: says what can still happen, not what will; a connection that has not claimed the slot yet depends on its peer and on the connection that holds it, and is not covered.
- HostEnding.LeavesExactly: the accept loop's look at the exit flag is one step; it can miss a notification as the writer can, and looks again when a connection arrives.
- Transcript.LastLinesExactly: plain text is ASCII without carriage returns; for other text `Transcript.LastLinesAreExact` gives one direction.
- Transcript.LastLinesAreExact: the decoding is any that keeps ASCII bytes and makes newlines of line feeds only, as the lossy UTF-8 decoding does.
- Supervisor.SupervisedActor.RunSupervised: the actor's own run, panics and errors are one outcome, and the clock of the crashes is non-decreasing, as `Instant` is.
- NoiseLink.OpenedIsSealed: frames are lost or reordered by no wire.
- NoiseDuplex.ReceiverIsNeverBehind: speaks of runs in which no timer decides; where one does a receiver can be behind (`NoiseLink.TimerSkewBreaksTheLink`), and the exact condition is that of `NoiseDuplex.NeverBehindExactly`.
- NoiseSession.NoiseSession.EncryptAt: a session that was closed by being dropped has no operations to model.
- PidFile.StepKeepsLocks: writing the record is one step and a partly written record reads as none; failures of `open` take no step, and other errors of the lock call are crashes of that attempt.
- CivilDate.ExactWhenYearFits: a debug build panics where `y + 1` overflows 32 bits.
- FrameCodec.Reader.Read: one failure of the stream stands for every kind of input error.
- Handles.HandlesAreNeverReused: beyond 2^64 opens the counter comes round, and `Handles.ReuseExactly` shows a closed handle open again.
- Subscriptions.IdsIncreaseExactly: the seed is unbounded here and in `ProcessIds`; its wrap after 2^64 opens is not modelled.
- UnifiedDiff.ParsingInvertsText: each line ends in a newline; a last line without one is the subject of `UnifiedDiff.LastLineNeedsNoNewline`.
- Cones.ConeIndexStats: the index is given, decoded; opening the repository and its errors are left out.
- DeviceCerts.IssuedIsAcceptedExactlyWhile: the poisoned lock of the revoked set, reported as revoked, is not modelled.
- The handshake of the Noise session, its key material and the transport hash: cryptography is a parameter or an epoch here.
- Forwarding of stdin and resize frames, the pipe supervisor's own set-up, the socket and final-info files: input and output only.
- The periodic Ack of the Core and the parser behind its read pump: an Ack of any consumed number at any time covers the first, and the second changes no state of the protocol.
- The Core's boot, gRPC services, TLS bridge, database, user interfaces, git subprocesses and index decoding: wiring over code that is not part of this model.
- Error slugs, redaction lists, clone-size tiers, `nat_stats`: settled by reading one branch.
