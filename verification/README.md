# Verification of portalocker

A Dafny model of portalocker's hardest logic, with proofs of what it promises. `dafny verify dfyconfig.toml`
checks all of it. Functions and lemmas carry the pure parts; what the Python code does by updating objects is
written as classes whose methods are proved against those functions.

## What is modelled

| files | subject |
|---|---|
| `FileProtocol`, `FileSafety`, `FileTheorems`, `FileEffects` | the lock-file protocol as a state machine: any number of `Lock`, `TemporaryFileLock` and `PidFileLock` objects in any number of processes open, flock, compare inode numbers, publish, unlink, unlock, close and crash in every interleaving, over a file system that reuses inode numbers; what each step does to that file system, and that a release gives the path back |
| `Kernel`, `LockFiles`, `PidFiles`, `RLocks`, `Semaphores` | the Python classes as Dafny classes running on that machine: before each of its own steps every other process may take any number of steps |
| `RetryPacing` | the retry generator on a clock |
| `CauseChains` | in-place splicing of `__cause__` links after a failed PID publication |
| `RedisElection`, `RedisProtocol`, `RedisExclusion`, `RedisProbe`, `RedisReaping`, `RedisReplies`, `RedisLocks` | the leaderless readers/writer lock: decisions, the channel as a state machine with observing and deciding apart (split) or together (linearised), probing, reaping, what a holder replies and that a probe reads it back, and the `RedisLock` class on a shared channel |
| `Combiner`, `CombinerLines`, `CombinerTheorems`, `CombinerOrder`, `CombinerIndents` | the module combiner: a depth-first inliner over any finite import graph, and what it does with each line told over the lines themselves |
| `WindowsLocks`, `WindowsTheorems`, `WindowsReports`, `WindowsRoundTrips` | the Windows lockers: reported positions, descriptor offsets, read buffers and byte-range locks over success, contention, failure and fallback |

### Assumptions

- File locks: flock belongs to the open handle and is exclusive; the POSIX branch; only these programs touch the
  paths; `os.stat` succeeds or reports a missing file; an inode number is reused only when no path and no open
  handle leads to it; two files in use never share a number (the code compares `st_ino` without `st_dev`).
- `WellConfigured`: a PID path is not itself a lock path, and a sidecar is the PID path plus `.lock`.
- `PidFileLock.acquire` on an object that holds its lock: dropping the last reference to the old sidecar lock
  finalizes it at once, as CPython's reference counting does.
- Redis: a conclusive probe is an exact snapshot of the subscribers and their modes at one instant; any probe may
  be inconclusive; a crash or kill removes subscription and ownership together; ids are distinct; the lock object
  whose call is being followed is not killed during the call.
- Windows: a range lock belongs to its handle; a request is granted only if it clashes with no other lock, and a
  clash is refused with EACCES or, when `msvcrt.locking` gave up waiting, EDEADLOCK, and by LockFileEx with
  ERROR_LOCK_VIOLATION; seeking
  back and flushing unwritten output succeed; each call's one locking request is its only effect on the lock table,
  so a call is one step. `msvcrt.locking` starts at the descriptor's offset. A file object's seek that lands in what
  it has read ahead moves the object and not the descriptor, as buffered readers of CPython do; a text file moves
  like the buffer under it. LockFileEx starts where its OVERLAPPED structure says, which is byte 0
  (portalocker/portalocker.py:313, 381). The source names its length argument "low bytes", which is followed; the
  proofs use only that the range is longer than the msvcrt one.
- Combiner: lines arrive classified by the source's regular expressions and string tests, and a cleaned line is
  blank exactly when its source line is, which leaves aside the useless self-assignments that cleaning empties.

### Where the code falls short of its promise

Each case is stated exactly: a lemma gives the condition, for all inputs, under which the promise holds, and
another one an input for which it does not.

- Two Redis writers can overlap when one is slow between observing that it may proceed and promoting itself. The
  source expects contenders' disagreeing probes not to corrupt the outcome (portalocker/redis.py:887-893).
  `ExclusionBreaksExactlyWhen` says which step breaks exclusion and `RunStaysAloneExactlyWhen` which runs
  keep it; `LateWriterOverlaps` is a run that does not, and by `OverlapComesTrue` two writers come to hold from
  every state that breaks it. With observation and decision in one step exclusion holds (`LinearExclusion`).
  Readers and writers never overlap in either model.
- An exclusive msvcrt lock of a file object does not start at byte 0 when a read buffer reaches from byte 0 beyond
  the position, since `seek(0)` then leaves the descriptor behind the buffer
  (`LockCoversStartExactlyWhen`, portalocker/portalocker.py:219-224, 552-560). Two handles can then hold one file
  exclusively, exactly if a buffer of 64 KiB or more is in play (`SafeExactlyWhen`, `BufferedHolders`). With any
  buffer, reading between lock and unlock can make the unlock name another range: it reports success through the
  fallback and the lock stays (`ReleasedExactlyWhen`, `LockOutlivesReading`).
- A Windows lock or unlock loses the file position exactly when the descriptor cannot be translated after the file
  was moved away from a position other than 0 (`LockKeepsPositionsExactlyWhen`, `UnlockKeepsPositionsExactlyWhen`,
  `PositionLost`): `_get_os_handle` runs between preparing and the `try` (portalocker/portalocker.py:373-374).
- After a shared Windows lock on top of the handle's own exclusive lock, unlocking drops the exclusive one
  (`RoundTripExactlyWhen`, `WrongLockDropped`). An EACCES that does not mean "not locked" lets an unlock report
  success while the exclusive lock stays (`ReleasedExactlyWhen`, `LockOutlivesUnlock`).
- Splicing `__cause__` links closes a ring exactly when the publication error and the cleanup error share a cause
  (`Splice`, `SpliceSharedCause`). Two earlier steps can close one as well: a failing close of the PID file that the
  publication error had caused (`RaiseFromClose`, `CloseCausedByPublication`), and a failing emergency close that the
  release error had caused (`RollbackErrors`, `ReleaseCausedClose`). After the latter, if the publication error has
  a cause, the tail walk never ends and `acquire` hangs (`TailWalkNeverEnds`); `FailPublication` covers every other
  case. When both release and emergency close fail, earlier causes of the release error are replaced
  (portalocker/utils.py:1226); `CleanupChain` says so.
- Inlined output is in dependency order exactly when no module has a line below an import that leads back to that
  module (`OrderedExactlyWhenStraight`, `MutualImportsAreUnordered`); every acyclic graph qualifies.
- A record that carries an id of the form reserved for legacy replies makes the probe's count too small
  (`DictCountsExactlyWhen`, `ReservedIdIsLost`). If it comes after the reply whose id it carries, an older holder that
  did answer is killed (`LegacyIsSparedExactlyWhen`, `AnsweredLegacyIsKilled`).

Code and documentation differ in three further places, and the model follows the code. The `PidFileLock` constructor's
timeout and check interval are documented as effective with `fail_when_locked=False` but `acquire` does not consult
them (portalocker/utils.py:1156-1158, 1270-1279). The parenthesised form of `from . import (` makes the combiner
look for a module with an empty name (portalocker/__main__.py:160-191); in the model such a line names the empty
module. The Windows helpers are documented as locking relative to the current position on both paths
(portalocker/portalocker.py:196-201); LockFileEx takes its start from the structure instead.

Two smaller remarks are proved beside the main results: an inconclusive probe by itself never grants the Redis lock
(`InconclusiveProbeIsHarmless`), and Windows range locks taken from the current position, as before 4.0.0, would
admit two exclusive holders (`WithoutMovingTwoHold`).

## Model

| member | source | states |
|---|---|---|
| FileSafety.StepKeepsInv | portalocker/utils.py:911-1110 | One inductive invariant survives every step of every lock object, crashes, failed unlinks and inode reuse included: whoever passed the comparison has its own locked inode at its path |
| FileSafety.OthersSpared | portalocker/utils.py:1072-1110 | No step of one lock object unlocks, closes, overwrites or unlinks what another one relies on |
| FileTheorems.MutualExclusion | portalocker/utils.py:1038-1070 | No split brain: in every reachable state at most one lock object is a verified holder of a path |
| FileTheorems.HolderOwnsPath | portalocker/utils.py:1047-1054 | In every reachable state a verified holder's path names exactly the inode its handle has locked |
| FileTheorems.ComparisonDecidesIdentity | portalocker/utils.py:911-925 | Although numbers are reused, comparing them decides whether path and handle are the same file |
| FileTheorems.ReentryKeepsTheLock | portalocker/utils.py:1023-1070 | A holder that acquires again compares equal and keeps its handle and lock |
| FileTheorems.OnlyHoldersUnlink | portalocker/utils.py:1072-1110 | Whenever a path disappears in any run, a holder unlinked its own still locked inode, or its own PID file; nobody's path is removed by anybody else |
| FileTheorems.OthersKeepPosition | portalocker/utils.py:1072-1110 | Any run of the others' steps leaves a lock object at its stage with its handle on the same file |
| FileTheorems.HoldSurvivesOthers | portalocker/utils.py:1081-1084 | Nothing others do ends a hold: the same inode stays at the path, locked |
| FileTheorems.PublishedPidIsTrue | portalocker/utils.py:1330-1347 | While a PID is published every reader gets the true holder |
| FileTheorems.PublicationSurvivesOthers | portalocker/utils.py:1177-1200 | That stays so through any steps of other acquirers, failed publishers, releasers and crashes, and the PID path keeps naming one file |
| FileTheorems.PlainExclusion | portalocker/utils.py:533-647 | Plain locks on a path nobody unlinks exclude each other in every reachable state |
| FileTheorems.LoneAcquireSucceeds | portalocker/utils.py:1038-1070 | Progress: from any state of the protocol, an undisturbed acquire of a path nobody has locked ends as verified holder |
| FileEffects.ReleaseFreesPath | portalocker/utils.py:1072-1110 | From any state of the protocol an undisturbed release of a plain, temporary or sidecar lock ends idle with its handle closed and no flock on what its path names; lock and PID paths of the unlinking kinds are gone |
| FileEffects.ReleaseHandsOver | portalocker/utils.py:706-742 | After that release any other idle lock object on the path can acquire it |
| FileEffects.UnlockEffect | portalocker/utils.py:728-736 | A successful unlock leaves the file of the handle without flock and changes nothing else; a failed one changes nothing |
| FileEffects.CloseEffect | portalocker/utils.py:728-736 | A successful close removes the handle and its flock and nothing else; after a failed one the handle is open but unused |
| FileEffects.UnlinkEffects | portalocker/utils.py:1081-1084 | A successful unlink removes exactly the lock object's own lock or PID path; a failed one changes nothing |
| FileEffects.GiveUpEffect | portalocker/utils.py:597-610 | An attempt that gives up closes its handle or leaves it unused |
| FileEffects.StoreEffect | portalocker/utils.py:771-789 | Preparing after the lock was taken empties the file of a temporary lock; no other file changes |
| FileEffects.FillEffects | portalocker/utils.py:1177-1200 | Publishing empties the PID file and then makes the decimal PID its whole content |
| FileEffects.CrashEffect | portalocker/utils.py:1081-1084 | A process may end at any time, and then none of its handles and flocks are left and every other flock stays |
| Decimal.ParseIntOfDigits | portalocker/utils.py:1340-1344 | Reading back a written PID gives that PID |
| Decimal.ParseIntOfPadded | portalocker/utils.py:1340-1344 | The same with any white space around the number |
| Kernels.Kernel.Take | portalocker/utils.py:1072-1110 | A lock object's own step: other processes take any steps, then the whole system changes by exactly that protocol step, and no other lock object of the process moves |
| Kernels.Kernel.Flock | portalocker/utils.py:755-769 | A non-blocking lock attempt is granted only when no handle holds the inode at that moment, and then holds it; AlreadyLocked means some handle holds it, and a denied attempt changes nothing |
| LockFiles.Lock.Acquire | portalocker/utils.py:533-647 | Success leaves a locked, prepared handle stored, failure leaves nothing held; a held lock returns its handle unchanged; attempts stay within the timeout's bound and, on an exact clock, so does the time; only refusals are retried, once only with `fail_when_locked`, and the answer to the last attempt decides the error; a refusal ends the loop only after the timeout or with `fail_when_locked`; nothing is unlinked |
| LockFiles.Lock.TryUntilLocked | portalocker/utils.py:612-636 | The retry loop locks the one handle it opened or leaves it unlocked: all answers but the last are refusals, a grant ends with the lock, a broken attempt with LockException at once, a refusal with AlreadyLocked after one attempt under `fail_when_locked` and otherwise with the last refusal after the timeout |
| LockFiles.Lock.Release | portalocker/utils.py:706-742 | Unlock and close are both tried whatever fails and the handle is cleared; once closed, the handle is gone and no file is flocked by it; without a handle nothing happens |
| LockFiles.AcquireVerified | portalocker/utils.py:1038-1070 | The nested loops end: at most the square of one loop's bound of attempts, and on an exact clock within one loop's time bound whose attempts are whole inner loops; success is a verified handle, failure holds nothing and comes from an inner acquire that failed or, as AlreadyLocked, after the timeout; stale handles are dropped without unlinking |
| LockFiles.TemporaryFileLock.Acquire | portalocker/utils.py:1023-1070 | Success means being the only holder of the inode the path names, among all processes; on an exact clock success or failure comes within a bound given by timeout, interval and the longest attempt |
| LockFiles.TemporaryFileLock.Release | portalocker/utils.py:1072-1110 | Unlink comes before unlock, both are tried, and a lock that holds nothing touches nothing |
| PidFiles.PidFileLock.Acquire | portalocker/utils.py:1234-1328 | Success owns the sidecar and the PID file then names this process; any failure leaves the sidecar unheld; AlreadyLocked and plain LockException of the sidecar both come out as AlreadyLocked, and nothing else does |
| PidFiles.PidFileLock.AcquireSidecar | portalocker/utils.py:1264-1298 | With `fail_when_locked` the sidecar is tried with zero timeout and interval, else with the given ones or 5 seconds and 0.25; a plain LockException is reported as AlreadyLocked and every other error unchanged |
| PidFiles.PidFileLock.Enter | portalocker/utils.py:1382-1420 | A held lock binds None, contention binds whatever PID the file gives, and every other error is raised |
| PidFiles.PidFileLock.WritePid | portalocker/utils.py:1177-1200 | Publication ends published, or with the PID file closed and the sidecar about to be unlocked |
| PidFiles.PidFileLock.RollBack | portalocker/utils.py:1202-1232 | After a failed publication, whether the release works or exits early and the emergency close runs, and whatever fails: unlock and close were both tried, the handle and the sidecar are given up, nothing was unlinked, and the object can be used again |
| PidFiles.PidFileLock.Release | portalocker/utils.py:1448-1492 | Both unlinks happen before the unlock, the second only if the first worked, and a lock that holds nothing touches nothing |
| PidFiles.PidFileLock.ReadHolder | portalocker/utils.py:1330-1347 | A one-step read returns the owner's PID whenever somebody is published on the same sidecar |
| PidFiles.PidFileLock.EnterClosed | portalocker/utils.py:1527-1551 | The block is entered exactly when the lock is held; AlreadyLocked carries the PID read from the file, other errors none |
| PidFiles.PidFileLock.Exit | portalocker/utils.py:1422-1446 | A held lock is released with its unlinks before the unlock; after a contended entry no file is touched |
| RLocks.ReplayBalances | portalocker/utils.py:853-908 | In every history a reentrant lock can have, the count is acquires minus releases and a handle is set exactly while it is positive |
| RLocks.RLock.Acquire | portalocker/utils.py:853-890 | A nested acquire always succeeds with the same handle and no system call; a failing first acquire leaves the count at zero |
| RLocks.RLock.Release | portalocker/utils.py:892-908 | A surplus release is rejected with no change; inner releases keep the handle and the lock; the last one unlocks and closes |
| RLocks.RLock.PositiveCountIsLocked | portalocker/utils.py:853-908 | While the count is positive the handle is open and its file locked by it |
| RLocks.Exercise | portalocker/utils.py:853-908 | For any script of acquires and releases, failing ones included, the count is the balance of the successful ones |
| Semaphores.SlotPathsDiffer | portalocker/utils.py:1694-1713 | The default naming gives different slot numbers different files |
| Semaphores.AtMostMaximumHolders | portalocker/utils.py:1578-1600 | Under every interleaving of sweeps, releases and crashes at most `maximum` locks hold slots, each a different one |
| Semaphores.BoundedSemaphore.TryLock | portalocker/utils.py:1771-1816 | A sweep takes the first candidate that locks, every earlier one having been tried and refused; it reports all taken only after each candidate was refused |
| Semaphores.BoundedSemaphore.TrySlot | portalocker/utils.py:1794-1814 | A candidate counts as taken exactly when its one attempt was refused as contended; any other failure is raised |
| Semaphores.BoundedSemaphore.Acquire | portalocker/utils.py:1715-1769 | Success holds one slot; giving up means the timeout has passed and at least one sweep found every slot from 0 to maximum - 1 refused, with AlreadyLocked exactly under `fail_when_locked`; or a candidate failed for another reason; acquiring twice is rejected with no change |
| Semaphores.BoundedSemaphore.HeldSlotCounts | portalocker/utils.py:1578-1600 | While a slot is held, all holders of the semaphore anywhere number at most `maximum`, this one included |
| RetryPacing.RetryGenerator.Next | portalocker/utils.py:292-340 | Attempts are numbered from 0, attempt 0 is untimed, later ones keep the schedule, and the iteration ends only after the timeout |
| RetryPacing.Spacing | portalocker/utils.py:328-340 | Attempt i comes no earlier than (i-1) times max(check_interval, 1 ms) and strictly before the timeout |
| RetryPacing.AttemptsBounded | portalocker/utils.py:328-340 | At most 1 + ceil(timeout / max(check_interval, 1 ms)) attempts, however long they take |
| RetryPacing.BoundIsReached | portalocker/utils.py:328-340 | That bound is the least: a schedule that keeps every gap and the timeout reaches it |
| RetryPacing.SpacedInSeconds | portalocker/utils.py:328-340 | In seconds: attempt k + 1 starts before the timeout and at least k intervals and k milliseconds after the start |
| RetryPacing.Exhaust | portalocker/utils.py:292-340 | With exact sleeps the loop ends by timeout + max(check_interval, longest attempt + 1 ms) |
| CauseChains.Splice | portalocker/utils.py:1313-1321 | The tail walk ends; disjoint chains become one finite chain, and chains that meet leave no finite chain |
| CauseChains.SpliceSharedCause | portalocker/utils.py:1313-1321 | The failing input: an error and a cleanup error with one common cause end up in a ring |
| CauseChains.RollbackErrors | portalocker/utils.py:1202-1232 | The cleanup error's chain holds the release error, then the errors of the emergency close that ran; a ring arises exactly when the release error was among what caused the close error |
| CauseChains.ReleaseCausedClose | portalocker/utils.py:1218-1226 | The failing input: a close error caused by the release error before it makes the cleanup error a ring |
| CauseChains.RaiseFromClose | portalocker/utils.py:1194-1199 | A failing close of the PID file becomes the cause of the publication error; a ring arises exactly when the publication error was among what caused it |
| CauseChains.CloseCausedByPublication | portalocker/utils.py:1194-1199 | The failing input: a close error caused by the publication error puts that one in a ring |
| CauseChains.FailPublication | portalocker/utils.py:1177-1322 | For any mix of write, close, release and emergency close failures the raised error leads to the cleanup errors, then to its own earlier causes, and ends, exactly when the rollback closes no ring and the cleanup errors share nothing with the publication error's chain |
| CauseChains.RollBackAndRaise | portalocker/utils.py:1300-1322 | The same equivalence for rollback and re-raise alone |
| CauseChains.TailWalkNeverEnds | portalocker/utils.py:1314-1320 | From a cleanup error in a ring the tail walk finds a further cause after any number of steps |
| CauseChains.ChainHasNoRepeats | portalocker/utils.py:1314-1320 | A chain the tail walk leaves is acyclic |
| CauseChains.RingHasNoChain | portalocker/utils.py:1314-1320 | Within a ring the walk along causes never ends |
| RedisElection.ElectedIsLeastPending | portalocker/redis.py:864-940 | Sorting and taking the first is being the least pending id while nobody is exclusive |
| RedisElection.SortedHeadIsLeast | portalocker/redis.py:933-940 | Sorting permutes the ids and puts a least one first |
| RedisElection.ElectionIgnoresOrder | portalocker/redis.py:873-885 | Contenders that saw the same records in any order agree |
| RedisElection.OneIsElected | portalocker/redis.py:873-895 | At most one id is elected, exactly one when somebody is pending and nobody exclusive |
| RedisElection.TakenExactlyWhen | portalocker/redis.py:942-1030 | Which probe results grant the lock, for readers and writers |
| RedisElection.KeepExactlyWhen | portalocker/redis.py:1011-1024 | Staying subscribed without holding happens exactly to a retrying writer that is next and sees nobody exclusive but a reader, and after an inconclusive probe to a client already elected |
| RedisElection.FailExactlyWhen | portalocker/redis.py:1003-1030 | Failing happens exactly under `fail_when_locked`, to writers on any conclusive probe, to readers that see a writer, and to clients not elected on an inconclusive one |
| RedisElection.BackOffExactlyWhen | portalocker/redis.py:1003-1030 | Unsubscribing to retry happens exactly without `fail_when_locked`, to a writer that is not next or sees an exclusive holder, to a reader that sees a writer, and to clients not elected on an inconclusive probe |
| RedisProtocol.StepKeepsInv | portalocker/redis.py:942-1156 | Every step of every client keeps advertised modes true and readers apart from writers |
| RedisProtocol.ReadersExcludeWriters | portalocker/redis.py:1124-1156 | In every run of the split model no reader and writer both hold or may proceed to hold, however long they delay |
| RedisProtocol.ReadersOnlyDrain | portalocker/redis.py:961-968 | While a writer stays subscribed, readers that hold or may proceed only become fewer |
| RedisProtocol.ElectedWriterStays | portalocker/redis.py:1020-1022 | An elected writer facing an inconclusive probe stays subscribed, pending and elected |
| RedisProtocol.ElectedWriterDrainsReaders | portalocker/redis.py:961-972 | Over any run in which its own probes are inconclusive and it does not leave, an elected writer stays subscribed and elected, and readers that hold or may proceed only become fewer |
| RedisProtocol.WriterTakesExactlyWhen | portalocker/redis.py:1003-1018 | A conclusive probe gives a waiting writer the lock exactly when only writers with larger ids wait beside it |
| RedisProtocol.SeeingReadersElects | portalocker/redis.py:961-966 | In a reachable state where a retrying writer is the least candidate, nobody is exclusive and a reader is subscribed, its conclusive probe and decision leave it subscribed, pending and elected |
| RedisProtocol.SeeingBetterRetires | portalocker/redis.py:1024-1030 | An exclusive holder or a smaller candidate on the channel makes them unsubscribe the writer instead |
| RedisExclusion.ExclusionBreaksExactlyWhen | portalocker/redis.py:887-895 | The exact steps at which two writers may both proceed in the split model: a smaller id's winning probe inside another's window |
| RedisExclusion.RunStaysAloneExactlyWhen | portalocker/redis.py:887-895 | A whole run keeps writers alone exactly when none of its steps is such a winning probe inside another writer's window |
| RedisExclusion.OverlapComesTrue | portalocker/redis.py:1124-1156 | From any reachable state in which writers are not alone, two of them hold exclusively once each has acted on what it saw |
| RedisExclusion.LateWriterOverlaps | portalocker/redis.py:1124-1156 | A run of the split model that ends with two exclusive writers |
| RedisExclusion.WriterIsElectedBehindReader | portalocker/redis.py:961-966 | A run from the start in which a reader takes the lock and a writer is elected behind it |
| RedisExclusion.ElectedWriterFollowsReader | portalocker/redis.py:1032-1050 | Once that reader leaves, the writer counts itself alone and holds exclusively |
| RedisExclusion.LinearIsSplit | portalocker/redis.py:942-1156 | Every linearised run is a run of the split model |
| RedisExclusion.LinearExclusion | portalocker/redis.py:942-1030 | In every linearised run there are only shared holders, or one exclusive holder and no other |
| RedisProbe.DictCountsExactlyWhen | portalocker/redis.py:600-604 | Each record id and each legacy reply is counted once, exactly when no record carries a reserved legacy id |
| RedisProbe.ReservedIdIsLost | portalocker/redis.py:600-604 | The failing input: a record named "legacy-0" and one unreadable reply count as one holder |
| RedisProbe.DictHolds | portalocker/redis.py:793-809 | One holder per record id with its last mode, and one exclusive legacy holder per unreadable reply |
| RedisProbe.CollectLockHolders | portalocker/redis.py:698-823 | A list is returned exactly for an unchanged subscriber count met by the number of distinct holders, and has one entry per holder; a shortfall hands the responders to the reaper |
| RedisProbe.KillUnavailableLocks | portalocker/redis.py:640-696 | The killed ids are those of the connections the naming rules call unavailable |
| RedisProbe.KillsExactlyTheSilent | portalocker/redis.py:651-672 | Among current-protocol holders a connection is killed exactly when its holder did not answer |
| RedisProbe.SurvivorsAreResponders | portalocker/redis.py:649-652 | After reaping, the subscribers left are the responders |
| RedisProbe.AnsweredProbeIsConclusive | portalocker/redis.py:649-652 | A following probe that all survivors answer is conclusive and lists exactly them |
| RedisReaping.ProbeReapProbe | portalocker/redis.py:640-823 | Probe, reap, probe again: the first probe is conclusive exactly when all answered; otherwise exactly the silent holders are killed, the prober survives, and a probe all survivors answer lists exactly them |
| RedisReplies.ParseOfReply | portalocker/redis.py:353-409 | Round trip: parsing the record a holder publishes gives back its id and its mode, not as legacy |
| RedisReplies.OnlyRepliesAreBelieved | portalocker/redis.py:578-638 | Whatever is not exactly such a record counts as an exclusive legacy holder with a numbered id |
| RedisReplies.RecordsAreTrue | portalocker/redis.py:793-809 | From truthful replies, repeated or not, the probe lists exactly the subscribers that answered, once each, with the modes they have |
| RedisReplies.ProbeUnchanged | portalocker/redis.py:698-823 | Polling an unchanging channel is conclusive exactly when every subscriber's reply was heard, and its list is then the snapshot that the channel's probe step shows |
| RedisReplies.LegacyIsSparedExactlyWhen | portalocker/redis.py:657-660 | A connection of an older release survives reaping exactly when some unreadable reply came and no later record took the id it was given |
| RedisReplies.AnsweredLegacyIsKilled | portalocker/redis.py:657-660 | The failing input: an unreadable reply, then a record named "legacy-0" |
| RedisLocks.RedisLock.Acquire | portalocker/redis.py:1032-1159 | Success means subscribed, holding, advertising the final mode and no client of the other role claiming; failure leaves no subscription; AlreadyLocked comes after exactly one attempt with `fail_when_locked` and otherwise after all of them, each having counted, probed and been turned down |
| RedisLocks.RedisLock.ResolveLockHolders | portalocker/redis.py:942-1030 | The method takes exactly the decision the channel model describes, in one step on the channel, and unsubscribes when it must |
| RedisLocks.RedisLock.Release | portalocker/redis.py:1256-1299 | Dropping the subscription forgets an election; an inactive lock changes nothing |
| Combiner.ModuleCombiner.ReadFile | portalocker/__main__.py:91-198 | The line loop with its five variables and shared set of seen modules ends on every finite package, cyclic or not, and computes the inlining |
| Combiner.ModuleCombiner.InlineModules | portalocker/__main__.py:183-194 | The modules of one import line are inlined in order, re-indented like the line |
| Combiner.Reindent | portalocker/__main__.py:250-263 | Line by line, non-blank lines gain the indent and blank ones stay |
| CombinerLines.InlinesExactlyWhen | portalocker/__main__.py:149-194 | A line inlines exactly these modules when it is a relative import outside parentheses, or a name line inside the parentheses an import left open, no `__future__` line and in no type-checking block: the module it imports from, else the names on it |
| CombinerLines.DropsExactlyWhen | portalocker/__main__.py:142-172 | A line vanishes exactly when it mentions `__future__` or closes the parentheses of an import |
| CombinerLines.EmitsExactlyWhen | portalocker/__main__.py:149-198 | Every other line is emitted, those of a type-checking block and its header among them: a block holds what follows its header with only blank, future and deeper-indented lines between |
| CombinerLines.CleansExactlyInlined | portalocker/__main__.py:176-198 | The qualifiers cleaned from a line are exactly the modules inlined above it in its own module |
| CombinerLines.BlocksAreOutsideParens | portalocker/__main__.py:153-164 | No line is both in a type-checking block and in the parentheses of an import |
| CombinerLines.GuardedImportIsEmitted | portalocker/__main__.py:109-111 | An import indented below an `if TYPE_CHECKING:` that opens a module is emitted as it stands |
| CombinerTheorems.ReadsExactlyReachable | portalocker/__main__.py:115-119 | The modules read are exactly those reachable through imports outside type-checking blocks |
| CombinerTheorems.SucceedsExactlyWhenComplete | portalocker/__main__.py:139-141 | Combining succeeds exactly when every reachable module exists |
| CombinerTheorems.EmitsEachReachableModuleOnce | portalocker/__main__.py:115-119 | Each reachable module's lines appear exactly once, in order and with the same names cleaned; no other module's lines appear |
| CombinerOrder.OrderedExactlyWhenStraight | portalocker/__main__.py:100-106 | Every line comes after all lines of everything its module imported above it, exactly when no module has a line below an import leading back to it |
| CombinerOrder.MutualImportsAreUnordered | portalocker/__main__.py:100-106 | The failing input: two modules that import each other, each with a line below its import |
| CombinerOrder.AcyclicIsOrdered | portalocker/__main__.py:100-106 | An acyclic import graph is combined in dependency order, also when a module was first reached by another route |
| CombinerOrder.ReadOrdered | portalocker/__main__.py:133-198 | Called in any intermediate state, the inliner extends the output in dependency order |
| CombinerIndents.ModulesAreShiftedWhole | portalocker/__main__.py:250-257 | A module keeps its relative indentation: all its non-blank lines are shifted alike, by the indents along one chain of imports |
| CombinerIndents.BlankLinesAreLeftAlone | portalocker/__main__.py:250-263 | Every output line is a line of the package, and blank ones are never indented, however deep their module was inlined |
| WindowsLocks.MsvcrtLocker.Lock | portalocker/portalocker.py:496-584 | Whatever the system answers, outcome, lock table and files are those of the locking function, which locks from the offset the descriptor has after preparing; only possible answers occur |
| WindowsLocks.MsvcrtLocker.Unlock | portalocker/portalocker.py:586-661 | The same for unlocking, which names the range from the descriptor's offset at that time, with the Win32 fallback after EACCES |
| WindowsLocks.Win32Locker.Lock | portalocker/portalocker.py:340-400 | The same for LockFileEx |
| WindowsLocks.Win32Locker.Unlock | portalocker/portalocker.py:402-443 | The same for UnlockFileEx, where an unlocked range is no error |
| WindowsLocks.Windows.Prepare | portalocker/portalocker.py:191-242 | The reported position is 0 unless there is none; the file object moves as its read buffer has it, and an unseekable file object raises and nothing moved |
| WindowsLocks.RestoreGivesBackPosition | portalocker/portalocker.py:244-266 | Restoring after preparing gives back every reported position and leaves the lock table alone |
| WindowsTheorems.LockCoversStartExactlyWhen | portalocker/portalocker.py:509-517 | Every successful lock takes its full length and clashed with no lock; it starts at byte 0 exactly when it is not msvcrt locking a file object whose read buffer reaches from byte 0 beyond the reported position; a failed one locks nothing |
| WindowsTheorems.PreparedAtStartExactlyWhen | portalocker/portalocker.py:219-224 | Preparing brings the descriptor to byte 0 exactly when no such read buffer keeps it where it is |
| WindowsTheorems.SafeExactlyWhen | portalocker/portalocker.py:509-517 | Over all runs of reads, writes, seeks, locks, unlocks, opens and closes, a file held exclusively is held by no other handle, exactly if read buffers stay below the 64 KiB that msvcrt locks |
| WindowsTheorems.SmallBuffersExclude | portalocker/portalocker.py:509-517 | Every run whose read buffers stay below 64 KiB keeps exclusion in every state |
| WindowsTheorems.BufferedHolders | portalocker/portalocker.py:509-517 | The failing input: one handle reads 64 KiB, seeks to 0 and locks, another one locks, and both hold exclusively |
| WindowsTheorems.MeetingLocksAreShared | portalocker/portalocker.py:549-580 | In every run, whatever is buffered, locks of different handles whose ranges meet are both shared |
| WindowsTheorems.OthersKeepHolds | portalocker/portalocker.py:586-608 | A lock ends only by its own handle's unlock or close |
| WindowsTheorems.LockKeepsPositionsExactlyWhen | portalocker/portalocker.py:340-400 | On every exit of a lock call all positions are as before, except exactly when translating the descriptor fails away from position 0 |
| WindowsTheorems.UnlockKeepsPositionsExactlyWhen | portalocker/portalocker.py:586-661 | The same for every exit of an unlock, fallback and its failures included |
| WindowsTheorems.PositionLost | portalocker/portalocker.py:429-430 | The failing input: an unlock that falls back and cannot translate the descriptor |
| WindowsReports.LockReports | portalocker/portalocker.py:340-584 | How a lock call ends, told by the answers met: msvcrt contention is exactly the error numbers 13, 16, 33 and 36, Win32 contention exactly the code 33, other refusals are LockException, and shared locks without pywin32 an import error |
| WindowsReports.ClashIsAlreadyLocked | portalocker/portalocker.py:566-582 | Where the system meets no fault of its own, a request that clashes with a held range ends as AlreadyLocked and takes nothing, through either locker, and any other takes its range |
| WindowsReports.SecondIsAlreadyLocked | portalocker/portalocker.py:509-517 | So a second handle's request for a file held from byte 0 is told AlreadyLocked when either lock is exclusive |
| WindowsReports.Win32UnlockReports | portalocker/portalocker.py:428-443 | An unlock succeeds exactly when it was granted or refused as not locked, the code 158 |
| WindowsReports.MsvcrtUnlockReports | portalocker/portalocker.py:611-661 | An msvcrt unlock falls back exactly on error number 13, and succeeds exactly when one of the two unlocks did |
| WindowsRoundTrips.RoundTripExactlyWhen | portalocker/portalocker.py:586-608 | An unlock right after a lock undoes it, table and positions, through either path, exactly unless a shared lock was put on the handle's own exclusive one |
| WindowsRoundTrips.WrongLockDropped | portalocker/portalocker.py:586-608 | The failing input: a shared lock over the own exclusive one, whose unlock leaves the shared lock |
| WindowsRoundTrips.SurplusUnlock | portalocker/portalocker.py:402-408 | Releasing what is not locked changes nothing, and is an error only without pywin32 |
| WindowsRoundTrips.ReleasedExactlyWhen | portalocker/portalocker.py:586-661 | A reported unlock has released an exclusive lock exactly when msvcrt granted it and the file now prepares to the offset the lock started at |
| WindowsRoundTrips.LockOutlivesUnlock | portalocker/portalocker.py:611-640 | The failing input: EACCES, then a fallback that finds its range unlocked, reports success and changes nothing |
| WindowsRoundTrips.LockOutlivesReading | portalocker/portalocker.py:586-661 | The failing input: lock at byte 0, read 10 bytes, unlock; success is reported and the lock stays |

## Left out

- The Windows branches of `TemporaryFileLock.release` and `PidFileLock.release`: retries around sharing violations.
- Shared flags on temporary-path locks, `lockf` ownership and network file systems: the safety claims rest on exclusive flock.
- `raise_on_release_error` and `__exit__` chaining in `Lock`: errors of unlock and close are suppressed or merely reported.
- `__del__`, weak references and `atexit` hooks: an optional release call like any other, save for the re-entered `PidFileLock.acquire` above.
- RLocks.RLock.Release: the model's lock never raises from unlock or close, which is the default of the constructor `RLock` offers.
- Semaphores.BoundedSemaphore.TryLock: called directly while the object already holds a slot is not modelled; `acquire` rejects that case.
- Semaphores.SlotPathsDiffer: only the default filename pattern, since a pattern without the number gives every slot one file.
- Decimal.ParseIntOfDigits: integer syntax is ASCII decimal with sign, underscores and surrounding white space; other Unicode digits are not modelled.
- PidFiles.PidFileLock.ReadHolder: reading is one step; that the path keeps naming one file is proved, what a reader sees in the middle of a write is not.
- RetryPacing.RetryGenerator.Next: time is real-valued; clock resolution and floating-point rounding are not modelled.
- CauseChains.FailPublication: two inputs are left to other members: a failing close of the PID file that the publication error had caused (`RaiseFromClose`), and the rollback whose tail walk never ends (`TailWalkNeverEnds`).
- CauseChains.Splice: Python's implicit `__context__` links are not modelled.
- RedisLocks.RedisLock.Acquire: the jittered sleeps of the Redis generator become an arbitrary number of attempts, at least one.
- RedisProtocol.ReadersExcludeWriters: clients of older releases are seen only as exclusive replies, their own algorithm is not modelled.
- RedisProbe.CollectLockHolders: publishing, the confirmation wait and JSON text; replies arrive as decoded payloads.
- `check_or_kill_lock`, connection set-up and channels whose names share another channel's prefix.
- Combiner.ModuleCombiner.ReadFile: lines produced before a missing module is found are not part of the failing result.
- `_clean_line` and the regular expressions: an output line records which names are cleaned from it, not its text.
- WindowsLocks.MsvcrtLocker.Lock: other processes do not act inside a call, and a blocking request that never returns has no outcome.
- `open_atomic`, the POSIX lockers, exceptions, constants, types, version discovery and the command line: no hard property there.
