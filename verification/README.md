# Sandbox control plane: a verified model

This project models, in Dafny, the stateful engines of a Go control plane that runs untrusted
scripts in Firecracker micro-VMs, and proves what they keep over every run, interleaving, failure
point or fragmentation. `dafny verify dfyconfig.toml` checks all of it.

| engine | files | central results |
|---|---|---|
| approval gate and terminal session | `HitlModel`, `HitlSafety`, `HitlDecisions`, `HitlIndex`, `HitlTraces`, `HitlGate`, `TerminalSession`, `Scripts`, `Sequences` | nothing sensitive runs without an operator's approve call on it, whatever the interleaving; requests and verdicts live exactly their lifetime; verdicts are monotone; the pending index is complete; the transcript replays the session if and only if no append of it fails |
| supervisor | `CidAllocator`, `SupervisorModel`, `SupervisorCids`, `SupervisorDisplacement`, `SupervisorVms`, `SupervisorAdmission`, `SupervisorRecovery`, `SupervisorReconcile`, `SupervisorRollback`, `SupervisorResources`, `SupervisorTraces`, `SupervisorSerial`, `Supervisor`, `Int64`, `Runs`, `Wrappers` | CIDs are conserved; live VMMs share one if and only if a crash orphaned one of them; admission limits hold up to the overlap; no VMM runs without its cgroup leaf; crash recovery and rollback are exact |
| stop and resume | `Snapshots` | every restore starts from the guest state of one instant |
| warm pool | `WarmPool` | no lost wakeup although signals are dropped; size bounds; exclusive hand-out |
| rate limiter | `TokenBucket` | the bucket decides exactly the window law, if and only if the clock does not step back; key expiry is unobservable |
| guest-to-host stream | `Utf8`, `Framing`, `GuestAgent`, `VsockClient`, `EndToEnd`, `DialRetry` | one composed delivery result from process writes to host frames over any fragmentation, with the exact conditions; the retry schedule |

Concurrent protocols are state machines: an action is one lock region, one channel operation, one
Redis round trip or one host operation, a run is any sequence of enabled actions, and the results
are about all runs. Code that updates state step by step is also modelled as classes (`Gate`,
`Session`, `Allocator`, `Recorder`, `Supervisor`, `Host`, `SnapshotPool`, `Store`, `StreamWriter`,
`Conn`) whose methods are proved against the functions that the state machines and the theorems
use. `SupervisorSerial`, `Snapshots.StopIsRun` and `WarmPool.AcquireIsRun` prove that an undisturbed
call is a run of the machine that ends in the state the class method promises.

## Assumptions

- Random ids (approval ids, snapshot names) are fresh.
- A sandbox id is a single path component other than `snapshots`, the directory of the snapshot
  engine (`cmd/controlplane/main.go:113`). `Snapshots.TerminateKeepsSnapshotIff` shows that the
  second half is needed.
- Host operations of a boot succeed or fail in any pattern, some with a partial effect; removals
  succeed, and a VMM has ended once `StopVMM` and the cancellation of its context have returned (the
  source does not wait for that before it frees the CID). A recorder write takes effect or does not. A started VMM gets a pid no live VMM has.
- The `Submit` batch and the write batch of `Decide` each take effect in one step; the read of
  `Decide` is a separate step. Expiry follows one clock.
- Go's `encoding/json` replaces each ill-formed UTF-8 byte by U+FFFD and otherwise round-trips; a
  byte of text takes from one to six bytes, the rest of a frame at most 128.
- `os/exec` stops copying output after a failed write, and `Wait` reports that error only if the
  process itself succeeded. An event counts as sent when it is handed to the socket.
- Token arithmetic is on `real`; durations, counters and memory sizes that the source keeps in 64
  or 32 bits are wrapped explicitly where that shows.
- Context identifiers below 3 are reserved by section 5.10.4 of VIRTIO 1.1, which is why the default range
  starts at 3.

## Where the code and its own words differ

- `Decide` is documented as atomic, first writer wins (`internal/hitl/gate.go:141-143`). Its read
  and its write are separate Redis calls, so two overlapping calls both succeed and the second
  verdict replaces the first, in the audit entry too: `OverlappingDecidesOverwrite`. This is
  possible exactly when two calls on one id overlap (`TwoDecisionsIffOverlap`), with contradicting
  verdicts exactly when their decisions differ (`ContradictionIffOpposed`); a run from the initial
  state gets there, and executes a script that remains recorded as rejected: `RejectedYetExecuted`.
- A launch is to roll back all partial state on any failure (`internal/orchestrator/orchestrator.go:244-246`).
  A failure in the middle of preparing the state directory or the cgroup leaf leaves it behind:
  `CleanRollbackIff`, with the instances `LaunchLeavesDirectory` and `LaunchLeavesLeaf`.
- CIDs are per live VM, but a fresh process restarts the allocator with none in use while a VMM that
  no record names lives on: `CrashSharesCid`, and `SharingIffOrphan` for exactly when.
- Launch and LoadSnapshot refuse a duplicate id, but check and insertion are separate critical
  sections (`internal/orchestrator/orchestrator.go:257-266` and `345-347`): two overlapping boots of
  one id both succeed, the first instance drops out of the map, and its CID stays in use until the
  process ends: `DisplacesIffOverlap`, `DisplacementReachable`, `DisplacedLasts`.
- A transcript line whose append fails is lost: `TranscriptFaithfulIff`.
- RetryCap is documented as the maximum wait; a RetryBase above it is used as the first wait:
  `WaitsCappedIff`.
- The refill loop says it backs off and retries (`internal/orchestrator/pool.go:176`); the failed
  slot is skipped: `FailedSlotsNotRetried`, and `QuiescentExact` for the depth that results.
- The memory budget test adds in int64; `BudgetTestExact` says when it decides the real question and
  `BudgetBroken` gives a run past the budget.
- Chunking splits multi-byte characters, which JSON then replaces: `StreamDelivered` gives the
  exact condition and `SplitCharacterIsLost` an instance. A chunk whose frame is over the size cap
  ends the output: `WholeReplyIffFits`, with the instance `OversizeChunkLosesAll`.
- The bounds of the CID range are not checked against each other: `FirstAllocInRangeIff`.
- The backoff doubles in int64 before it is capped: `ScheduleExact`.
- The comment on `LoadSnapshot` promises an overlay over the golden image
  (`internal/orchestrator/snapshot.go:249`); the code copies the retained disk, as modelled.

## Model

| member | source | states |
|---|---|---|
| `HitlSafety.NothingRunsUnapproved` | internal/gateway/proxy.go:214-268 | in every interleaving of sessions, operators (read and write of Decide apart), listings and expiry, each executed script is benign or preceded by an approve decision on a record with exactly that script and sandbox, and no approval id justifies two executions |
| `HitlTraces.ExecutedWasApproved` | internal/gateway/proxy.go:214-268 | in every interleaving, a script executed under an approval id is preceded by a Decide call that read the request with exactly this script and sandbox, carried approve, and had its write applied |
| `HitlTraces.RejectedNeverRuns` | internal/hitl/gate.go:162-168 | a request whose Decide calls all carry reject is never executed |
| `HitlTraces.RequestLifetime` | internal/hitl/gate.go:116-139 | in every interleaving, from its Submit at t0 on and until a decision on it is applied, a request is readable, pending and as submitted exactly before t0 + TTL |
| `HitlTraces.DecisionLifetime` | internal/hitl/gate.go:159-179 | after a decision applied at t1, and until another on the id is, the record carries the operator's decision, name and instant and is readable exactly before t1 + TTL, its audit entry exactly before t1 + one year |
| `HitlTraces.PollBeforeDecision` | internal/hitl/gate.go:226-246 | until a decision is applied, a waiting session goes on waiting exactly before the end of the lifetime and takes the request as rejected from then on |
| `HitlTraces.PollAfterDecision` | internal/hitl/gate.go:226-246 | after it, a poll lets the script run exactly if the decision was approve and the verdict has not expired; otherwise it is a rejection |
| `HitlSafety.StepKeepsInv` | internal/hitl/gate.go:116-246 | every protocol step keeps the inductive invariant: stored and in-flight records match their submission, approvals are backed by the log, sessions claim distinct approvals that nothing has spent |
| `HitlDecisions.DecisionsMonotone` | internal/hitl/gate.go:144-183 | between any two instants of any run no request is rewritten and none that is decided or expired becomes pending again |
| `HitlDecisions.FirstDecisionFinal` | internal/hitl/gate.go:144-183 | if Decide calls on one id do not overlap, at most one decision per id is ever logged, and record and audit entry equal it while they live |
| `HitlDecisions.OverlappingDecidesOverwrite` | internal/hitl/gate.go:145-179 | two Decide calls past their read both succeed and the second verdict replaces the first in record and audit |
| `HitlDecisions.TwoDecisionsIffOverlap` | internal/hitl/gate.go:144-183 | two pending writes can leave two decisions on one id if and only if two Decide calls on one id overlap |
| `HitlDecisions.ContradictionIffOpposed` | internal/hitl/gate.go:144-183 | contradicting verdicts can be written if and only if two overlapping calls on one id carry different decisions |
| `HitlDecisions.OverlapReachable` | internal/hitl/gate.go:116-151 | for every sensitive script a run from the initial state reaches an approving and a rejecting call on one id, both past their read |
| `HitlDecisions.RejectedYetExecuted` | internal/gateway/proxy.go:225-268 | from there a run executes the script although the record and the audit entry that remain are rejections |
| `HitlDecisions.DecidedRecordsAreAudited` | internal/hitl/gate.go:173-179 | with a TTL of at most a year every readable decided record has its audit entry, which outlives it |
| `HitlIndex.IndexAgrees` | internal/hitl/gate.go:131-137 | in every reachable state each live pending record is in the pending set, whose expiry is no earlier, and no listing is about to remove a live pending id |
| `HitlIndex.PendingComplete` | internal/hitl/gate.go:201-221 | a request pending throughout a Pending call is returned by it, whatever runs in between |
| `HitlIndex.PendingSound` | internal/hitl/gate.go:201-221 | every record a Pending call returns was stored, pending and equal, at some instant of the call |
| `HitlGate.Gate.constructor` | internal/hitl/gate.go:86-91 | an empty store; a zero TTL means one hour |
| `HitlGate.Gate.Submit` | internal/hitl/gate.go:116-139 | a pending record with the given fields, readable for exactly the TTL, and its id in the pending set with the same lifetime; every other key as before |
| `HitlGate.Gate.Decide` | internal/hitl/gate.go:144-183 | without interference: exactly the pending requests can be decided, each outcome is characterised both ways, failures change nothing; approve stores Approved and reject stores Rejected with name and instant, for the TTL in the record and for a year in the audit entry, and every other id is unchanged |
| `HitlGate.Gate.Pending` | internal/hitl/gate.go:201-221 | returns exactly the indexed live pending records that can be read and removes exactly the index entries whose record is gone; unreadable ones are skipped |
| `HitlGate.Gate.WaitForDecision` | internal/hitl/gate.go:226-246 | returns the verdict of the first decisive poll, never pending; a vanished record is a rejection; cancelled exactly when no poll is decisive |
| `TerminalSession.ServeClient` | internal/gateway/proxy.go:79-281 | a session up to the message during which the client leaves: exactly the non-empty commands run that the limiter does not deny and that are benign or approved, once each and in order, whichever socket writes and transcript appends fail; the client gets the delivered ones of the specified events, the transcript the kept ones of the specified lines, in order |
| `TerminalSession.RunsAreDue` | internal/gateway/proxy.go:189-268 | in every session the scripts run are, in order, those of the non-empty commands that the limiter does not deny and that are benign or approved |
| `TerminalSession.RefusedMessage` | internal/gateway/proxy.go:189-211 | a malformed, empty or denied message shows exactly one error, keeps no line and runs nothing; without a limiter or with a failing one the command is taken |
| `TerminalSession.SensitiveMessage` | internal/gateway/proxy.go:214-244 | what each outcome of an approval shows, keeps and runs: submit failure, rejection, interruption, departure of the client, approval |
| `TerminalSession.BenignMessage` | internal/gateway/proxy.go:211-280 | a benign command is recorded and runs at once |
| `TerminalSession.ReplyOutcome` | internal/gateway/proxy.go:253-276 | a reply with an exit code is shown piece by piece and then its code, and kept as one output line (none if empty) and the code |
| `TerminalSession.FailedReplyOutcome` | internal/gateway/proxy.go:270-280 | a reply that ends in an error shows its output and an error, and keeps the output and no exit code |
| `TerminalSession.BestEffort` | internal/gateway/proxy.go:79-91 | of the events (lines) handed over, the client gets (the transcript keeps), in order, exactly those whose write (append) succeeds |
| `TerminalSession.Session.Serve` | internal/gateway/proxy.go:181-281 | the session loop: events sent, lines offered and scripts run are those of the specification, up to the message during which the client leaves; the scripts run are exactly those due by the fields of the messages |
| `TerminalSession.Session.Handle` | internal/gateway/proxy.go:189-280 | one turn: a malformed, empty or denied message only shows an error; otherwise exactly the script due runs, and events and lines are those of the specification |
| `TerminalSession.Session.Execute` | internal/gateway/proxy.go:244-280 | frames are sent as they come and offered to the transcript as one output line and the exit code |
| `TerminalSession.Session.Approve` | internal/gateway/proxy.go:214-241 | events and lines of each approval outcome; only an approval clears the command |
| `TerminalSession.TranscriptFaithfulIff` | internal/gateway/proxy.go:79-91 | in every session and whichever appends fail, the transcript replays exactly the output (the exit codes, the commands that passed) if and only if no output line (exit line, input line) is lost |
| `TerminalSession.OfferedFaithful` | internal/gateway/proxy.go:253-276 | the lines offered hold exactly the output and exit codes sent, and the commands that passed validation and rate limit |
| `TerminalSession.ApprovalsMatchRuns` | internal/gateway/proxy.go:214-268 | in every session the approval events sent and the sensitive scripts run match one to one |
| `TerminalSession.ExecShowsOneEnd` | internal/gateway/vsockclient.go:132-151 | on any bytes, the client's frame loop hands over at most one terminal frame, as the last one |
| `CidAllocator.AllocFirstFree` | internal/orchestrator/orchestrator.go:803-820 | the result is the first free id in cyclic order from the cursor and the cursor moves just past it; failure happens exactly when all ids are used and leaves the cursor in place; no overflow |
| `CidAllocator.ReuseOnlyAfterFullCycle` | internal/orchestrator/orchestrator.go:803-826 | over any sequence of allocations and frees, between two allocations of an id every other id of the range has been probed |
| `CidAllocator.FirstAllocInRangeIff` | internal/orchestrator/orchestrator.go:799-820 | a fresh allocator hands out an id of its range if and only if the bounds are ordered and their distance fits in 32 bits |
| `CidAllocator.InvertedRangeEscapes` | internal/orchestrator/orchestrator.go:211-216 | with inverted bounds ids outside the range are handed out |
| `CidAllocator.Allocator.Alloc` | internal/orchestrator/orchestrator.go:803-820 | the cursor loop computes the specified scan and marks exactly its result |
| `SupervisorCids.CidsConserved` | internal/orchestrator/orchestrator.go:268-347 | in every run of every configuration, crashes and unordered CID bounds included, the used CIDs are the disjoint union of those held by calls in flight, tracked, being torn down, and displaced instances |
| `SupervisorCids.StepConserves` | internal/orchestrator/orchestrator.go:378-400 | every action, teardown included, keeps that ownership |
| `SupervisorCids.InitConserved` | internal/orchestrator/orchestrator.go:232-237 | a fresh supervisor satisfies it |
| `SupervisorCids.HoldersDistinct` | internal/orchestrator/orchestrator.go:268-347 | no two holders (calls, tracked, displaced instances) share a CID, and a held CID is marked used |
| `SupervisorCids.FreedOncePerAllocation` | internal/orchestrator/orchestrator.go:822-826 | along every crash-free run allocations minus frees of a CID are 1 while it is used and 0 otherwise |
| `SupervisorCids.NothingDisplaced` | internal/orchestrator/orchestrator.go:345-347 | if calls on one id never overlap no instance is displaced, so no CID is leaked |
| `SupervisorDisplacement.DisplacesIffOverlap` | internal/orchestrator/orchestrator.go:257-347 | with nothing displaced yet, the boots that hold a CID, left to finish, can displace an instance if and only if one of them overlaps another boot of the same id, under way or already inserted |
| `SupervisorDisplacement.DisplacementReachable` | internal/orchestrator/orchestrator.go:257-347 | for every id, and every configuration with two CIDs to give, a run from the initial state without a crash displaces an instance |
| `SupervisorDisplacement.DisplacedLasts` | internal/orchestrator/orchestrator.go:345-400 | in every run without a crash a displaced instance stays displaced and its CID in use |
| `SupervisorVms.LiveCidsDistinct` | internal/orchestrator/orchestrator.go:268-347 | in every run without a crash, of every configuration and with overlaps, no two live VMMs share a CID |
| `SupervisorVms.SharingNeedsOrphan` | internal/orchestrator/orchestrator.go:799-801 | in every run, if two live VMMs share a CID then one of them has outlived a crash at which no record named it |
| `SupervisorVms.SharingIffOrphan` | internal/orchestrator/orchestrator.go:445-472 | whenever reconciliation completes, whatever the CID bounds, sharing can follow without a further crash if and only if some VMM has outlived a crash at which no record named it |
| `SupervisorVms.CrashSharesCid` | internal/orchestrator/orchestrator.go:232-237 | for every configuration with a CID to give, a run from the initial state (launch, crash before Save, complete reconciliation, launch) makes two live VMMs share a CID |
| `SupervisorVms.StepKeepsVms` | internal/orchestrator/orchestrator.go:316-400 | every action keeps a holder for each live VMM (or its record, or its due kill after a crash), orphans apart, and their CIDs distinct |
| `SupervisorAdmission.CountBound` | internal/orchestrator/orchestrator.go:256-266 | with at most k overlapping boots, of any size, tracked plus in-flight sandboxes never exceed MaxConcurrent + k - 1 |
| `SupervisorAdmission.MemoryBound` | internal/orchestrator/orchestrator.go:256-266 | if besides each asks for at most M MiB and budget + k M is an int64, their memory never exceeds the budget + (k - 1) M |
| `SupervisorAdmission.InitWithin` | internal/orchestrator/orchestrator.go:232-237 | a fresh supervisor is within the limits |
| `SupervisorAdmission.BudgetTestExact` | internal/orchestrator/orchestrator.go:364-373 | the int64 budget test agrees with the real comparison if and only if the true total fits in an int64 |
| `SupervisorAdmission.OverflowAdmits` | internal/orchestrator/orchestrator.go:364-373 | with nothing in flight, every request that takes the total past int64 is admitted and exceeds the budget |
| `SupervisorAdmission.BudgetBroken` | internal/orchestrator/orchestrator.go:364-373 | for every budget, and CID bounds that leave a CID, a run of one launch after the other breaks it |
| `SupervisorAdmission.OvershootAttained` | internal/orchestrator/orchestrator.go:257-266 | for every k the bounds are attained: where one launch is admitted and none is in flight, any number of overlapping launches are, so MaxConcurrent + k - 1 sandboxes and the budget + (k - 1) M are reached |
| `SupervisorRecovery.RecoveryReclaimsSaved` | internal/orchestrator/orchestrator.go:445-500 | whenever reconciliation completes, after any crashes at any step and without overlap on one id, every id that still owns a directory, leaf or chroot owned it without a completed Save at the latest crash |
| `SupervisorRecovery.SurvivorsWereUnsaved` | internal/orchestrator/orchestrator.go:445-500 | and every VMM still live then has outlived a crash at which its id had no completed Save and no record named it |
| `SupervisorRecovery.StepKeepsInv` | internal/orchestrator/orchestrator.go:345-410 | every action keeps the per-id invariant that the record of a saved id names all its resources until they are gone |
| `SupervisorRecovery.IdleIdsAreClean` | internal/orchestrator/orchestrator.go:378-413 | while serving, an idle id owns no VMM but orphans, no chroot unless exposed at the latest crash, and no directory, leaf or chroot at all if it is saved |
| `SupervisorReconcile.ReconcileResult` | internal/orchestrator/orchestrator.go:445-500 | in any listing order and whichever record deletions take effect, reconciliation leaves exactly the resources that no record names |
| `SupervisorReconcile.ReconcileRestartable` | internal/orchestrator/orchestrator.go:445-500 | cut at any operation and run again, in any order, it reaches the same host |
| `SupervisorRollback.RollbackExact` | internal/orchestrator/orchestrator.go:273-328 | a boot failing at any operation, with or without partial effect, leaves VMMs and other ids alone; directory, leaf and chroot of its own id remain exactly in the stated cases |
| `SupervisorRollback.CleanRollbackIff` | internal/orchestrator/orchestrator.go:244-284 | on a host with nothing of the id, a failing boot leaves the host as it was if and only if it does not fail in the middle of preparing directory or leaf |
| `SupervisorRollback.LaunchLeavesDirectory` | internal/orchestrator/orchestrator.go:273-277 | a launch whose image cannot be prepared leaves its state directory |
| `SupervisorRollback.LaunchLeavesLeaf` | internal/orchestrator/orchestrator.go:279-286 | a launch whose cgroup caps cannot be written leaves the leaf |
| `SupervisorRollback.BootedHost` | internal/orchestrator/orchestrator.go:273-328 | all operations of a boot together add exactly its directory, leaf, VMM and, in jailer mode, chroot |
| `SupervisorResources.TrackedIsEquipped` | internal/orchestrator/orchestrator.go:273-347 | in every run without overlap on one id, each instance tracked by a serving supervisor has its directory, cgroup leaf and, in jailer mode, chroot |
| `SupervisorResources.NoVmmUncapped` | internal/orchestrator/orchestrator.go:279-300 | in every such run each live VMM, orphans of a crash apart, has its cgroup leaf (and directory and chroot) from its start to its end |
| `SupervisorTraces.TrackedIsCapped` | internal/orchestrator/orchestrator.go:279-347 | in every run, overlaps and crashes included, the leaf of a tracked VMM was made before it was started, and it was moved into the leaf by its pid before it was tracked |
| `SupervisorTraces.InsertedWasBuilt` | internal/orchestrator/snapshot.go:280-400 | in every run a boot is inserted only after all its operations, in source order, were performed for its id, CID and pid |
| `SupervisorTraces.TrackedWasInserted` | internal/orchestrator/orchestrator.go:330-347 | every tracked instance was inserted by a boot with its id, CID, memory and pid |
| `SupervisorRollback.TeardownComplete` | internal/orchestrator/orchestrator.go:388-410 | the teardown removes every resource of the instance and touches nothing else |
| `SupervisorSerial.BootIsRun` | internal/orchestrator/orchestrator.go:247-357 | an undisturbed boot is a run of the interleaved machine: the first free CID is in use, the instance tracked, the record saved, and directories, leaves and VMMs (chroots in jailer mode) have gained exactly its own |
| `SupervisorSerial.FailedBootIsRun` | internal/orchestrator/snapshot.go:274-400 | an undisturbed boot failing at any operation is a run that restores CIDs, instances, records and calls and rolls the host back |
| `SupervisorSerial.TerminateIsRun` | internal/orchestrator/orchestrator.go:378-413 | an undisturbed termination is a run that removes the entry, frees its CID and leaves the host torn down |
| `Supervisor.Recorder.Save` | internal/state/redis.go:75-87 | record and active id are added |
| `Supervisor.Recorder.Remove` | internal/state/redis.go:90-99 | record and active id are removed |
| `Supervisor.Recorder.All` | internal/state/redis.go:103-125 | lists every record exactly once and prunes exactly the active ids without one; fails exactly if the set cannot be listed or an entry cannot be read or parsed |
| `Supervisor.Supervisor.constructor` | internal/orchestrator/orchestrator.go:183-245 | a fresh process tracks nothing and has no CID in use |
| `Supervisor.UsedMemory` | internal/orchestrator/orchestrator.go:364-368 | the accumulation loop gives the sum wrapped to int64, in any iteration order |
| `Supervisor.Supervisor.AdmitLocked` | internal/orchestrator/orchestrator.go:360-375 | decides exactly the specified admission test, with int64 wrap-around |
| `Supervisor.Supervisor.Boot` | internal/orchestrator/orchestrator.go:247-357 | Launch and LoadSnapshot: duplicate and denial characterised both ways, in terms of the memory asked for; without success instances, records and used CIDs are unchanged and the host is rolled back from the first failing operation; with success the first free CID, the map entry, the record, and exactly its own directory, leaf, VMM and (jailer mode) chroot |
| `Supervisor.Supervisor.FailAt` | internal/orchestrator/snapshot.go:302-400 | the failing exit frees exactly its own CID, leaves records alone and the host rolled back |
| `Supervisor.Supervisor.Terminate` | internal/orchestrator/orchestrator.go:378-413 | an unknown id changes nothing; otherwise exactly this sandbox's entry, CID, record and resources go |
| `Supervisor.Supervisor.ReapDead` | internal/orchestrator/orchestrator.go:476-486 | terminates exactly the tracked sandboxes whose VMM is gone and leaves all others, and all VMMs, alone |
| `Supervisor.Supervisor.Reclaim` | internal/orchestrator/orchestrator.go:463-500 | removes exactly what the record names (VMM by pid, leaf, named chroot, state directory), then the record |
| `Supervisor.Supervisor.Reconcile` | internal/orchestrator/orchestrator.go:445-472 | a fresh process leaves on the host exactly what no record named, and no records if deletions take effect; if listing fails, exactly then, nothing is touched |
| `Snapshots.OneInstant` | internal/orchestrator/snapshot.go:123-155 | in every run, a completed capture holds the guest's memory and disk of that instant, which are those of the pause |
| `Snapshots.ResumeExact` | internal/orchestrator/snapshot.go:302-323 | in every run, whatever any sandbox writes later and even if the snapshot is deleted meanwhile, a restore that starts begins from exactly the captured pair |
| `Snapshots.StaysRestorable` | internal/orchestrator/snapshot.go:302-323 | the disk of a completed snapshot can be copied for a restore under any idle id exactly until the snapshot is deleted |
| `Snapshots.RestoreCanStart` | internal/orchestrator/snapshot.go:320-400 | a restore whose disk copy is in place can start exactly until its snapshot is deleted |
| `Snapshots.StepKeepsInv` | internal/orchestrator/snapshot.go:113-179 | every action keeps captures frozen, snapshots immutable and restore disks exact |
| `Snapshots.TerminateKeepsSnapshotIff` | cmd/controlplane/main.go:113 | removing a sandbox's directory keeps a snapshot if and only if the sandbox is not called `snapshots` |
| `Snapshots.StopIsRun` | internal/orchestrator/snapshot.go:162-179 | an undisturbed stop is a run of the machine and stores the current state |
| `Snapshots.Host.CreatePausedWithDisk` | internal/orchestrator/snapshot.go:123-155 | success stores the guest's pair, touches no other file and leaves the guest paused; failure leaves no snapshot file (nothing changes if the directory cannot be made), and pauses the guest unless it came before or in the pause |
| `Snapshots.Host.StopWithSnapshot` | internal/orchestrator/snapshot.go:162-179 | an unknown id changes nothing; a failed capture keeps sandbox, memory and disk; success stores the pair and removes the sandbox |
| `Snapshots.Host.LoadSnapshot` | internal/orchestrator/snapshot.go:280-323 | the new guest has the snapshot's memory and a copy of its disk; the snapshot is kept; failure removes the state directory, unless making it is what failed |
| `WarmPool.WakeupsNeverLost` | internal/orchestrator/pool.go:157-186 | in every run a deficit beyond the failed restores of the latest round has a signal queued, just received, or about to be sent |
| `WarmPool.QuiescentDepth` | internal/orchestrator/pool.go:78-106 | a quiescent pool is short of Depth by at most those failures, and not at all in runs without failures |
| `WarmPool.QuiescentExact` | internal/orchestrator/pool.go:164-186 | without Release a quiescent pool holds exactly Depth minus the failures of the latest round, so it is full if and only if there were none |
| `WarmPool.FailedSlotsNotRetried` | internal/orchestrator/pool.go:173-183 | at every depth there is a run after which the pool rests empty |
| `WarmPool.NeverOverTwice` | internal/orchestrator/pool.go:117-186 | warm plus owed refills never exceed 2 x Depth |
| `WarmPool.NeverOverDepth` | internal/orchestrator/pool.go:164-204 | without Release they never exceed Depth |
| `WarmPool.TwiceAttained` | internal/orchestrator/pool.go:117-204 | at every depth there is a run that reaches 2 x Depth |
| `WarmPool.HandOutExclusive` | internal/orchestrator/pool.go:92-129 | if callers release only what they hold, no instance is warm twice or both warm and held |
| `WarmPool.SnapshotPool.constructor` | internal/orchestrator/pool.go:69-87 | depth at least 1, nothing warm, the signal channel full |
| `WarmPool.SnapshotPool.Acquire` | internal/orchestrator/pool.go:92-112 | pops the latest warm instance and adds a signal unless the channel is full, or returns the direct restore |
| `WarmPool.AcquireIsRun` | internal/orchestrator/pool.go:92-112 | an undisturbed acquire of a warm slot is a run of the machine: the caller holds the latest warm instance and one signal is added unless the channel is full |
| `WarmPool.RoundIsRun` | internal/orchestrator/pool.go:164-204 | so is an undisturbed refill round with any pattern of failures: one signal is consumed, the restored instances are appended in order, and warm plus failures make up the depth |
| `WarmPool.SnapshotPool.Release` | internal/orchestrator/pool.go:117-129 | keeps the instance exactly when below depth |
| `WarmPool.SnapshotPool.RefillRound` | internal/orchestrator/pool.go:164-204 | one round appends exactly the successful restores and falls short of depth by exactly its failures |
| `TokenBucket.WindowLaw` | internal/state/redis.go:174-193 | with a non-decreasing clock a call is granted if and only if every window from a call so far to now, with this cost, stays within capacity + refill x length |
| `TokenBucket.WindowTotalBounded` | internal/state/redis.go:174-193 | so the cost granted in any window is at most capacity + refill x length |
| `TokenBucket.GainMeans` | internal/state/redis.go:181-186 | where refill x length is the rate per second times the milliseconds, divided by 1000 |
| `TokenBucket.LawIffClockMonotone` | internal/state/redis.go:174-193 | for given clock readings the law holds whatever the calls cost if and only if the readings do not decrease |
| `TokenBucket.StepBackBreaksLaw` | internal/state/redis.go:181-185 | for every limit and wherever the clock steps back, a call is granted against the law |
| `TokenBucket.ExpiryUnobservable` | internal/state/redis.go:183-203 | for non-negative costs, however late expired keys are found missing, every call is answered as by a bucket that never expires |
| `TokenBucket.TtlCoversRefill` | internal/state/redis.go:203 | the computed lifetime suffices for a full refill |
| `TokenBucket.TtlMeans` | internal/state/redis.go:203 | for a non-negative capacity it is two seconds more than the whole seconds a full refill takes |
| `TokenBucket.Store.Allow` | internal/state/redis.go:198-211 | a non-positive rate is refused without effect; otherwise answer, tokens, stamp and expiry follow the specification and no other key changes |
| `TokenBucket.Serve` | internal/state/redis.go:198-211 | a whole series of Allow calls on an expiring key is answered as the never-expiring bucket, so by the window law |
| `Framing.PrefixCode` | internal/protocol/protocol.go:102-142 | encoded messages cut at any byte decode to exactly the messages whose frames are complete before the cut, and then a short read, clean only on a frame boundary |
| `Framing.RoundTrip` | internal/protocol/protocol.go:102-142 | decoding the concatenated frames of any list of messages within the cap yields the list |
| `Framing.WriteMessage` | internal/protocol/protocol.go:102-119 | appends the length in four bytes, most significant first, and the payload; refuses exactly the payloads over 16 MiB and then writes nothing |
| `GuestAgent.CapExact` | cmd/guest-agent/guest_agent.go:287-316 | for all writes and chunk sizes the forwarded pieces are together the first min(total, MaxOutput) bytes, and truncation is flagged exactly when the total exceeds a positive cap |
| `GuestAgent.ChunksCover` | cmd/guest-agent/guest_agent.go:303-315 | the pieces of one write make it up, none is empty and all but the last are full |
| `GuestAgent.ReplyWellFormed` | cmd/guest-agent/guest_agent.go:108-241 | every reply is non-terminal frames followed by exactly one terminal frame |
| `GuestAgent.StreamWriter.constructor` | cmd/guest-agent/guest_agent.go:280-285 | nothing written; a non-positive chunk size means 32 KiB |
| `GuestAgent.StreamWriter.Write` | cmd/guest-agent/guest_agent.go:287-316 | reports all input as consumed and sends exactly the pieces of the accepted part before the first whose frame is over the cap; fails exactly if there is one |
| `GuestAgent.CopyOutput` | cmd/guest-agent/guest_agent.go:185-206 | all writes of a process in turn, up to the first failing one, send what the specification says |
| `GuestAgent.SentPieces` | cmd/guest-agent/guest_agent.go:287-316 | over all writes the pieces sent are those before the first over the cap |
| `GuestAgent.Answer` | cmd/guest-agent/guest_agent.go:108-241 | the frames that reach the wire for every request: output frames, and then, if and only if it fits, the terminal frame of that request: pong, its error, the text of a passed deadline, the wait error, or the exit code (the frame-size error in place of code 0 if a chunk was over the cap) |
| `VsockClient.Conn.ReadMessage` | internal/protocol/protocol.go:125-142 | over any fragmentation: the length is read most significant byte first; a clean end, an end inside header or payload, and a length over 16 MiB (with only the header consumed) are told apart exactly; otherwise exactly the payload is consumed |
| `VsockClient.Conn.ReadLine` | internal/gateway/vsockclient.go:228-248 | returns the line through the first newline and keeps what was read ahead |
| `VsockClient.Conn.Frames` | internal/gateway/vsockclient.go:132-151 | the frame loop depends only on the bytes, not on their fragmentation |
| `VsockClient.Conn.Exec` | internal/gateway/vsockclient.go:114-248 | handshake and frame loop together depend only on the bytes, however many are read ahead; the handshake is short exactly without a newline, and fails exactly if there is one and the bytes do not start with 79, 75, 32 |
| `EndToEnd.RemoteExec` | cmd/guest-agent/guest_agent.go:108-241 | guest and host together: for every request, chunk size, cap, fragmentation and read-ahead, the host sees exactly the frames sent and the outcome of the terminal one (an early end if that did not fit); if all frames fit, the end and the delivery below |
| `EndToEnd.EndSeen` | cmd/guest-agent/guest_agent.go:108-241 | if all frames fit, the host gets an exit code and no error exactly when the script ran, no deadline passed and the process exited with that code; the text of a passed deadline whatever the wait says; else the wait, start, unknown-kind or empty-script error; a pong exactly for a ping |
| `EndToEnd.StreamDelivered` | cmd/guest-agent/guest_agent.go:213-240 | the host sees one output frame for each chunk, the notice exactly when the total exceeds a positive MaxOutput, and the terminal frame that EndSeen describes; the output is the first min(total, MaxOutput) bytes if and only if every chunk is well-formed UTF-8 |
| `EndToEnd.WholeReplyIffFits` | internal/protocol/protocol.go:102-119 | the host sees the whole reply if and only if every frame of it fits |
| `EndToEnd.OverCapReply` | cmd/guest-agent/guest_agent.go:213-315 | otherwise the pieces written are those before the first over the cap and the terminal frame is an error if the process succeeded |
| `EndToEnd.OverCapSeen` | cmd/guest-agent/guest_agent.go:213-315 | so the host sees the output before that chunk, perhaps the notice, and one terminal frame: the frame-too-large error for a process that succeeded in time, and otherwise the end it would have had anyway |
| `EndToEnd.OversizeChunkLosesAll` | cmd/guest-agent/guest_agent.go:303-315 | a chunk larger than a frame loses all output |
| `EndToEnd.FramesFit` | internal/protocol/protocol.go:102-119 | every frame fits if six times id plus chunk size (or longest single write) and 128 are within 16 MiB |
| `EndToEnd.DefaultChunkFits` | cmd/guest-agent/guest_agent.go:280-285 | with the default chunk size this holds for every output and every id up to 2 MiB |
| `EndToEnd.ClientSeesTransmitted` | internal/gateway/vsockclient.go:132-151 | after the handshake the client is handed every frame that reached the wire, in order, and stops at the terminal one or reports the early end |
| `EndToEnd.BrokenStreamShowsPrefix` | internal/gateway/vsockclient.go:132-151 | a connection that breaks inside a reply shows a proper prefix of it and an error |
| `EndToEnd.AsciiDeliveredExactly` | cmd/guest-agent/guest_agent.go:287-316 | ASCII output is always delivered exactly |
| `EndToEnd.SplitCharacterIsLost` | cmd/guest-agent/guest_agent.go:303-315 | a two-byte character split between chunks arrives as two replacement characters |
| `EndToEnd.PiecesSurviveIffValid` | internal/protocol/protocol.go:102-106 | replacement is invisible in the concatenation if and only if every piece is well-formed |
| `Utf8.ValidIsText` | internal/protocol/protocol.go:102-106 | well-formed bytes are the encoding of some sequence of Unicode scalar values |
| `Utf8.TextValid` | internal/protocol/protocol.go:102-106 | and every such encoding is well-formed |
| `Utf8.OtherReplaced` | internal/protocol/protocol.go:102-106 | a byte that starts the encoding of no scalar value becomes U+FFFD |
| `DialRetry.DialWithRetry` | internal/gateway/vsockclient.go:168-194 | attempts, waits and outcome for every pattern of successes and cancellation; giving up means exactly RetryMax + 1 attempts |
| `DialRetry.ScheduleExact` | internal/gateway/vsockclient.go:168-185 | every wait is min(base x 2^i, cap) if and only if the base is within the cap and the cap is below 2^62 ns (or the base is 0) |
| `DialRetry.WaitsCappedIff` | internal/gateway/vsockclient.go:168-185 | every wait is within the cap if and only if the base is; only the first can exceed it |
| `DialRetry.TotalWaitBounded` | internal/gateway/vsockclient.go:168-185 | n waits take at most n x cap, for every n, if and only if the base is within the cap |

## Left out

- The classifier's regular expressions; `classify` is an arbitrary function of the script.
- JSON syntax, the Firecracker SDK, the jailer configuration, cgroup files and overlay mounts: foreign calls that succeed or fail.
- `Pool.Close` and the pool after it; `SnapshotEngine.Create`, which resumes the guest.
- Overlapping calls on one sandbox id, for host resources, rollback and stop/resume; CID conservation, displacement and admission do cover them.
- SupervisorDisplacement.DisplacesIffOverlap: a call that is admitted but holds no CID yet counts only once it has one, which depends on CIDs being free.
- The moment at which a client disconnect is noticed: a session may end at any step.
- Login, HTTP handlers, Postgres repositories, origin checks, heartbeats, session keys, the web UI, scripts and environment parsing: easy members only.
- Rounding of 64-bit floats, and of the token count that the Lua script stores as text.
- GuestAgent.StreamWriter.Write: a failing connection is not modelled in the writer; broken streams are BrokenStreamShowsPrefix.
- VsockClient.Conn.Exec: sending the request and cancellation are not modelled; the reply bytes are a parameter.
- DialRetry.DialWithRetry: the attempt counter is unbounded, so RetryMax of 2^63 - 1 is not distinguished.
- HitlTraces.RequestLifetime: for a positive TTL, as are DecisionLifetime, the two poll lemmas and IndexAgrees; a zero TTL is replaced by one hour, a negative one is not modelled.
- TokenBucket.Serve: one key at fixed capacity and rate, called in clock order.
- Snapshots.Host.LoadSnapshot: only files and guest; CIDs, cgroups and the record are Supervisor.Boot.
- SupervisorAdmission.MemoryBound: assumes budget + k x M below 2^63; beyond that it fails (OverflowAdmits, BudgetBroken).
- EndToEnd.StreamDelivered: for replies whose frames all fit (FramesFit); the others are OverCapReply and RemoteExec.
- TerminalSession.ServeClient: one session alone; concurrent sessions on the gate are HitlModel.
