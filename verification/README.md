# codexfold, modelled and proved

codexfold folds the rollout files of Codex sessions into a content-addressed store, serves them through a managed
filesystem, and hands them back as native files. This project models the parts of it that are hard to get right and
proves what they keep: over every run, every crash point, every input.

* **Retirement** (`RetirementProtocol`, `RetirementSafety`, `RetirementTheorems`, `RetirementWaiter`,
  `RetirementLimits`, `RetirementRecovery`, `CheckpointChain`). Handing one session from the managed filesystem back to
  a native file. The durable files of the session, the lock holder, a waiting initiator and all other actors form a
  transition system in which every action is one durable write and a crash may come between any two. An inductive
  invariant of every legal run carries the theorems; what lasts only under a condition is stated with the exact
  condition, step by step and over runs. The recovery code itself is a class whose every write is recorded as an action
  of that system, so the theorems about runs are theorems about the code.
* **Archive and recover** (`Archive`). A file rename and a database row, tied together by a journal.
* **Migration** (`Migration`). Taking a rollout under management, its rollback, and the recovery of an interrupted one.
* **Folding** (`Records`, `Cdc`, `FoldSpec`, `FoldParts`, `FoldLayout`, `Fold`, `StoreProtocol`, `Store`, `RoundTrip`).
  A streaming splitter with a gear chunker, a content-addressed object store shared with garbage collection, and
  reconstruction.
* **Exact matching** (`Kmp`, `Contain`, `SharedRecords`, `Family`, `SpawnGraph`, `DigestSet`). Containment by prefix
  table and byte confirmation, shared records under digest collisions, spawn-graph relations, and external counting of
  distinct digests.
* **Registry and schedulers** (`RegistrySpec`, `ManagedRegistry`, `FinalFence`, `Pool`, `Planner`). The durable session
  registry with compare-and-swap, the worker pool, and the enrollment planner.

A process that dies is modelled by a number of durable writes after which nothing more is written (`writes`), or by an
explicit `Crash` action. What lies outside (the filesystem daemon, other processes, digests, JSON, clocks, the storage
budget) is a parameter, and every theorem holds for all its values.

Some promises turn out to be false of the code as it is. For each there is a concrete run and the exact condition under
which the promise holds:

* a late compensating command can undo a committed cutover, because it does not compare tokens
  (`LateCompensationUndoesCommit`, `CompensationUndoesCommitIff`, `CommitEndsIff`, `CommitLastsIff`);
* compaction, or a second republication, while a request is pending makes recovery refuse it for ever
  (`CompactionStrandsRequest`, `CompactionStrandsIff`, `RecoveryStartsIff`, `CompensationStrandsIff`,
  `StuckStaysStuck`);
* a waiting initiator can report success although its own request was refused (`WaiterReportsAnothersSuccess`,
  `SuccessIsOwnIff`);
* a waiting initiator can report that it was rejected although its own request was accepted
  (`WaiterReportsFalseRejection`, `RejectionIsTrueIff`), or success although managed authority is back
  (`WaiterReportsUndoneSuccess`, `SuccessStandsIff`), when a compensating command removes its request;
* a waiting initiator whose request was refused is not told while another command's request is pending
  (`WaiterIsNeverTold`, `WaiterIsTold`);
* most abort paths of `Archive` drop the journal although the file did not go back (`LosesJournal`), and an archive
  that commits does not notice a file that appeared at the source (`CommitsOverIntruder`); the clause with `LosesTrack`
  of `Archive.World.Archive` is exact for both;
* a committed manifest can lose an object to a power loss when a fold reused an object that an earlier, dead fold never
  synced (`PowerLossCanBreakAManifest`, `CommitSurvivesPowerLossIff`);
* a registry removal fence holds against compare-and-swap writers only (`BootstrapUndoesFence`, `StaleComesBackIff`);
* counting digests fails beyond one merging level, a second count always fails, and a digest added after a count that
  was cancelled at once overwrites an earlier one (`CountTooMany`, `CountTwice`, `CancelledCountForgets`,
  `DigestSet.DiskDigestSet.Count`, `DigestSet.DiskDigestSet.Add`);
* a comparison reads a rollout once more after it has checked that nothing changed (`LateChangeMisleads`, and the
  if-and-only-if clause of `Family.Compare`);
* a snapshot copy torn by a crash refuses every later migration of the session until a native write makes the source
  equal to it (`TornCopyStrands`, `Stranded`, and the success clause of `Migration.Rollout.Migrate`);
* a source torn while it is copied back is handed back by no recovery until a native write restores the verified bytes
  (`TornRestoreStrands`, `NeverHandedBack`, and the success clause of `Migration.Rollout.RecoverInterrupted`).

## Model

| member | source | states |
|---|---|---|
| RetirementSafety.RunKeepsSound | internal/cli/fs_retirement_recovery.go:1151-1279 | every legal run of all actors, foreign compensations included, keeps the invariant: the snapshot is in exactly one place, a request in a retired directory has a positive answer, the files agree with the history, each token has at most one answer |
| RetirementSafety.StepKeepsSound | internal/cli/fs_retirement_recovery.go:1346-1402 | its inductive step, over cutover, recovery, migration recovery, compensation, compaction, managed writes, crashes and the waiter |
| RetirementTheorems.EveryReachableState | internal/cli/fs_retirement_recovery.go:1063-1149 | in every state reachable by any legal run the hidden snapshot is in exactly one of its two places, a request inside a retired directory has its positive answer beside it, and no token is both accepted and rejected |
| RetirementTheorems.OneAnswerEver | internal/cli/fs_retirement_recovery.go:1420-1441 | any two answers that are ever on disk for one token, however far apart in any legal run, are equal |
| RetirementTheorems.CommitEndsIff | internal/cli/fs.go:2333-2346 | from any committed state of the invariant, a step of any actor ends the commit exactly when it is a compensating command that removes the request of an active session |
| RetirementTheorems.CommitLastsIff | internal/cli/fs_retirement_recovery.go:1198-1254 | over every legal run a commit stays in force throughout exactly when no step is such a removal |
| RetirementTheorems.CommitIsFinal | internal/cli/fs_retirement_recovery.go:1198-1254 | as long as no compensating command begins on the accepted request, no run brings the directory back, republishes the state, or removes the request anywhere but in the retired directory |
| RetirementTheorems.AcceptedOnlyExact | internal/cli/fs_retirement_recovery.go:1199-1217 | whatever any run accepts was accepted at one step of it, and just before that step the request was pending and unanswered, bound to the current generation and checkpoint, with the exact native bytes in place |
| RetirementWaiter.SettledStepIff | internal/cli/fs.go:2333-2346 | a published request is pending or answered, and if accepted pending while the session is active; a step ends that exactly when it removes the request unrefused |
| RetirementWaiter.PastStays | internal/cli/fs_service.go:1557-1616 | a request that is published and no longer pending is never pending again and gets no further answer, over every legal run |
| RetirementWaiter.WaiterTellsTheTruth | internal/cli/fs_service.go:1557-1616 | although the four reads are not atomic, over every run in which nobody removes the own request unrefused, "succeeded" means that a commit is in force and the own request has exactly one answer, "rejected" that it was refused and not accepted |
| RetirementWaiter.WaiterIsTold | internal/cli/fs_service.go:1564-1616 | from every reachable state in which the own request was not removed unrefused, the undisturbed initiator needs at most four reads once the request is answered: it reports success if it was accepted; a rejection if it was refused and the session is active, unless another request hides that, and then never; on a session that another request retired, success, or a failure if it was about to read the state; without an answer it never reports |
| RetirementWaiter.FailureMeansRetired | internal/cli/fs_service.go:1600-1606 | over every legal run a reported failure means that the session is retired |
| RetirementWaiter.RejectionIsTrueIff | internal/cli/fs_service.go:1557-1616 | over every legal run a reported rejection is true exactly when nobody removed the own request unrefused |
| RetirementWaiter.SuccessStandsIff | internal/cli/fs_service.go:1564-1599 | over every legal run: while the session is active a reported success is in force exactly when nobody removed the own request unrefused; once it is retired it is in force in any case |
| RetirementWaiter.SuccessByRead | internal/cli/fs_service.go:1564-1599 | for a request that was not removed unrefused: success read from the answer means it was accepted; read from the missing directory it means accepted or refused |
| RetirementWaiter.SuccessIsOwnIff | internal/cli/fs_service.go:1590-1599 | over every legal run a reported success is the initiator's own exactly when no request was begun since its own was pending, or its own was accepted and then removed |
| RetirementLimits.WaiterReportsAnothersSuccess | internal/cli/fs_service.go:1590-1599 | a legal run without compensations in which the waiter reports success although its own request was refused |
| RetirementLimits.WaiterReportsFalseRejection | internal/cli/fs_service.go:1590-1616 | a legal run in which the waiter reports a rejection although its own request was accepted |
| RetirementLimits.WaiterReportsUndoneSuccess | internal/cli/fs_service.go:1564-1599 | a legal run in which the waiter reports success although no commit is in force |
| RetirementLimits.WaiterIsNeverTold | internal/cli/fs_service.go:1590-1591 | a legal run after which the waiter, whose request was refused, never reports however often it looks |
| RetirementTheorems.RecoveryStartsIff | internal/cli/fs_retirement_recovery.go:489-575 | recovery can begin exactly when the generation is the request's, or one past it in the active directory (for an acknowledged request: exactly bound) |
| RetirementTheorems.RecoveryCompletes | internal/cli/fs_retirement_recovery.go:1151-1279 | an uninterrupted recovery ends fully retired if the durable answer is positive, otherwise fully restored at exactly generation g+1, with the registry entry where there is a registry |
| RetirementTheorems.RecoveryUnderCrashes | internal/cli/fs_retirement_recovery.go:1637-1676 | with recovery alone at work, crashing anywhere, the request stays pending and recoverable or is settled completely, one way or the other |
| RetirementTheorems.RepeatedRecoveryConverges | internal/cli/fs_retirement_recovery.go:1346-1402 | from every undisturbed reachable state with a pending request, after a crash, a recovery can start, and however it starts it ends in exactly one of the two final states, which the history names |
| RetirementTheorems.StuckStaysStuck | internal/cli/fs_retirement_recovery.go:556-562 | once the generation check refuses, no run without the compensating command makes the request recoverable again |
| RetirementTheorems.CompactionStrandsIff | internal/cli/fs_retirement_recovery.go:556-562 | a compaction leaves a recoverable request recoverable exactly when it is not accepted and the generation had not advanced before |
| RetirementTheorems.WriteUnbinds | internal/cli/fs_retirement_recovery.go:1199-1217 | after a managed write a pending request cannot be accepted any more and is as recoverable as before |
| RetirementTheorems.DecidedUnderLock | internal/cli/fs_retirement_recovery.go:1151-1198 | an answer is written by recovery or a cutover while nobody else holds the lock, or by the migration recovery that holds it, and that one can always refuse |
| RetirementTheorems.StaleAnswerGoes | internal/cli/fs.go:1803-1809 | an answer without its request is removed by the daemon in two steps, from every such state, and nothing else changes |
| RetirementTheorems.FenceRaises | internal/cli/fs_managed_registry_integration.go:195-212 | at a fence the entry of an active session gets exactly its generation, and a retired session gets none |
| RetirementLimits.CompactionStrandsRequest | internal/cli/fs_retirement_recovery.go:556-562 | a legal run in which two compactions leave a pending request that recovery will not plan |
| RetirementLimits.LateCompensationUndoesCommit | internal/cli/fs.go:2333-2346 | a legal run in which a compensation for a refused request republishes the state and clears another, accepted request |
| RetirementLimits.CompensationUndoesCommitIff | internal/cli/fs.go:2333-2346 | a compensation undoes a commit exactly when the pending request is accepted, and then its token is not the command's own |
| RetirementLimits.CompensationStrandsIff | internal/cli/fs.go:2339-2346 | a compensation that dies after republishing leaves its refused request recoverable exactly when the generation had not advanced before |
| RetirementRecovery.SessionStore.Prepare | internal/cli/fs_retirement_recovery.go:489-575 | a plan exists exactly when the durable state is recoverable, and it reports the answer, the binding and the target as they are |
| RetirementRecovery.SessionStore.EnsureRejection | internal/cli/fs_retirement_recovery.go:1420-1434 | a rejection is written only where no answer is; the holder is now restoring toward g+1 |
| RetirementRecovery.SessionStore.ReturnSnapshot | internal/cli/fs_retirement_recovery.go:1579-1601 | the snapshot is back at its hidden place and nowhere else, as one protocol action |
| RetirementRecovery.SessionStore.ReturnDirectory | internal/cli/fs_retirement_recovery.go:1360-1378 | the directory is active, as one protocol action |
| RetirementRecovery.SessionStore.RepublishState | internal/cli/fs_retirement_recovery.go:1386-1397 | the generation is g+1 afterwards, advanced at most once |
| RetirementRecovery.SessionStore.UpsertEntry | internal/cli/fs_retirement_recovery.go:1398-1400 | the registry entry has the restored generation, and nothing is written without a registry; one protocol action |
| RetirementRecovery.SessionStore.RetireDirectory | internal/cli/fs_retirement_recovery.go:1255-1265 | the directory is retired, as one protocol action |
| RetirementRecovery.SessionStore.RetireSnapshot | internal/cli/fs_retirement_recovery.go:1534-1573 | the snapshot is in the retired directory and nowhere else, as one protocol action |
| RetirementRecovery.SessionStore.RemoveEntry | internal/cli/fs_retirement_recovery.go:1275-1277 | the registry entry is gone, as one protocol action |
| RetirementRecovery.SessionStore.ClearRequestLast | internal/cli/fs_retirement_recovery.go:1637-1676 | the request goes first and only beside the right answer, the answer last; each is one protocol action |
| RetirementRecovery.SessionStore.RestoreManaged | internal/cli/fs_retirement_recovery.go:1346-1402 | from any plannable, not accepted state the files end fully restored at g+1 |
| RetirementRecovery.SessionStore.RetireManaged | internal/cli/fs_retirement_recovery.go:1256-1279 | an accepted session ends fully retired |
| RetirementRecovery.SessionStore.Cutover | internal/cli/fs_retirement_recovery.go:1172-1254 | the second validation, the owner handoff, the deletion check and the last look at the native bytes decide between retired, restored, superseded and left to a busy owner, each exactly |
| RetirementRecovery.SessionStore.CompleteCanonicalRetirement | internal/cli/fs_retirement_recovery.go:1151-1279 | refines the protocol write by write; completes exactly when the owner detaches and the request is already accepted, or unanswered, bound, with both looks at the outside in order, no deletion and the exact native bytes; a deletion or a failing owner leaves everything, each exactly when stated; otherwise restores; refuses exactly when not recoverable |
| CheckpointChain.PathDescends | internal/cli/fs_retirement_recovery.go:791-810 | down a lineage the sequence falls strictly and the generation never rises |
| CheckpointChain.LineageIsUnique | internal/cli/fs_retirement_recovery.go:791-814 | there is at most one lineage |
| CheckpointChain.ReadCheckpoints | internal/cli/fs_retirement_recovery.go:754-786 | the listing is read exactly when it holds only empty temporaries and distinct, valid, well-named checkpoints |
| CheckpointChain.Walk | internal/cli/fs_retirement_recovery.go:791-814 | the walk ends by its falling sequence, never meets a cycle or a missing digest, and accepts exactly when a lineage of all checkpoints exists |
| CheckpointChain.LoadChain | internal/cli/fs_retirement_recovery.go:744-815 | a directory is accepted exactly when its files are one lineage from the catalog's checkpoint |
| CheckpointChain.NotBehind | internal/cli/fs_retirement_recovery.go:697-709 | a bound request is the newest checkpoint or has a strictly smaller sequence |
| CheckpointChain.LoadStateProof | internal/cli/fs_retirement_recovery.go:662-717 | accepts exactly when state, catalog, one lineage, binding and the other files fit; the request is then a member of that lineage; the "moved behind" branch is unreachable |
| Archive.World.RollbackFile | internal/archive/archive.go:214-238 | moves the file back exactly when the source is free, the target still has the size and digest, and the rename works; otherwise changes nothing; reports success exactly when the fsync works too |
| Archive.World.RemoveJournal | internal/archive/archive.go:157-166 | the journal is gone unless the removal fails or the process is dead |
| Archive.World.AbortRenamed | internal/archive/archive.go:240-291 | where the bytes and the journal are after an abort, for every failure, crash and intruding process; the guarded exit keeps the journal beside a file that is back but not synced |
| Archive.World.Archive | internal/archive/archive.go:87-327 | for every crash point, every failure and other processes at both paths after the rename: five durable writes are enough for an answer, and the failure decides which; the row says archived exactly when the commit happened, of exactly the files that are then there; undisturbed the bytes are at exactly one place; an abort leaves the row active and keeps its journal exactly when the preparation was not synced, the removal failed, or the file is not back durably after a refused commit; an incoherent state has no journal exactly when the command lost track, and an undecidable one exactly when disputed |
| Archive.World.AfterTheRename | internal/archive/archive.go:239-327 | the same, from the rename on |
| Archive.World.AfterLostCommit | internal/archive/archive.go:291-318 | the same, for a commit that returned an error and the row that is then read back |
| Archive.AbortThenRetry | internal/archive/archive.go:157-291 | after an abort, an archive that is left alone succeeds with the original bytes, exactly unless the abort kept its journal or lost track of the file; then it is refused |
| Archive.World.Recover | internal/archive/archive.go:329-420 | from every journalled state recovery settles it, finalising exactly when the row says archived and else restoring the source; dying or failing anywhere leaves it journalled; bytes move unchanged; refuses exactly the undecidable states |
| Archive.World.ArchiveThenRecover | internal/archive/archive.go:149-420 | an archive that dies or fails anywhere, recoveries that die or fail anywhere, then one left alone: coherent without journal, except that lost states stay lost and disputed ones are answered ambiguous with their journal kept |
| Archive.LosesJournal | internal/archive/archive.go:244-256 | a concrete archive whose rename back fails: active row, no source, the bytes at the target, and no journal |
| Archive.CommitsOverIntruder | internal/archive/archive.go:292-327 | a concrete archive that reports success with a foreign file at the source, and no journal |
| Migration.Rollout.Retain | internal/cli/fs_service.go:1274-1342 | staging succeeds only with a source and a snapshot that match; an existing snapshot is kept, and accepted exactly when it matches |
| Migration.Rollout.Copy | internal/cli/fs_service.go:1364-1385 | what a copy leaves when it succeeds, fails, or its process dies in the middle, and exactly which it is |
| Migration.Rollout.Finalize | internal/cli/fs_service.go:1344-1362 | the source is removed exactly when both it and the snapshot still match |
| Migration.Rollout.Preserve | internal/cli/fs_service.go:1416-1459 | with a snapshot, no source and time enough the source is put back whenever a link or a copy works; the snapshot stays; an existing source is never touched; what is at the source when the process dies in the middle of a copy |
| Migration.Rollout.Rollback | internal/cli/fs.go:2149-2157 | keeps what was last written; a source that is gone is back whenever a link or a copy works |
| Migration.Rollout.Migrate | internal/cli/fs.go:1994-2110 | at every crash point nothing last written is lost, also to a native writer that interferes, and the source is gone only with an acknowledged mount and a snapshot that matches what was last written; with six durable writes and no writer it succeeds exactly when the source is what the current fold restores to, no other snapshot is in the way and every check passes, and a refusal leaves the source in place |
| Migration.Rollout.Enter | internal/cli/fs.go:2078-2110 | from publication on: the same, for the acknowledgement, the checks and the removal of the source |
| Migration.Rollout.CutOver | internal/cli/fs.go:2097-2110 | the source is removed, and put back when the target or the route is not right after all; succeeds exactly when everything still fits |
| Migration.Rollout.RecoverInterrupted | internal/cli/fs.go:2713-2910 | at every crash point nothing last written is lost; once the request is made the outcome of the handoff decides: the session is given up exactly after a positive answer, the answer is positive exactly when checkpoint, route and source are exact, a moved route is answered by a rejection, no daemon leaves the request; a deletion tombstone, a source that does not match or a session in use changes nothing |
| Migration.Rollout.Commit | internal/cli/fs.go:2845-2870 | the answer is positive exactly when the process lives, no deletion tombstone is there, and checkpoint, route and source still fit after any native write; beside a tombstone no answer is given |
| Migration.Rollout.Retire | internal/cli/fs.go:2889-2909 | the snapshot moves to the retired copy, then the registry entry and last the request go; dying anywhere loses nothing |
| Migration.Rollout.History | internal/cli/fs.go:1994-2110 | any history of migrations, recoveries, native writes and new folds, each dying where it may: what was last written is in one of the three places, whatever was verified in between |
| Migration.Rollout.Stranded | internal/cli/fs_service.go:1300-1320 | a snapshot that differs from the source, with no managed state, refuses every later migration and never changes, whatever the session is folded to, until a native write has the mark of the snapshot; nothing but native writes changes the source |
| Migration.Rollout.NeverHandedBack | internal/cli/fs.go:2823-2825 | a managed session beside a source that is not the verified bytes is refused by every recovery that gets to compare it, and by every migration, until a native write has the mark of those bytes; it stays managed, and no request is made for it |
| Migration.Rollout.TornCopyStrands | internal/cli/fs_service.go:1364-1385 | a migration that dies while copying leaves such a snapshot unless the torn copy matches |
| Migration.Rollout.TornRestoreStrands | internal/cli/fs_service.go:1438-1445 | a migration that fails after removing the source and dies while copying it back leaves such a source unless the torn copy matches; the snapshot keeps the bytes |
| Records.JoinSplit | internal/contain/contain.go:119-191 | the records of a file concatenate to the file |
| Records.SplitGivesRecords | internal/contain/contain.go:119-191 | a newline ends a record and occurs nowhere else in it; only the last record may lack it |
| Records.JoinSlice | internal/contain/contain.go:218-253 | the bytes between two record boundaries are the records between them |
| Kmp.FallBack | internal/contain/contain.go:200-212 | one step back along the table loses no candidate |
| Kmp.BuildPrefixTable | internal/contain/contain.go:200-212 | every entry is the longest proper border of its prefix |
| Kmp.Advance | internal/contain/contain.go:80-85 | after each element the matched length is the longest prefix of the needle that ends here |
| Contain.ReadRecord | internal/contain/contain.go:132-171 | fragments of any size make up exactly one record; it is captured exactly when it fits the capture limit |
| Contain.ScanRecords | internal/contain/contain.go:119-191 | for every read-buffer size: all records, with their true numbers and byte ranges, the session header left out |
| Contain.EqualRanges | internal/contain/contain.go:218-253 | compares the two ranges exactly, buffer by buffer |
| Contain.HitBytes | internal/contain/contain.go:86-94 | the byte range of a fingerprint hit lies in the file, begins at a record, and agrees exactly when the records do |
| Contain.Confirm | internal/contain/contain.go:89-94 | the byte comparison answers whether the records before this point are the needle |
| Contain.VisitHit | internal/contain/contain.go:86-103 | a confirmed hit is reported with its ranges; an unconfirmed one goes on from the longest border and loses nothing |
| Contain.VisitRecord | internal/contain/contain.go:79-105 | each record leaves the search undecided with nothing missed, or gives the answer |
| Contain.Search | internal/contain/contain.go:77-109 | the whole search reports the first run or that there is none |
| Contain.SameCutsSameRecords | internal/contain/contain.go:86-103 | equal bytes cut at equal lengths are equal records, so collisions cannot hide in a confirmed hit |
| SharedRecords.CollectCandidates | internal/family/family.go:398-401 | for every fingerprint, all its positions in order |
| SharedRecords.TryAside | internal/family/family.go:409-423 | finds an unused equal record among those set aside exactly when there is one |
| SharedRecords.TryNext | internal/family/family.go:427-442 | finds the next equal candidate, setting others aside; a miss means no candidate is left |
| Contain.Check | internal/contain/contain.go:49-110 | containment is reported if and only if the applicable records occur as a contiguous run; the first run, with its record and byte ranges; no collision-freedom is assumed |
| SharedRecords.MatchOne | internal/family/family.go:402-443 | a record is matched exactly when a free copy exists on the other side, whatever the fingerprints |
| SharedRecords.SharedRecordCount | internal/family/family.go:393-445 | the count is the size of the multiset intersection for every fingerprint function |
| SharedRecords.SharedPrefix | internal/family/family.go:374-391 | the length of the longest common prefix of the two record lists |
| Family.MutualContainmentIsEquality | internal/family/family.go:211-227 | two record lists occur in each other exactly when they are equal |
| Family.ClassifyIsRelation | internal/family/family.go:211-227 | the branch taken on containment, prefix and shared count is the relation of the two record lists |
| Family.ApplicableRecords | internal/family/family.go:303-365 | the scan yields exactly the applicable records |
| Family.Compare | internal/family/family.go:140-229 | graph relation, shared count and prefix are those of the scanned rollouts, changes up to the check are refused, and the relation is that of the scanned record lists exactly when the last read gives the answer they would give; independent tails means a nonempty common prefix shorter than both |
| Family.LateChangeMisleads | internal/family/family.go:191-205 | two equal rollouts, one of which changes after the check for changes: not called identical |
| SpawnGraph.ClosedHolds | internal/family/family.go:247-269 | no path leaves a closed set of sessions |
| SpawnGraph.Adjacency | internal/family/family.go:248-251 | successors are listed exactly as the edges say |
| SpawnGraph.Search | internal/family/family.go:247-294 | breadth-first search finds the target exactly when it is reachable, and everything reachable otherwise |
| SpawnGraph.Reachable | internal/family/family.go:247-269 | true exactly when a path of spawn edges exists |
| SpawnGraph.Connected | internal/family/family.go:271-294 | true exactly when a path exists with edges taken either way |
| SpawnGraph.RelationTo | internal/family/family.go:231-245 | seed, ancestor, descendant and unconnected, each exactly when the graph says so |
| SpawnGraph.Build | internal/family/family.go:79-138 | members and missing are exactly the connected component of the seed, every member with its relation to the seed, and exactly the edges inside it |
| DigestSet.MakeRun | internal/fold/digestset.go:109-135 | a run is strictly sorted and has exactly the chunk's digests |
| DigestSet.Least | internal/fold/digestset.go:150-162 | the run with the least next digest, the first of several; none exactly when all are read |
| DigestSet.MergeRuns | internal/fold/digestset.go:164-226 | merging gives a strictly sorted sequence of exactly the runs' digests and ends |
| DigestSet.DiskDigestSet.CreateRuns | internal/fold/digestset.go:89-140 | run files hold exactly the input; fails exactly when it is cancelled in between or one of their names is taken; where the file position is afterwards |
| DigestSet.DiskDigestSet.MergeGroup | internal/fold/digestset.go:71-79 | replaces a group of runs by one file with exactly their digests |
| DigestSet.DiskDigestSet.MergeLevel | internal/fold/digestset.go:68-82 | a level keeps exactly the digests in a 64th of the files; fails at once when its first name is taken |
| DigestSet.DiskDigestSet.Count | internal/fold/digestset.go:54-87 | a successful count is the number of distinct digests in the file, and of those added when the file is complete; left alone in a fresh directory it succeeds exactly up to 64 times 64 runs; after a count of a nonempty open set that was not cancelled at once no count succeeds |
| DigestSet.CountTwice | internal/fold/digestset.go:54-87 | one digest: the first count gives 1, the second fails |
| DigestSet.CountTooMany | internal/fold/digestset.go:68-82 | one digest more than 64 times 64 full runs: the first count fails |
| DigestSet.CancelledCountForgets | internal/fold/digestset.go:89-95 | two digests with a cancelled count between them count as one, even when they differ |
| DigestSet.DiskDigestSet.Add | internal/fold/digestset.go:42-52 | a digest is taken exactly when it is valid and the set open; a complete file stays complete exactly when the position is at its end, otherwise an earlier digest is overwritten |
| Cdc.New | internal/cdc/chunker.go:29-54 | defaults, and exactly which options are refused |
| Cdc.PowerOfTwoIff | internal/cdc/chunker.go:42-44 | the test of the average size holds exactly for the powers of two |
| Cdc.Chunker.Write | internal/cdc/chunker.go:56-68 | emits and keeps exactly what the specification says; every emitted chunk is at the maximum or hits the mask and has no hit before, from the minimum on, and what is pending is below the maximum without a hit |
| Cdc.Chunker.Finish | internal/cdc/chunker.go:70-85 | the pending bytes become the last chunk |
| Cdc.SplitsDoNotMatter | internal/cdc/chunker.go:56-68 | the chunks do not depend on how the input is split into writes |
| Cdc.NothingLost | internal/cdc/chunker.go:56-85 | chunks and pending bytes concatenate to the input |
| Cdc.WriteGivesChunking | internal/cdc/chunker.go:56-68 | every chunk ends at its first cut, and nothing pending has one |
| Cdc.FirstCutIsFirstHit | internal/cdc/chunker.go:61 | a chunk ends at its first cut exactly when it is within the bounds, full or hitting the mask, and nothing shorter from the minimum on hits it |
| Cdc.EmittedAtFirstHits | internal/cdc/chunker.go:56-68 | all chunks of a write end like that, and the pending bytes have no hit |
| Cdc.GearIsWeighted | internal/cdc/chunker.go:58-59 | the rolled hash is the sum of the table entries of the bytes, each weighted by a power of two for its distance from the end, at 64 bits |
| Cdc.HitsIff | internal/cdc/chunker.go:61 | the mask hits exactly when the average size divides that sum, although the hash wraps around |
| Cdc.Boundaries | internal/cdc/chunker.go:56-68 | a chunk ends at the first length, from the minimum on, at which the average size divides the weighted sum of its bytes, or at the maximum; the statement names neither the hash nor the cut test |
| Cdc.ChunkingIsUnique | internal/cdc/chunker.go:56-68 | the boundaries are determined by the bytes alone |
| Cdc.ChunkSizes | internal/cdc/chunker.go:60-66 | every emitted chunk is between the minimum and the maximum, and less than the maximum is pending |
| Cdc.MaskSeesLastBytes | internal/cdc/chunker.go:58-64 | once a chunk holds log2(average) bytes the mask test depends on those last bytes only, in 64-bit wrap-around arithmetic |
| FoldSpec.PartsAreTheSource | internal/fold/fold.go:379-383 | the parts concatenate to the source, so the segmentation check cannot fail |
| FoldSpec.ComponentsContent | internal/fold/fold.go:421-465 | planning a record's components covers the record exactly |
| FoldSpec.OversizedLines | internal/fold/fold.go:327-341 | the oversized counter is the number of lines longer than the limit |
| FoldParts.CutFieldsStructure | internal/fold/fold.go:300-313 | cutting a line adds exactly its nonempty fields, in order, with their paths and bytes |
| FoldParts.CutLineStructure | internal/fold/fold.go:295-313 | a line that is not JSON adds chunks only, any other exactly its fields |
| FoldParts.ProcessLineStructure | internal/fold/fold.go:261-313 | a duplicate that is worth it adds exactly itself as one record, any other line its fields |
| FoldParts.FoldStructure | internal/fold/fold.go:261-313 | the fields and whole records of a fold are, line by line, exactly those the lines call for |
| FoldParts.FoldSized | internal/fold/fold.go:205-208 | no part is empty and no chunk exceeds the maximum |
| FoldParts.InvalidLines | internal/fold/fold.go:295-299 | the invalid counter is the number of lines that are looked at, not kept whole, and not JSON |
| FoldLayout.FoldIsLayout | internal/fold/fold.go:205-382 | the parts of a fold are exactly those called for by its source read as loose bytes and stops (fields and whole records): every gap between two stops, over line ends, is chunked as one |
| FoldLayout.ItemsAreTheLines | internal/fold/fold.go:261-313 | the loose bytes and the stops make up the source |
| FoldLayout.GapIsChunking | internal/fold/fold.go:237-244 | the chunks of a gap are the reference chunking of its bytes, with what is left over at the end |
| FoldLayout.ChunksTouchAtCuts | internal/fold/fold.go:313-362 | of two chunks in a row the first ends at a cut of the chunker, or right before an empty field; no line end, long line or invalid line ends a chunk |
| Fold.FoldRun.CutFields | internal/fold/fold.go:295-313 | the field loop cuts the line as specified |
| Fold.FoldRun.PlanRecordComponents | internal/fold/fold.go:421-465 | the components of a line on its own |
| Fold.FoldRun.TakeFragment | internal/fold/fold.go:324-344 | assembling a line in fragments and giving up at the limit leave the state of the line-by-line specification |
| Fold.FoldRun.Overflow | internal/fold/fold.go:331-341 | the fragment that makes a line too long writes what was held back first, and counts the line |
| Fold.FoldRun.EndLine | internal/fold/fold.go:346-354 | a completed line leaves the state of the line-by-line fold and an empty buffer |
| Fold.FoldRun.TakeRest | internal/fold/fold.go:357-362 | a last line without newline is taken in like any other |
| Fold.FoldRun.Run | internal/fold/fold.go:205-382 | for every read-buffer size: the parts are the layout of the source, chunks touch only at cuts, the parts concatenate to the source, the oversized and invalid counts are exact |
| StoreProtocol.StepKeepsSafe | internal/fold/fold.go:165-169 | every step of a fold or a collection under the lock keeps all committed manifests restorable |
| StoreProtocol.RunKeepsIntact | internal/fold/gc.go:61-133 | over every interleaving of folds and collections, dying anywhere, every committed manifest can be restored |
| StoreProtocol.CommittedForever | internal/fold/fold.go:402-410 | from a commit on, until the session is folded again, it restores to bytes of the same size and digest; without a collision, to the source |
| StoreProtocol.FoldsNeverGetStuck | internal/fold/store.go:133-190 | over every run, power losses and pricing included, and without collisions: a fold can store its next piece, and when all are stored it passes its verification with exactly its source |
| StoreProtocol.PowerSafeIff | internal/fold/store.go:192-252 | no power loss can hurt a committed manifest exactly when all referenced objects were synced |
| StoreProtocol.CommitSurvivesPowerLossIff | internal/fold/store.go:140-146 | a commit is safe against power loss exactly when the fold reused no object that was on disk unsynced when it started |
| StoreProtocol.CarefulRunsSurvivePowerLoss | internal/fold/store.go:133-252 | with such commits only, power losses anywhere in a run hurt no manifest |
| StoreProtocol.PowerLossCanBreakAManifest | internal/fold/store.go:140-146 | a legal run in which a reused, never synced object is lost after the commit |
| StoreProtocol.PutNames | internal/fold/store.go:133-190 | without collisions a piece is named by its digest and size; storing leaves it there, to be synced exactly if it was new, and reports reuse exactly if it was there; pricing changes nothing on disk and does not spoil a later storing |
| StoreProtocol.NamesReadBack | internal/fold/fold.go:506-528 | pieces that are there read back as their concatenation |
| Store.ObjectStore.SyncPending | internal/fold/store.go:192-252 | on success everything pending is synced and nothing is pending; on failure the pending set stays |
| Store.ObjectStore.StoreAll | internal/fold/fold.go:205-236 | pieces are stored in order, existing objects and manifests are untouched, exactly the new objects are to be synced |
| Store.ObjectStore.Commit | internal/fold/fold.go:384-410 | dying anywhere leaves every committed manifest as it was; a committed session restores to the size and digest of its source, its manifest names the pieces in order, and exactly the objects it wrote are newly synced; without collisions it commits unless the rollout changed meanwhile or it would overwrite |
| Store.ObjectStore.Publish | internal/fold/fold.go:384-410 | the manifest is written exactly when it reads back, everything is synced and nothing is overwritten unasked |
| Store.Files.ReferencedObjects | internal/fold/gc.go:169-219 | refused exactly when a manifest is unreadable or a managed session does not hold up; else exactly the digests that some manifest or managed session uses |
| Store.Files.ManagedObjects | internal/fold/gc.go:196-217 | exactly the digests of managed sessions, each of which can be restored |
| Store.Files.Collect | internal/fold/gc.go:61-133 | removes only objects that no manifest and no managed session uses, all of them when it finishes; it finishes when the evidence holds up and stays, the objects are sound and time is enough; every manifest and every managed session restores to the same bytes; invalid evidence removes nothing |
| Store.Files.Consider | internal/fold/gc.go:95-130 | one object is removed exactly when it is sound, the evidence asked anew holds up, and nothing refers to it |
| Store.Files.ReadBack | internal/fold/fold.go:506-528 | succeeds exactly when every part is readable and the whole has the recorded size and digest |
| Store.Files.Unfold | internal/fold/unfold.go:76-104 | returns exactly what the session's manifest restores to |
| RoundTrip.FoldInto | internal/fold/fold.go:81-419 | an applying fold keeps all other sessions, and its session restores to the rollout unless the digest collides for it |
| RoundTrip.FoldThenUnfold | internal/fold/unfold.go:35-127 | a folded rollout comes back byte for byte, also after a collection that dies anywhere |
| RegistrySpec.UpdateIff | internal/cli/fs_managed_registry.go:84-196 | an update succeeds exactly when the request is sensible, the file is still the one the writer saw, no observation is behind its entry and a revision is left if one is needed; it leaves exactly the observed entries and those not removed, at the next revision exactly when something was to be written; every error says what is wrong |
| RegistrySpec.EveryPublicationCounts | internal/cli/fs_managed_registry.go:146-196 | the file stays or is replaced at exactly the next revision; the writer is told what is there; removed entries are gone |
| RegistrySpec.EntryStays | internal/cli/fs_managed_registry.go:230-255 | an entry that is not removed stays, at the same or a higher generation |
| RegistrySpec.RevisionNeverFalls | internal/cli/fs_managed_registry.go:166-181 | over any run the revision never falls, and an unchanged revision means an unchanged file |
| RegistrySpec.GenerationNeverFalls | internal/cli/fs_managed_registry.go:230-255 | over any run an entry that nobody removes stays and its generation never falls |
| RegistrySpec.FencedOut | internal/cli/fs_managed_registry.go:162-165 | once an entry is gone, no run of writers that swap against an earlier revision brings it back |
| RegistrySpec.StaleComesBackIff | internal/cli/fs_managed_registry.go:159-165 | a well-formed request from before the fence brings the entry back exactly when it carries no expected revision |
| RegistrySpec.BootstrapUndoesFence | internal/cli/fs_managed_registry.go:126-158 | a concrete run in which a bootstrap write restores a fenced-out entry |
| ManagedRegistry.Normalise | internal/cli/fs_managed_registry.go:198-209 | accepts exactly lists of safe, distinct ids with positive generations, and keeps their entries |
| ManagedRegistry.MergeEntries | internal/cli/fs_managed_registry.go:230-255 | prior entries minus removals, overridden by observations, refused exactly when one would go backwards |
| ManagedRegistry.RegistryFile.CheckRemovals | internal/cli/fs_managed_registry.go:211-228 | refuses exactly unsafe removals and removals that are also observed |
| ManagedRegistry.RegistryFile.Write | internal/cli/fs_managed_registry.go:84-196 | the file and the answer are those of the specification, on every path |
| ManagedRegistry.RegistryFile.RemoveIfPresent | internal/cli/fs_managed_registry_integration.go:103-131 | success means gone at a new revision, and without other writers nothing else changed; giving up means other writers published at least eight times; nothing else can fail but an unsafe id or the revision limit |
| ManagedRegistry.RegistryFile.UpsertIfPresent | internal/cli/fs_managed_registry_integration.go:133-157 | success means exactly this generation, and without other writers no other entry changed; a refusal means a higher one is there; giving up means eight foreign publications |
| FinalFence.Daemon.Observation | internal/cli/fs_managed_registry_integration.go:187-212 | the planned entries give every id its exact goal generation |
| FinalFence.PlannedNeverConflicts | internal/cli/fs_managed_registry_integration.go:190-219 | the planned update can neither go backwards nor observe what it removes |
| FinalFence.Daemon.Publish | internal/cli/fs_managed_registry_integration.go:159-229 | never fails for a backwards generation or a conflict; on success every id has exactly its goal generation and memory forgets the removals |
| FinalFence.GoalKeepsRegistry | internal/cli/fs_managed_registry_integration.go:195-212 | nothing unremoved is dropped or lowered, nothing removed stays, a session known only to memory is never added |
| FinalFence.RetainedGenerations | internal/cli/fs.go:1447-1465 | the newest generation of each session on disk |
| FinalFence.Raise | internal/cli/fs.go:1467-1473 | each eligible generation becomes the larger of the two |
| FinalFence.ToEntries | internal/cli/fs.go:1475-1485 | exactly the positive generations, each id once |
| FinalFence.ActiveStates | internal/cli/fs.go:1495-1505 | exactly the states of sessions that are not deleted |
| FinalFence.ActiveIssues | internal/cli/fs.go:1505-1511 | exactly the issues of sessions that are not deleted |
| FinalFence.RetainedIds | internal/cli/fs.go:1434-1445 | exactly the sessions that disk metadata names |
| Pool.RunGroup | internal/cli/native_retirement_batch.go:42-82 | ends; each started session is reported exactly once, and no other, with its own result; all are started unless cancelled, and none after a cancellation; never more than min(workers,16) at a start, and one when storage is not idle in that turn; the dispatcher waits only when it may not start another |
| Pool.RunTogether | internal/cli/native_retirement_batch.go:53-82 | the same, for two workers or more |
| Pool.TakeTurn | internal/cli/native_retirement_batch.go:59-81 | a turn starts the next session if it may, else receives one if there is one; the books stay right and the loop comes closer to its end |
| Pool.Finish | internal/cli/native_retirement_batch.go:72-73 | a finishing session always finds room in the channel |
| Pool.Receive | internal/cli/native_retirement_batch.go:76-80 | one waiting outcome moves from the channel to the report |
| Pool.RunInOrder | internal/cli/native_retirement_batch.go:44-52 | one worker runs and reports in order, and starts none from the cancellation on |
| Planner.PersistentBytes | internal/enroll/planner.go:279-292 | the exact triple estimate, and exactly when it fits 64 bits |
| Planner.AddBytes | internal/enroll/planner.go:294-299 | the exact sum, or overflow exactly when it does not fit |
| Planner.EarlyTells | internal/enroll/planner.go:122-161 | a session fails the early checks exactly when one of their reasons holds for it, and the first in order is given |
| Planner.LateTells | internal/enroll/planner.go:171-202 | past the early checks exactly the reasons that hold are given, and a session is ready exactly when none does |
| Planner.Reasons | internal/enroll/planner.go:171-202 | no reason exactly when the session is ready |
| Planner.Price | internal/enroll/planner.go:203-239 | a priced session is selected only within the batch and the budget, with the exact running total; each failure has its cause in this session and this batch |
| Planner.Decide | internal/enroll/planner.go:171-239 | the decision is right for its session; it fails for the writer probe exactly when the probe of this session does, and else with a cause in this session and this batch |
| Planner.Sort | internal/enroll/planner.go:110-116 | the same sessions, least recently updated first, ties by id |
| Planner.BuildInOrder | internal/enroll/planner.go:117-243 | the planning loop over sessions in order; there is a plan exactly when nobody cancels and no session makes the cycle fail; a failure is caused by one of them, after the decisions and the batch before it |
| Planner.Build | internal/enroll/planner.go:96-243 | the sessions are decided in planning order; every decision has exactly its reasons; the batch is within its size; every prefix of it fits 64 bits and was put to the budget; a ready session is left out only for the batch limit or the budget; exactly the visible sessions are observed; there is a plan exactly when nobody cancels and no session makes the cycle fail; every failure is caused by the first such session, after the decisions and the batch before it |
| Planner.StableSinceACycle | internal/enroll/planner.go:162-169 | over chained cycles an observation's stability time is that of the first cycle of the unbroken stretch that saw the same rollout |
| Planner.ReadyIff | internal/enroll/planner.go:162-198 | a session is ready exactly when nothing else is in its way, the unbroken stretch of cycles that saw the same path, size and modification time spans the stability window, and so does the modification time |
| Planner.ReadyMeansStable | internal/enroll/planner.go:189-198 | a session is ready only if consecutive cycles spanning the stability window all saw the same path, size and modification time |

## Left out

- A retired session is never migrated again in the retirement model.
- Deletion tombstones other than at the cutover and in the recovery of migrations, legacy snapshots inside the canonical namespace, AppleDouble sidecars and the loop over several pending sessions in retirement recovery; each would multiply cases without a stronger property.
- RetirementRecovery.SessionStore.CompleteCanonicalRetirement: what the outside world shows at each look is a parameter, and of the owner handoff only its three outcomes are modelled.
- Migration.Rollout.Migrate: equal size and digest count as the same bytes; a native writer interferes at two points of a migration, not at every one.
- Migration.Rollout.RecoverInterrupted: the deletion lock, explicit namespace routes and the errors of reading metadata are not modelled.
- Archive.World.Archive: other processes act at one moment, right after the rename; nothing looks at either path between that moment and the commit.
- Fold.FoldRun.Run: JSON field search, the record index, the storage estimate and the gear table are parameters; field spans are taken to be in range, in order and disjoint. Errors of the store while parts are emitted end a fold and are not modelled.
- Cdc.MaskSeesLastBytes: the mask is written as a remainder by the average size, which is a power of two.
- Store.ObjectStore.Put: compression, a rename that fails, and a fallback reader over packs are not modelled.
- StoreProtocol.PowerLossCanBreakAManifest: the order in which a real disk loses unsynced files is not modelled; any subset may be lost.
- Accounting of dry runs and of reclaimed bytes, and the removal of the rollout after a commit that asks for it.
- DigestSet.MergeRuns: the heap is its minimum operation, the library sort is an insertion sort.
- Family.Compare: byte comparison of two records is equality of the records, and the check for changes is taken to notice every change.
- ManagedRegistry.Normalise: entry lists become maps, so the sorting of the file is not modelled; nor are its size limit and encoding.
- ManagedRegistry.RegistryFile.CheckRemovals: when a request has both an unsafe and a conflicting removal the source reports whichever it meets first.
- Planner.Build: the saturation of time differences is not modelled; session paths are taken as cleaned.
- Pool.RunGroup: a session that never returns is not modelled.
- CheckpointChain.LoadStateProof: the checks of the current artifacts and of the directory's other files are one parameter.
- Service management, mounting, command wiring, JSON output, compatibility checks, benchmarks, and the packages for packs, pruning, scanning and reconciliation.
