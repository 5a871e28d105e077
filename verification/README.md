# Verified model of teodb

A Dafny model of the parts of teodb in which a mistake costs data: the append
protocol between ingest writers and the Iceberg catalog, crash recovery from the
write-ahead log, compaction by removal markers, snapshot retention, and a few
self-contained algorithms. `dafny verify dfyconfig.toml` checks everything.

## What is modelled

- **Append protocol.** `WriteProtocol.dfy` (identities, snapshot summaries, writer
  checkpoints), `AppendGuard.dfy` (the write guard and the status check),
  `CommitError.dfy` (what an attempt reports). `AppendLog.dfy` and
  `AppendProtocol.dfy` make a state machine of it: any number of attempts load,
  validate, send, are applied, refused or rebased, lose their replies, and race with
  replaces, expiry, drops and re-creations. `AppendSafety.dfy` proves the invariant,
  `AppendTheorems.dfy` the guarantees over whole runs, `AppendAdmission.dfy` what the guard
  answers, from the log alone, and `AppendExactness.dfy` what is left of the guarantees once
  history has expired. `PreparedRecovery.dfy` runs the resolution of a
  prepared flush against that machine, with a crash possible between any two steps.
- **Crash recovery.** `Idempotency.dfy` (the index, and its threads),
  `TableRecovery.dfy` (buffer, flush and sidecar of one table), `FlushOutcomes.dfy` (flushes
  that fail), `Replay.dfy` (one record), `Recovery.dfy` and `RecoveryRun.dfy` (the loop over
  the log and its theorems), `RecoveryPlaces.dfy` (when a record is in exactly one place),
  `RecoveryRoom.dfy` (when the buffer is large enough), `RecoveryProgress.dfy` and
  `IntentProgress.dfy` (when recovery gets through), `Replayer.dfy` (the object and its
  loops). What storage, clock and catalog answer is a parameter there;
  `RecoveryMachine.dfy` takes the answers about the intent from the append machine.
- **Compaction.** `Lineage.dfy` (the walk along parent pointers), `CompactionFiles.dfy`
  (files, deletes and logical rows), `Compaction.dfy` (what a replace exchanges),
  `CompactionCount.dfy` (the row-count check), `CompactionRun.dfy` (runs of appends,
  deletes and any number of compactions at once), `CompactionRace.dfy` (what can land
  between a compaction's check and its publication).
- **Retention and selection.** `Retention.dfy`, `RetainedFiles.dfy`, `Selection.dfy`.
- **Self-contained pieces.** `CivilDate.dfy`, `PartitionPath.dfy`, `RateAdmission.dfy` and
  `RateBound.dfy` (the rate limiter and how many requests it lets through),
  `PrincipalAdmission.dfy` (permits), `RateBoundReached.dfy` and
  `PrincipalBoundReached.dfy` (runs that reach the bounds). `OverflowStripes.dfy`,
  `Sizes.dfy` and `Wrappers.dfy` hold what several files share.

Where the source updates state in place the model has a class whose methods are proved
against functions on values, and the theorems are about those functions.

## Findings

Properties that do not hold of the code as it stands, each with a concrete case and the
exact condition under which it holds:

- Once another Iceberg client has expired snapshots (teodb itself does not remove them from
  the metadata yet, crates/teodb-core/src/snapshot_retention.rs:1-8), only the writer's
  checkpoint is left, which has no lower generation. A request that reuses a commit ID can then be told Ok although its identity
  was never published (`ReusedCommitIdAfterExpiry`). For every set of requests, Ok and
  Committed are exact in all runs over them if and only if no two of them agree on table,
  writer, epoch, commit ID and upper generation and differ in the lower one
  (`ExactIffNoTwins`); unique commit IDs are enough (`ReportIsExact`).
- After a successful recovery a replayed record can be in the buffer and in the catalog.
  Either the delayed original of its intent lands between the two reads of the writer's
  checkpoint (`LandingDoubles`), or recovery contains the intent although the catalog has
  it, as when its own retry loses the reply (`LostReplyDoubles`).
  `ExactlyOnceIffNotDoubled` says from log, sidecars and answers exactly when, and
  `PlacesFollowTheLog` from what the catalog has published.
- No flush makes room while a table has an unresolved intent, because the sidecar of the
  intent is in the way (`FlushStopsAtSidecar`). So all records replayed up to the intent's
  range have to fit into the buffer at once, not only those of the range: otherwise
  recovery fails (`AdmittedIfRoom`, `RecoveryNeedsRoom`, `NoRoomFails`; a log that cannot
  be recovered is `NoRoomExample`).
- A replace checks its base snapshot before its transaction reloads the table. Two
  compactions of one input can both pass and both publish, and the rows of the input are
  then in the table twice (`TwoCompactionsDouble`), although the coordination relies on
  at most one of them committing. A position delete of another client that lands between
  check and publication is undone (`LateDeleteUndone`). A run conserves the rows if and
  only if at every publication the table still shows of each input what the plan read
  (`RunConservesRows`).
- The rate limiter can let one key make more than its limit of requests within one window
  length: at most 3 times the limit for limits up to 2 and 4 times the limit less 2 above
  (`AtMostBest`), and for every limit there is a run that gets there (`BestIsReached`). A
  principal can hold twice its permits and no more (`TwiceIsReached`,
  `PrincipalIsBounded`).
- The unlocked check of the idempotency index can remove a newer receipt
  (`LateInvalidationReadmits`, `LateInvalidationHappens`); `HowLiveEntriesLeave` lists all
  ways in which a live receipt disappears.
- A position delete whose path ends in another file's key can be taken for that file's
  (`ClashResurrects`); `LookupIsExact` gives the exact condition.
- A row marked by two delete files makes the row-count check abort a correct rewrite
  (`DoubleMarkAborts`); `CheckIsExact` gives the exact condition.
- A `max_age` beyond the largest i64 of milliseconds is cut off there, so a snapshot younger
  than it can expire (`HugeAgeIsCut`); `ExpiredExactly` gives the exact condition.
- Timestamps before 1970 print negative times of day (`SecondBeforeEpoch`);
  `TimestampIsExact` gives the exact condition.

## Model

| member | source | states |
|---|---|---|
| `WriteProtocol.IdentityDefect` | crates/teodb-core/src/write_protocol.rs:235-256 | the first fault of an append identity, in the order the source checks; no fault exactly for a valid identity |
| `WriteProtocol.SnapshotMatches` | crates/teodb-core/src/write_protocol.rs:283-307 | a snapshot matches exactly when it carries the whole identity, is corrupt exactly when it carries the commit ID but not the identity, and the fault names the first property that differs |
| `WriteProtocol.SummarySpellsOneIdentity` | crates/teodb-core/src/write_protocol.rs:264-277 | a summary spells at most one identity: two identities carried by one summary are equal, table UUID included |
| `WriteProtocol.Decode` | crates/teodb-core/src/write_protocol.rs:335-380 | a checkpoint decodes exactly when it parses, is within the size bound and is valid; what is decoded is what was stored |
| `WriteProtocol.CheckpointRoundTrip` | crates/teodb-core/src/write_protocol.rs:330-380 | encoding a valid checkpoint and decoding it gives the checkpoint back |
| `WriteProtocol.ValidateWriterCheckpoints` | crates/teodb-core/src/write_protocol.rs:401-424 | succeeds exactly when every checkpoint key is canonical and every value decodes, and then returns the number of checkpoint entries |
| `WriteProtocol.SnapshotProperties` | crates/teodb-catalog/src/adapter/commit_metadata.rs:27-47 | fails exactly when the request already sets a reserved property, and otherwise yields the request's properties plus the identity and the engine version |
| `WriteProtocol.PublishedSummaryCarriesIdentity` | crates/teodb-catalog/src/adapter/commit_metadata.rs:27-47 | the summary an append publishes carries an identity exactly when it is the request's own |
| `WriteProtocol.PublishedSummaryRoundTrip` | crates/teodb-catalog/src/adapter/commit_metadata.rs:27-47 | the identity written by an append is the one that the snapshot match finds, and no other commit ID is found in it |
| `AppendGuard.AppendAttemptGuard.constructor` | crates/teodb-catalog/src/adapter/append_attempt_guard.rs:87-102 | a guard starts with no recorded rejection and no invocation |
| `AppendGuard.AppendAttemptGuard.Reject` | crates/teodb-catalog/src/adapter/append_attempt_guard.rs:133-144 | records the rejection that is later reported |
| `AppendGuard.AppendAttemptGuard.TakeRejection` | crates/teodb-catalog/src/adapter/append_attempt_guard.rs:104-110 | hands the recorded rejection out once and clears it |
| `AppendGuard.AppendAttemptGuard.Validate` | crates/teodb-catalog/src/adapter/append_attempt_guard.rs:146-231 | admits exactly the requests whose verdict is Admit and records the verdict otherwise; the verdict is stated over history, registry and checkpoint, not over the scan, and `AppendAdmission` says from the log when it is which |
| `AppendGuard.ScanHistory` | crates/teodb-catalog/src/adapter/append_attempt_guard.rs:178-189 | one pass over the snapshots decides whether the identity is in history and finds a reused commit ID |
| `AppendGuard.ResolveAppendStatus` | crates/teodb-catalog/src/adapter/catalog.rs:112-172 | the status of a request for every answer of the load: exact, not committed, unknown, or corrupt; `StatusByLoad` says when it is which |
| `AppendGuard.StatusByLoad` | crates/teodb-catalog/src/adapter/catalog.rs:112-172 | a valid request gets Unknown if and only if the load failed, and NotCommitted if and only if the table is missing, or is of this incarnation with a readable registry and no record of the commit ID |
| `AppendGuard.StatusAgreesWithGuard` | crates/teodb-catalog/src/adapter/catalog.rs:112-172 | for every loaded table of the request's incarnation and every valid request: Committed exactly when the guard says AlreadyCommitted, corrupt exactly when the guard says corruption |
| `AppendGuard.ReuseIsCorruption` | crates/teodb-catalog/src/adapter/append_attempt_guard.rs:178-209 | a commit ID found with a different identity is corruption for the guard and for the status check |
| `CommitError.IsPreDispatchConnectFailure` | crates/teodb-catalog/src/adapter/commit_error.rs:33-45 | the walk along the source chain finds a connect failure exactly if some link is one |
| `CommitError.Classify` | crates/teodb-catalog/src/adapter/commit_error.rs:12-27 | a conflict exactly for the two conflict kinds, unknown exactly for an unexpected error without a connect failure, retryable exactly for a connect failure or a retryable error of another kind |
| `CommitError.GuardResult` | crates/teodb-catalog/src/adapter/commit.rs:215-237 | what an attempt reports, from the stored rejection and the catalog's error |
| `AppendLog.GenerationsDisjoint` | crates/teodb-catalog/src/adapter/append_attempt_guard.rs:216-227 | in a good log two appends of one writer that share a generation are the same append |
| `AppendLog.IdentityPublishedOnce` | crates/teodb-catalog/src/adapter/append_attempt_guard.rs:178-209 | in a good log an identity is published at most once |
| `AppendSafety.AdmitMeans` | crates/teodb-catalog/src/adapter/append_attempt_guard.rs:146-231 | what an Admit verdict says about a table that reflects the log: a valid identity of this incarnation, beyond the writer's checkpoint in generation and not behind it in epoch |
| `AppendSafety.AdmittedComesLast` | crates/teodb-catalog/src/adapter/commit.rs:61-91 | a request admitted on a base whose head is still current comes after every append of its writer in the whole log |
| `AppendSafety.LandedMeansPublished` | crates/teodb-catalog/src/adapter/append_attempt_guard.rs:178-209 | AlreadyCommitted on a table that reflects the log means that the log holds a matching append |
| `AppendSafety.StepKeepsInv` | crates/teodb-catalog/src/adapter/commit.rs:61-155 | every step of the protocol (begin, load, validate, send, apply, refuse, rebase, reply, lost reply, replace, expiry, drop, create) keeps the invariant that table, log and attempts agree |
| `AppendSafety.RunKeepsInv` | crates/teodb-catalog/src/adapter/commit.rs:61-155 | the invariant holds in every state of every run |
| `AppendAdmission.RefusedFromLog` | crates/teodb-catalog/src/adapter/append_attempt_guard.rs:146-209 | with history kept: corruption exactly if the log has the commit ID under another identity, already committed exactly if it has the request, and otherwise one of the four answers about the writer exactly if the request is valid, of this incarnation and under a new commit ID |
| `AppendAdmission.AdmittedFromLog` | crates/teodb-catalog/src/adapter/append_attempt_guard.rs:146-231 | with history kept a request is admitted if and only if it is valid, of this incarnation and under a new commit ID, and comes after its writer's newest append in generation and not before it in epoch, or its writer is new and there are fewer writers than the limit |
| `AppendAdmission.BehindFromLog` | crates/teodb-catalog/src/adapter/append_attempt_guard.rs:211-229 | stale epoch, overlapping range and full registry are each given exactly when the newest append of the writer, or the number of writers, says so, with the epoch and generation of that append |
| `AppendAdmission.LoadIsDecidedByLog` | crates/teodb-catalog/src/adapter/commit.rs:61-91 | in every run without expiry a loading attempt sends its request if and only if the log admits it |
| `AppendAdmission.AdmissibleCanPublish` | crates/teodb-catalog/src/adapter/commit.rs:61-91 | from every state that such runs reach, an admissible request can be begun, loaded, sent and applied |
| `AppendAdmission.RefusedCanPublish` | crates/teodb-catalog/src/adapter/commit.rs:61-91 | an attempt whose request was refused can load the table again, be published if the log still admits it, and report Ok |
| `AppendAdmission.FailureIsReported` | crates/teodb-catalog/src/adapter/commit.rs:215-237 | a transport error ends the attempt, reported as unknown exactly if the request may have been dispatched and as a definite failure otherwise |
| `AppendAdmission.RefusedOrDroppedIsNotApplied` | crates/teodb-catalog/src/adapter/commit.rs:61-91 | a refused request, or one to a dropped table, cannot be applied |
| `AppendAdmission.NextIncarnationIsSafe` | crates/teodb-catalog/src/adapter/commit.rs:61-91 | in every run a request sent to one incarnation cannot be applied to the next one |
| `AppendAdmission.UpdateKeepsCheckpoints` | crates/teodb-catalog/src/adapter/commit_metadata.rs:49-63 | property updates of other clients take effect and leave every writer's checkpoint alone |
| `AppendAdmission.TwoWritersPublish` | crates/teodb-catalog/src/adapter/append_attempt_guard.rs:211-231 | a run in which one writer publishes twice in one epoch and another writer publishes too |
| `AppendTheorems.GenerationsPublishedOnce` | crates/teodb-catalog/src/adapter/append_attempt_guard.rs:211-231 | in every run each (table UUID, writer, generation) is published by at most one append; a writer's ranges strictly increase and its epochs never decrease, whatever has expired |
| `AppendTheorems.RegistryAgreesWithHistory` | crates/teodb-catalog/src/adapter/commit_metadata.rs:49-63 | in every reachable table a writer has a checkpoint exactly when it has published, it decodes to its newest append, every entry is valid and the bound holds |
| `AppendTheorems.AppendAltersOnlyOwnCheckpoint` | crates/teodb-catalog/src/adapter/commit_metadata.rs:49-63 | publishing an append changes no other writer's checkpoint |
| `AppendTheorems.AppliedRequestIsNew` | crates/teodb-catalog/src/adapter/append_attempt_guard.rs:178-209 | only a request that has never been published can be applied |
| `AppendTheorems.PublishedRequestIsInert` | crates/teodb-catalog/src/adapter/commit.rs:215-225 | no step of an attempt on a published request changes table or log |
| `AppendTheorems.LogGrows` | crates/teodb-catalog/src/adapter/commit.rs:61-91 | the log only grows along a run |
| `AppendTheorems.DefiniteFailureIsFinal` | crates/teodb-catalog/src/adapter/commit_error.rs:12-45 | an attempt that reported a definite failure has published nothing and never will |
| `AppendTheorems.LostReplyIsNeverDefiniteFailure` | crates/teodb-catalog/src/adapter/commit_error.rs:12-45 | a published append is reported as Ok or as unknown, never as a definite failure |
| `AppendTheorems.OkMeansLandedOnce` | crates/teodb-catalog/src/adapter/commit.rs:215-225 | every attempt that reports Ok leaves exactly one entry that agrees with it on writer, commit, epoch and upper generation |
| `AppendTheorems.RunKeepsHistory` | crates/teodb-catalog/src/adapter/catalog.rs:112-172 | as long as nothing is expired, commit IDs stay unique and every reported success is exact |
| `AppendTheorems.StatusIsExact` | crates/teodb-catalog/src/adapter/catalog.rs:112-172 | with history kept the status is Committed if and only if the exact identity has been published |
| `AppendTheorems.OkAndCommittedAreExact` | crates/teodb-catalog/src/adapter/catalog.rs:112-172 | with history kept, Ok or Committed means published exactly once, and Committed stays the answer for the rest of the incarnation |
| `AppendExactness.ReportIsExact` | crates/teodb-catalog/src/adapter/catalog.rs:112-172 | in every run, expiry included: if every attempt begun with this table and commit ID carries this identity, Ok or Committed means that exactly this identity was published, once |
| `AppendExactness.WrongReportHasTwin` | crates/teodb-catalog/src/adapter/append_attempt_guard.rs:178-209 | in every run an Ok or Committed for an unpublished identity implies an attempt begun earlier with the same table, writer, epoch, commit and upper generation and another lower one |
| `AppendExactness.StatusAfterExpiry` | crates/teodb-catalog/src/adapter/catalog.rs:112-172 | in every run a published append whose commit ID is its own is Committed exactly while its snapshot is retained or it is its writer's newest, NotCommitted otherwise, and the guard never admits it again |
| `AppendExactness.TwinIsToldOk` | crates/teodb-catalog/src/adapter/append_attempt_guard.rs:178-209 | for any two such twins there is a run that begins only them and in which, after expiry, the second is told Ok and never published |
| `AppendExactness.ReusedCommitIdAfterExpiry` | crates/teodb-catalog/src/adapter/append_attempt_guard.rs:178-209 | such a run for generations 2 to 5 and 3 to 5 under one commit ID |
| `AppendExactness.ExactIffNoTwins` | crates/teodb-catalog/src/adapter/catalog.rs:112-172 | for every set of valid requests: Ok and Committed are exact in all runs over them if and only if no two are twins |
| `PreparedRecovery.ActKeepsInv` | crates/teodb-ingest/src/replay.rs:316-390 | every action of resolving a prepared flush, crashes and restarts included, keeps the invariant of node and catalog |
| `PreparedRecovery.RecoveryKeepsInv` | crates/teodb-ingest/src/replay.rs:316-390 | the invariant holds over every sequence of crashes and recoveries |
| `PreparedRecovery.IntentPublishedAtMostOnce` | crates/teodb-ingest/src/replay.rs:316-372 | over every such sequence the intent is published at most once |
| `PreparedRecovery.SidecarRemovedOnlyWhenPublished` | crates/teodb-ingest/src/replay.rs:374-390 | the sidecar is gone only if the intent's exact identity is in the catalog |
| `PreparedRecovery.RestingStates` | crates/teodb-ingest/src/replay.rs:316-390 | wherever resolution comes to rest, the sidecar is on disk unless the intent is published |
| `PreparedRecovery.OtherOutcomesAreContained` | crates/teodb-ingest/src/replay.rs:333-371 | every step out of a resolution: proof of publication, one append attempt after NotCommitted, a crash with the sidecar kept, or containment; contained exactly on the answers of status check or append that prove nothing |
| `PreparedRecovery.UnreachableIsContained` | crates/teodb-ingest/src/replay.rs:329-361 | with a valid intent the status check of an unreachable catalog contains the intent and begins nothing |
| `PreparedRecovery.RetriedOnlyIfUnrecorded` | crates/teodb-ingest/src/replay.rs:329-339 | the status check begins another attempt if and only if the catalog was reached and has no such table, or one of this incarnation without a record of the commit ID |
| `PreparedRecovery.CompletionIsInOrder` | crates/teodb-ingest/src/replay.rs:374-390 | over every history of crashes the sidecar is gone only after the WAL cutoff is marked, and that only after the buffer |
| `PreparedRecovery.CrashedIsRestored` | crates/teodb-ingest/src/replay.rs:323-328 | from every state with a sidecar: a crash loses only memory, and a restart can find the sidecar and restore its range |
| `PreparedRecovery.ShownIntentIsProven` | crates/teodb-ingest/src/replay.rs:329-336 | an intent the catalog shows is proven by the status check, the catalog untouched |
| `PreparedRecovery.RetryProvesIff` | crates/teodb-ingest/src/replay.rs:337-354 | a retry proves the intent if and only if it returns Ok, and contains it otherwise |
| `PreparedRecovery.ProvenCompletes` | crates/teodb-ingest/src/replay.rs:374-390 | from proof of publication the completion can run through: table idle, cutoff marked, sidecar gone |
| `PreparedRecovery.FailedStepKeepsSidecar` | crates/teodb-ingest/src/replay.rs:316-390 | a failing step brings the process down and changes nothing durable |
| `Idempotency.ClaimAnswer` | crates/teodb-ingest/src/idempotency.rs:104-136 | a claim is a duplicate exactly while a completed entry is within its time-to-live and then returns its receipt, in progress exactly while another claim is within its own, and acquired otherwise; the new index in each case |
| `Idempotency.IdempotencyIndex.CompletedDuplicate` | crates/teodb-ingest/src/idempotency.rs:104-111 | a live receipt or none; an expired entry is invalidated |
| `Idempotency.IdempotencyIndex.TryClaim` | crates/teodb-ingest/src/idempotency.rs:115-136 | the double check with its invalidations amounts to the one answer of ClaimAnswer, for the result and for the new index |
| `Idempotency.IdempotencyIndex.Complete` | crates/teodb-ingest/src/idempotency.rs:139-150 | completion moves a claim in progress to the completed cache under its claim time, and does nothing without one |
| `Idempotency.CompletedKeepsClaimTime` | crates/teodb-ingest/src/idempotency.rs:139-150 | the completed entry has the receipt and the time of the claim, the claim is gone, and no other key changes unless the cache drops it |
| `Idempotency.IdempotencyIndex.Abort` | crates/teodb-ingest/src/idempotency.rs:153-157 | an aborted claim is in progress no more |
| `Idempotency.IdempotencyIndex.EvictTable` | crates/teodb-ingest/src/idempotency.rs:176-178 | the table starts empty again |
| `IdempotencyThreads.AtMostOneClaimOutstanding` | crates/teodb-ingest/src/idempotency.rs:115-157 | in every interleaving, under any cache eviction, at most one thread holds a key, and a key in progress is held by someone, if holders finish within the time-to-live |
| `IdempotencyThreads.LiveKeyAnswersOriginal` | crates/teodb-ingest/src/idempotency.rs:104-136 | while a completed key is cached and alive, every check of it, also by a thread that started earlier, answers with the original receipt |
| `IdempotencyThreads.HowLiveEntriesLeave` | crates/teodb-ingest/src/idempotency.rs:104-111 | a live entry is never overwritten, and it leaves the cache exactly by eviction or by the late invalidation of a thread that saw an older entry |
| `IdempotencyThreads.LiveRemovalIsLate` | crates/teodb-ingest/src/idempotency.rs:104-111 | in every run a receipt that is live for the thread that invalidates it was completed after that thread's check |
| `IdempotencyThreads.LateInvalidationReadmits` | crates/teodb-ingest/src/idempotency.rs:104-136 | such a late invalidation removes the live receipt and its thread then acquires the key a second time |
| `IdempotencyThreads.LateInvalidationHappens` | crates/teodb-ingest/src/idempotency.rs:104-136 | a schedule without evictions that reaches that state |
| `TableRecovery.FlushStopsAtSidecar` | crates/teodb-storage/src/wal/prepared.rs:75-86 | while an intent is unresolved a flush of earlier generations is empty or fails at the intent's sidecar, before it reaches the catalog, and changes neither sidecar nor appends nor what is buffered |
| `TableRecovery.FlushKeepsInv` | crates/teodb-ingest/src/flush/mod.rs:116-220 | a committed flush turns all pending records into one append above the checkpoint and keeps the table's invariant |
| `TableRecovery.CommittedFlush` | crates/teodb-ingest/src/flush/commit.rs:22-84 | a flush commits if and only if the table is idle with rows pending, no other intent holds the sidecar, all pending generations lie above the high-water mark and the catalog publishes; what was pending is then one new append |
| `FlushOutcomes.FailedFlushLosesNothing` | crates/teodb-ingest/src/flush/mod.rs:116-220 | a flush that does not commit keeps every record in the buffer and adds no append |
| `FlushOutcomes.RowsReturnIff` | crates/teodb-ingest/src/flush/commit.rs:22-84 | the rows are pending again if and only if the files could not be written or the catalog rejected the append for good, and then no sidecar of the flush is left |
| `FlushOutcomes.BlockedIff` | crates/teodb-ingest/src/flush/commit.rs:22-84 | the table is blocked if and only if the catalog says so or the range is not above the high-water mark; unless the rows are returned, they and the sidecar belong to the intent |
| `FlushOutcomes.FlushIsRecorded` | crates/teodb-ingest/src/flush/mod.rs:116-220 | every flush of rows is on record with what it drained, the unresolved intent and whether it reached the catalog |
| `TableRecovery.RestoredRange` | crates/teodb-ingest/src/buffer/table.rs:521-581 | restoring an intent reclaims exactly the pending records of its range, or nothing if the checkpoint covers it |
| `TableRecovery.ResolveKeepsInv` | crates/teodb-ingest/src/replay.rs:316-390 | resolving an intent, proven or contained, keeps the table's invariant |
| `TableRecovery.ResolveSettles` | crates/teodb-ingest/src/replay.rs:316-390 | a resolved intent is published with its sidecar gone, or kept with the table blocked |
| `TableRecovery.InsertKeepsInv` | crates/teodb-ingest/src/buffer/table.rs:313-345 | admitting the next record keeps the table's invariant |
| `TableRecovery.WhereRecordsAre` | crates/teodb-ingest/src/replay.rs:117-240 | a replayed record is in the buffer only, in the catalog only, or in both; in both exactly if an append found published covers it or one the catalog holds without proof |
| `Replay.RecoveryKeys` | crates/teodb-ingest/src/replay.rs:409-428 | the keys of all records and sidecars; refuses a table name that stands for two incarnations |
| `Replay.LoadTargetMetadata` | crates/teodb-ingest/src/replay.rs:278-314 | fails exactly on an unreadable table, another incarnation or a bad registry; leaves missing tables out; returns each writer checkpoint of the right incarnation; one key per table name |
| `Replay.HandleKeepsInv` | crates/teodb-ingest/src/replay.rs:117-240 | one record, whatever storage and catalog answer, keeps the invariant of its table |
| `Replay.AdmittedIfItFits` | crates/teodb-ingest/src/replay.rs:161-206 | with an unresolved intent a record is admitted if and only if it fits into the buffer as it is |
| `Replay.HandleStaysBelow` | crates/teodb-ingest/src/replay.rs:182-197 | one record never makes recovery overtake an unresolved intent, whether or not recovery fails at it |
| `Recovery.HandleLeavesNoClaim` | crates/teodb-ingest/src/replay.rs:143-228 | handling a record leaves no claim behind that was not there before, on success and on failure |
| `Recovery.HandleKnows` | crates/teodb-ingest/src/replay.rs:143-160 | a record is set aside only if an earlier replayed record of its table brought its key in |
| `Recovery.HandleRemembers` | crates/teodb-ingest/src/replay.rs:143-228 | while nothing is evicted or expires, a key brought in is remembered with its record's receipt, so it is not replayed again |
| `RecoveryRun.RecoveryIsComplete` | crates/teodb-ingest/src/replay.rs:69-260 | on success every record has exactly one outcome, dropped exactly if its table is gone and committed exactly if the checkpoint covers it; every replayed record is buffered or was given up for one proven append; an append in the catalog without proof is one its table is blocked on; every intent is settled |
| `RecoveryRun.ReplayedExactlyOnce` | crates/teodb-ingest/src/replay.rs:117-240 | after a successful recovery a replayed record is in exactly one place, buffer or catalog, if and only if no append found published and none without proof covers it; otherwise it is in both |
| `RecoveryRun.RecoveryNeverOvertakes` | crates/teodb-ingest/src/replay.rs:182-239 | whether or not recovery succeeds, every flush it issued on a table with an unresolved intent drained only generations below the intent's range and never reached the catalog, and no claim is left |
| `RecoveryRun.DeduplicationIsExact` | crates/teodb-ingest/src/replay.rs:143-160 | starting from an empty index, a record is set aside only for an earlier one with its key, and always while nothing is evicted or expires; the index then holds the receipts of the replayed records |
| `RecoveryPlaces.HandleTraced` | crates/teodb-ingest/src/replay.rs:117-240 | after every record the table's state is determined by the answers at the turn that loaded its buffer and at the turn that resolved its intent |
| `RecoveryPlaces.LoadTurnIsFirst` | crates/teodb-ingest/src/replay.rs:137-142 | the buffer is loaded at the first record of the table that the checkpoint does not cover |
| `RecoveryPlaces.ResolveTurnIsFirst` | crates/teodb-ingest/src/replay.rs:230-239 | the intent is resolved at the first replayed record that reaches the end of its range |
| `RecoveryPlaces.ExactlyOnceIffNotDoubled` | crates/teodb-ingest/src/replay.rs:117-254 | for every replayed record of every successful recovery: exactly once in buffer or catalog if and only if it is in no intent's range, or its intent had not landed at the turn that loaded the buffer and was not contained while the catalog had it |
| `RecoveryPlaces.LandingDoubles` | crates/teodb-ingest/src/buffer/registry.rs:53-98 | a recovery that succeeds with its only record pending in the buffer and in the catalog, because the intent landed between the two reads |
| `RecoveryPlaces.LostReplyDoubles` | crates/teodb-ingest/src/replay.rs:341-348 | a recovery that succeeds with its only record in flight in a blocked buffer and in the catalog, because the reply of the retry was lost |
| `RecoveryRoom.AdmittedIfRoom` | crates/teodb-ingest/src/replay.rs:161-206 | with an unresolved intent a record is admitted if and only if it fits beside all records replayed to its table so far |
| `RecoveryRoom.RecoveryNeedsRoom` | crates/teodb-ingest/src/replay.rs:182-197 | a successful recovery had room for everything replayed to a table up to the record that resolved its intent |
| `RecoveryRoom.NoRoomFails` | crates/teodb-ingest/src/replay.rs:182-227 | if such a record comes to admission without room, recovery fails, whatever the catalog answers |
| `RecoveryRoom.NoRoomExample` | crates/teodb-ingest/src/replay.rs:186-197 | two records that each fit, the second of them prepared: recovery fails for all answers |
| `RecoveryProgress.AdmittedWithoutIntent` | crates/teodb-ingest/src/replay.rs:161-206 | without an unresolved intent a record is admitted if and only if its generation is usable and it fits beside what is buffered, or there is a flusher, the flush commits and the record alone fits |
| `RecoveryProgress.AdmittedIsPending` | crates/teodb-ingest/src/replay.rs:161-206 | an admitted record is pending after everything before it, or alone with everything before it in one new append |
| `RecoveryProgress.LargeLogRecovers` | crates/teodb-ingest/src/replay.rs:117-240 | a log without sidecars is recovered, however large, if every record that is needed fits into the buffer alone and every flush publishes |
| `RecoveryProgress.RecoversIffNeededFit` | crates/teodb-ingest/src/replay.rs:117-240 | without idempotency keys, and with flushes that publish, recovery succeeds if and only if every record that is needed fits alone |
| `RecoveryProgress.TwoRecordsRecover` | crates/teodb-ingest/src/replay.rs:186-206 | two records that do not fit together: the first is flushed, the second is pending, recovery succeeds |
| `IntentProgress.RestoredIff` | crates/teodb-ingest/src/buffer/table.rs:521-581 | an intent can be restored if and only if the checkpoint covers it or both ends of its range are pending |
| `IntentProgress.ResolvedIff` | crates/teodb-ingest/src/replay.rs:316-390 | recovery goes on after a resolution if and only if the intent can be restored and is contained, or proven with its sidecar removed |
| `IntentProgress.ProvenRaisesMark` | crates/teodb-ingest/src/buffer/table.rs:659-694 | a proven intent raises the high-water mark to the end of its range and never lowers it |
| `IntentProgress.MarkNeverFalls` | crates/teodb-ingest/src/replay.rs:117-240 | no record lowers a table's high-water mark |
| `IntentProgress.LeftoverSettledIff` | crates/teodb-ingest/src/replay.rs:243-254 | a sidecar left after the loop is settled if and only if its buffer is there or can be loaded and the resolution succeeds |
| `IntentProgress.UnloadableFails` | crates/teodb-ingest/src/replay.rs:137-142 | a record whose table cannot be loaded fails recovery if and only if the checkpoint does not cover it |
| `IntentProgress.LogWithIntentsRecovers` | crates/teodb-ingest/src/replay.rs:69-260 | a log with sidecars is recovered, however large, if every intent is of a surviving table with both ends of its range in the log and room for its records, or covered by the checkpoint, every record that is needed fits alone, the catalog proves the intents and every flush publishes |
| `RecoveryMachine.MarkMoves` | crates/teodb-catalog/src/adapter/commit_metadata.rs:49-63 | between two states the writer's newest generation moves to the intent's upper one if the intent is published and beyond it, and not at all otherwise |
| `RecoveryMachine.BufferStartsAtCheckpoint` | crates/teodb-ingest/src/buffer/registry.rs:53-98 | for any two states of a history of crashes and recoveries: told of the publication of the intent, a buffer loaded in the second state starts at the checkpoint that the catalog holds then, whatever the first read returned |
| `RecoveryMachine.PlacesFollowTheLog` | crates/teodb-ingest/src/replay.rs:117-254 | with the answers of the append machine: a replayed record of the intent's range is in the catalog, as recovery accounts for it, if and only if the log has the intent, and in the buffer too if and only if the intent was published before the buffer was loaded, or was published and could not be proven |
| `WalReplayer.Replayer.InsertWithFlush` | crates/teodb-ingest/src/replay.rs:161-206 | admission with at most one flush and one retry, and never a flush past the intent's lower bound |
| `WalReplayer.Replayer.HandleRecord` | crates/teodb-ingest/src/replay.rs:117-239 | the loop body changes table and index as the specified step, and claims are aborted or completed in place |
| `WalReplayer.Replayer.ReplayRecords` | crates/teodb-ingest/src/replay.rs:117-240 | the loop with its early return is the fold of the specified step over the log |
| `WalReplayer.Replayer.ResolveLeftovers` | crates/teodb-ingest/src/replay.rs:243-254 | the sidecars left after the loop are settled one by one, failing at the first that cannot be |
| `WalReplayer.Replayer.ReplayWal` | crates/teodb-ingest/src/replay.rs:69-276 | the whole recovery, from keys and metadata to the last sidecar, is the specified recovery, on inputs for which the theorems hold |
| `Lineage.RemovedPaths` | crates/teodb-catalog/src/adapter/manifests.rs:201-233 | if no ID repeats on the current path the walk ends, fails exactly if an ancestor is missing or has an unreadable marker, and otherwise returns exactly the markers of the ancestors, an ancestor being the end of some path of parent pointers |
| `Lineage.WalkEndsUnlessItRepeats` | crates/teodb-catalog/src/adapter/manifests.rs:211-231 | the walk ends if and only if no ID repeats on its path; otherwise there are paths of every length |
| `Lineage.Collect` | crates/teodb-catalog/src/adapter/manifests.rs:205-208 | the index by snapshot ID, later entries counting |
| `CompactionFiles.FindInput` | crates/teodb-distributed/src/compactor/execution.rs:308-317 | an input the recorded path refers to, and none exactly if it refers to no input |
| `CompactionFiles.FindInputIsFirst` | crates/teodb-distributed/src/compactor/execution.rs:308-317 | it is the first input the path refers to |
| `CompactionFiles.CountMarks` | crates/teodb-distributed/src/compactor/execution.rs:213-227 | how many marked positions lie inside inputs, and whether the delete file names inputs only |
| `CompactionFiles.ResolveInputDeletes` | crates/teodb-distributed/src/compactor/execution.rs:198-234 | the counted rows and the resolved delete files of all deletes of a plan |
| `CompactionFiles.LookupIsExact` | crates/teodb-distributed/src/compactor/execution.rs:308-317 | looking up file URIs finds exactly the inputs if and only if no input's key is a path suffix of another file's URI |
| `CompactionFiles.ClashResurrects` | crates/teodb-distributed/src/compactor/execution.rs:198-234 | with such a clash the delete file of an untouched file is resolved, and removing it changes the table's rows |
| `Compaction.PublishKeepsDead` | crates/teodb-distributed/src/compactor/execution.rs:198-234 | removing resolved deletes resurrects no row of a file that is not an input |
| `Compaction.PublishExchanges` | crates/teodb-catalog/src/adapter/commit.rs:121-146 | publishing outputs with the markers of inputs and resolved deletes takes what the inputs still contribute and adds what the outputs hold, nothing else |
| `Compaction.InputsInTable` | crates/teodb-distributed/src/compactor/runner.rs:41-51 | reading the inputs one by one reads what they contribute to the table |
| `Compaction.PlanDeletesSuffice` | crates/teodb-distributed/src/compactor/runner.rs:41-51 | the position deletes of an input's partition are all that mark it |
| `Compaction.ScanSplits` | crates/teodb-distributed/src/compactor/runner.rs:41-51 | the scan reads what the inputs contribute to the table now and the excess: what inputs removed since once contributed, and rows that later deletes mark |
| `CompactionCount.CheckIsExact` | crates/teodb-distributed/src/compactor/execution.rs:319-341 | after a correct scan the row-count check passes if and only if no row is marked by two delete files or no row is left |
| `CompactionCount.DoubleMarkAborts` | crates/teodb-distributed/src/compactor/execution.rs:319-341 | two rows, one of them marked twice: a correct rewrite that the check aborts |
| `CompactionCount.PassingCheckConserves` | crates/teodb-distributed/src/compactor/execution.rs:319-341 | without double marks the check passes exactly if outputs and inputs hold equally many rows, whatever the scan did |
| `CompactionRun.PublishRows` | crates/teodb-distributed/src/compactor/runner.rs:219-240 | a publication adds exactly the rows it brings back - those of inputs removed, and those deleted, since its check - whatever landed in between |
| `CompactionRun.StepKeepsInv` | crates/teodb-distributed/src/compactor/runner.rs:177-262 | appends, deletes and every step of any of the compactions under way keep the invariant of the table |
| `CompactionRun.StepRows` | crates/teodb-catalog/src/adapter/manifests.rs:39-85 | only an append adds rows, its own; only new deletes take rows; a publication adds the rows it brings back; nothing else changes them |
| `CompactionRun.AbandonLeavesNoTrace` | crates/teodb-distributed/src/compactor/runner.rs:177-262 | a compaction that is given up leaves rows, snapshots and other compactions alone |
| `CompactionRun.RunAccountsForRows` | crates/teodb-catalog/src/adapter/commit.rs:121-146 | over every run with any number of compactions at once the table holds what was appended, less what was deleted, plus what publications brought back |
| `CompactionRun.RunConservesRows` | crates/teodb-catalog/src/adapter/commit.rs:121-146 | a run conserves the rows if and only if at every publication the table still shows of each input exactly what the plan read: no publication has removed the input since and no delete has taken a row of it |
| `CompactionRun.UndisturbedRunConserves` | crates/teodb-distributed/src/coordination.rs:12-30 | a run conserves the rows if compactions past their check never share an input and no delete marks one of their inputs |
| `CompactionRun.WalkFindsRemoved` | crates/teodb-catalog/src/adapter/manifests.rs:197-233 | in every reachable state no ID repeats, so the walk ends; the lineage is the whole history, so it succeeds and returns exactly the removed paths |
| `CompactionRace.SecondPublishDoubles` | crates/teodb-catalog/src/adapter/commit.rs:121-146 | if two compactions have passed their check and the first to publish takes all inputs of the second, the second puts every row of its inputs back |
| `CompactionRace.TwoCompactionsDouble` | crates/teodb-catalog/src/adapter/commit.rs:121-146 | a run in which two compactions of one file both pass the check of one base snapshot, both publish, and the file's row is in the table twice |
| `CompactionRace.LateDeleteUndone` | crates/teodb-catalog/src/adapter/commit.rs:121-146 | a run in which a position delete takes the only row of a file after the check of a compaction of that file, and the publication brings the row back |
| `Retention.SelectExpired` | crates/teodb-core/src/snapshot_retention.rs:34-58 | skip, filter and collect give the expired set, which `ExpiredExactly` describes |
| `Retention.ExpiryIsMonotone` | crates/teodb-core/src/snapshot_retention.rs:34-58 | the expired set only shrinks as the number kept, the age or the protection grows |
| `Retention.ExpiredByRank` | crates/teodb-core/src/snapshot_retention.rs:34-58 | by counting: an expired snapshot has more than the number kept at least as recent, and one with that many strictly newer does expire |
| `Retention.RankIsPosition` | crates/teodb-core/src/snapshot_retention.rs:49-50 | sorted by recency a snapshot stands after the newer ones and after those of the same stamp listed earlier |
| `Retention.ExpiredExactly` | crates/teodb-core/src/snapshot_retention.rs:34-58 | for stamps of the i64 range: a snapshot expires if and only if as many are more recent as the policy keeps (at least one), its age exceeds max_age, capped at the largest i64, and it is neither current nor protected |
| `Retention.YoungIsRetained` | crates/teodb-core/src/snapshot_retention.rs:14-27 | for every max_age of the i64 range, what is not older than max_age is retained |
| `Retention.HugeAgeIsCut` | crates/teodb-core/src/snapshot_retention.rs:42-47 | a snapshot of half the max_age expires, because max_age does not fit i64 |
| `Retention.EnoughSurvive` | crates/teodb-core/src/snapshot_retention.rs:41-58 | at least min(n, max(1, keep_last)) snapshots survive |
| `RetainedFiles.CollectReferencedPaths` | crates/teodb-catalog/src/adapter/manifests.rs:93-127 | reading each manifest once gives the plain union over the included snapshots, and fails exactly if one cannot be read |
| `RetainedFiles.RetainedFileSet` | crates/teodb-catalog/src/adapter/manifests.rs:131-180 | the union over the snapshots that do not expire, containing every file of the current and of every protected snapshot |
| `RetainedFiles.LiveDataFiles` | crates/teodb-catalog/src/adapter/manifests.rs:39-85 | a path is live exactly if some manifest records it alive and the lineage has not removed it; the list keeps manifest order |
| `Selection.CandidateCounts` | crates/teodb-distributed/src/selection.rs:165-195 | a file is a candidate exactly by its size against a quarter and a half of the target (below a quarter, below half if there are enough, larger under delete pressure), as often as it is listed, for every rounding of the pressure quotient |
| `Selection.DeleteCountIs` | crates/teodb-distributed/src/selection.rs:224-243 | a file's deletes are counted under its URI, else under its key, else under the first recorded path that refers to it |
| `Selection.UncountedIsZero` | crates/teodb-distributed/src/selection.rs:224-243 | and are zero if no recorded path does |
| `Selection.RetainWithinBudget` | crates/teodb-distributed/src/selection.rs:203-210 | the saturating running total keeps a prefix, the longest within the budget |
| `Selection.SelectWithinPartition` | crates/teodb-distributed/src/selection.rs:158-213 | what is taken is a prefix of the size-sorted candidates, as long as cap and budget allow |
| `Selection.SelectionIsOptimal` | crates/teodb-distributed/src/selection.rs:197-213 | no choice of candidates within both limits has more files |
| `Selection.ZeroBudgetTakesAll` | crates/teodb-distributed/src/selection.rs:202-210 | without a byte budget only the cap on the number of files counts |
| `Selection.GroupByPartition` | crates/teodb-distributed/src/selection.rs:78-106 | each group is the sublist of its partition |
| `Selection.SelectCandidates` | crates/teodb-distributed/src/selection.rs:68-127 | one group per partition with something to take, carrying exactly that partition's position deletes |
| `CivilDate.CivilRoundTrip` | crates/teodb-perf-suite/src/nested_gen.rs:182-195 | for every day number a valid date whose day count is that number; no unsigned subtraction underflows |
| `CivilDate.NoOverflow` | crates/teodb-perf-suite/src/nested_gen.rs:182-195 | no i64 step overflows if and only if the day number leaves room for the first addition |
| `CivilDate.TimestampNeverOverflows` | crates/teodb-perf-suite/src/nested_gen.rs:166-179 | for every i64 number of seconds the conversion of its day stays within i64 |
| `CivilDate.DaysRoundTrip` | crates/teodb-perf-suite/src/nested_gen.rs:182-195 | every valid date is the date of its day count |
| `CivilDate.DayCountOfNext` | crates/teodb-perf-suite/src/nested_gen.rs:182-195 | the day count grows by one from each valid date to the next |
| `CivilDate.ConsecutiveDays` | crates/teodb-perf-suite/src/nested_gen.rs:182-195 | consecutive day numbers give consecutive dates |
| `CivilDate.CountsFromEpoch` | crates/teodb-perf-suite/src/nested_gen.rs:182-195 | day n is the date found by stepping n times from 1970-01-01 |
| `CivilDate.YearFits` | crates/teodb-perf-suite/src/nested_gen.rs:194 | the cast to i32 changes nothing if and only if the year fits |
| `CivilDate.TimestampIsExact` | crates/teodb-perf-suite/src/nested_gen.rs:166-179 | the printed time is a time of day if and only if the seconds are not negative or a whole number of days, and then names the second |
| `CivilDate.SecondBeforeEpoch` | crates/teodb-perf-suite/src/nested_gen.rs:166-179 | second -1 is printed as 1970-01-01 with second -1 |
| `RateAdmission.RateRegistry.TryAdmit` | crates/teodb-api/src/admission.rs:47-67 | registry and answer after a request are those of the specified check; the wait told is what is left of the window that was consulted |
| `RateAdmission.RetryAfterIsExact` | crates/teodb-api/src/admission.rs:78-88 | a rejected request that nobody overtakes is accepted once the told wait is over, and one with a window of its own not before |
| `RateAdmission.AdmitIsSafe` | crates/teodb-api/src/admission.rs:78-88 | the counter stays within u32, and a clock behind the window's start does not end the window |
| `RateAdmission.TrackedIsBounded` | crates/teodb-api/src/admission.rs:54-62 | the tracked map never holds more than max_keys keys |
| `RateBound.AtMostBest` | crates/teodb-api/src/admission.rs:47-88 | with time not running backwards and limits from 1 to L, no interval of one window length accepts more requests of a key than 3L for L up to 2 and 4L - 2 above |
| `RateBoundReached.BestIsReached` | crates/teodb-api/src/admission.rs:47-88 | for every limit L of the u32 range there is a run, with one or two tracked keys and limits from 1 to L, in which one interval accepts exactly that many requests of a key |
| `PrincipalAdmission.PrincipalRegistry.FindSemaphore` | crates/teodb-api/src/admission.rs:109-128 | the section under the lock: semaphore and registry as specified |
| `PrincipalAdmission.RunKeepsInv` | crates/teodb-api/src/admission.rs:109-131 | in every interleaving held semaphores are registered, entries are bounded and each semaphore is within its permits |
| `PrincipalAdmission.LiveIsRegistered` | crates/teodb-api/src/admission.rs:116-121 | every live tracked semaphore is still in the registry |
| `PrincipalAdmission.PrincipalIsBounded` | crates/teodb-api/src/admission.rs:109-131 | one principal holds at most twice the permits |
| `PrincipalBoundReached.TwiceIsReached` | crates/teodb-api/src/admission.rs:109-131 | for every number of permits, every hash and every principal there is a run, with one tracked entry, at whose end the principal holds exactly twice the permits |
| `PrincipalAdmission.TotalIsBounded` | crates/teodb-api/src/admission.rs:109-131 | all principals together hold at most (max_entries + 64) times the permits |
| `PartitionPath.UrlEncode` | crates/teodb-catalog/src/convert/partition.rs:184-198 | for every byte string, each byte is spelled in place, between the encodings of what is before and after it |
| `PartitionPath.EncodedByte` | crates/teodb-catalog/src/convert/partition.rs:184-198 | A-Z, a-z, 0-9 and `-_.*` stand for themselves, a space becomes a plus sign, any other byte a percent sign and its two upper-case hexadecimal digits |
| `PartitionPath.UnreservedIsKept` | crates/teodb-catalog/src/convert/partition.rs:184-198 | text of such characters is its own encoding |
| `PartitionPath.ReadablePart` | crates/teodb-catalog/src/convert/partition.rs:130-180 | a name and value of such characters stand in the path as they are, with an equals sign between them |
| `PartitionPath.UrlRoundTrip` | crates/teodb-catalog/src/convert/partition.rs:184-198 | decoding gives back what was encoded |
| `PartitionPath.EncodedIsPlain` | crates/teodb-catalog/src/convert/partition.rs:184-198 | an encoded name or value contains no slash and no equals sign |
| `PartitionPath.PathRoundTrip` | crates/teodb-catalog/src/convert/partition.rs:130-180 | a path has one slash-free component per field, and a decoder recovers the list of names and values |
| `PartitionPath.PathsAreDistinct` | crates/teodb-catalog/src/convert/partition.rs:130-180 | two lists give the same path only if they are equal |
| `PartitionPath.BuildPath` | crates/teodb-catalog/src/convert/partition.rs:130-180 | succeeds exactly if every field has a source column, a value and a text for it, yields the path of these texts, and otherwise reports what the first failing field lacks |

## Left out

- Iceberg transaction internals, REST transport, Avro and Parquet, DataFusion and object
  stores: their results are parameters or step contracts.
- Snapshot IDs are not reused within an incarnation, table UUIDs are fresh, the head never
  moves back, and only appends write checkpoint properties: assumptions of the append
  machine about the catalog.
- JSON and UUID text: values are modelled, with encoding and decoding inverse on valid
  ones.
- `into_teodb_error` and other error messages: verdicts are modelled, their texts are not.
- Background rechecks of blocked flushes and the retry loop around `commit_append`: they
  only begin further attempts, which the machine allows at any time.
- AppendTheorems.OkMeansLandedOnce: does not promise the exact lower generation after
  expiry, because the code does not check it then; `AppendExactness` has the exact
  condition.
- IdempotencyThreads.AtMostOneClaimOutstanding: assumes that holders finish within the
  time-to-live and that the table is not evicted, as the code does.
- TableRecovery.FlushKeepsInv: the answers of storage and catalog to a flush are reduced to
  published, kept, returned to pending, or blocked; the status checks inside one flush are
  covered by the append machine.
- WalReplayer.Replayer.ReplayWal: assumes that a table's generations in the log are
  distinct, that there is one sidecar per incarnation, and that the table answers its
  second load like its first up to the intent's delayed original
  (`BufferStartsAtCheckpoint` says when the checkpoint does); tombstones, garbage
  collection and metrics after recovery are not modelled.
- RecoveryMachine.BufferStartsAtCheckpoint: assumes that whatever the writer had not
  published to the table by the first read is the intent, as a buffer has one flush at a
  time.
- RecoveryMachine.PlacesFollowTheLog: is about the records of one intent's range; what
  recovery's own flushes publish of other records is not tied to the log.
- IntentProgress.LogWithIntentsRecovers: is a sufficient condition, for records without
  idempotency keys and intents that have not landed since the metadata was read.
- RecoveryPlaces.ExactlyOnceIffNotDoubled: is about the catalog at the end of recovery; an
  original that lands later is met by the append machine.
- WAL segments, framing and epoch fencing: the plan of records is an input.
- CompactionRun.RunConservesRows: file names are not reused; equality deletes are not
  modelled.
- Lineage.RemovedPaths: requires that no ID repeats on the current path, since the source
  does not return otherwise (`WalkEndsUnlessItRepeats`).
- Selection.SelectCandidates: groups are a map by partition, since the order of the source's
  list is that of a hash map.
- Selection.CandidateCounts: the threshold is a finite number.
- CivilDate.CivilRoundTrip: for day numbers beyond the range of `NoOverflow` the source
  overflows, which is not modelled.
- RateBound.AtMostBest: requests are taken one after the other, in the order in
  which they get the lock.
- PartitionPath.BuildPath: the text of a value under its transform, or the reason why it
  has none, is an input.
- Ingest endpoints, query planning, caching, Ballista scheduling, configuration and the
  command line: out of scope.
