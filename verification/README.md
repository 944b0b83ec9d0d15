# A verified model of the dosweb analyzer core

dosweb extracts HTTP/TCP/MQTT entries, growth candidates and data flows from Java web
projects with CodeQL, and runs six ordered stages per target, many targets per batch. This
project models the parts of it that carry state across steps, and proves what they keep:

| part | modules |
|---|---|
| the resumable stage pipeline, its publication protocol, and whole histories of an output directory | `PipelineModel`, `PipelineDisk`, `PipelinePublish`, `PipelineProgress`, `PipelineRun`, `PipelineHistory` |
| the batch runner under every interleaving of loop, workers and signal handler | `BatchMachine`, `BatchInvariants`, `BatchTheorems`, `BatchRank`, `BatchOutcomes`, `BatchRunner` |
| deferred interrupts, single-shot descriptor release, and the reverse-order owner | `DeferredInterrupts`, `Descriptors`, `DescriptorOwner` |
| aggregate publication, its crash recovery and its ownership check | `AggregatePublication` |
| candidate association, maturation, the two reconciliation checkers, the gap supplement and the conclusion check | `Candidates`, `DispositionRules`, `Association`, `AssociationStage`, `GrowthStage`, `Reconciliation`, `Checkers`, `GapFlow` |
| JSONL writing and reading, value limits, upstream verification | `Bytes`, `Jsonl`, `ArtifactLimits` |
| brace scopes, shell quoting, string order | `BraceScopes`, `ShellWords`, `Text` |

Verify everything with `dafny verify dfyconfig.toml`.

## How the parts are modelled

**Pipeline.** `Disk` holds the artifact files, the stage manifests and `run.json`; every
atomic step (replace, unlink, write) appends the new state to `trace`, and `Valid()` says the
invariant holds of *every* state of the trace, so it holds wherever the process is killed
(`Kill` resumes from any of them). Each step may be done, may raise without effect, or may
escape (interrupt) with or without effect; `calm` records that none did. SHA-256 and the
output hash are injective by construction. An executor is an arbitrary partial function of
its fingerprint and of the upstream artifacts that fingerprint covers; stages own disjoint
paths. `Fresh` is the reference: the outputs of a run from an empty directory, defined
without any disk. `Run` is proved to succeed exactly when no step failed and `Fresh` is
defined, and then to leave exactly what `Fresh` says.

**Aggregate publication.** `BatchRoot` records every state of the batch directory in `trace`,
and `Crash` resumes from any of them. Each file operation meets the next of `fates`: it
succeeds, or fails with or without effect, by an error that recovery swallows or one that
escapes. The fates are arbitrary, so a contract speaks of every outcome, and a method can
also run a chosen one.

**Batch.** `BatchMachine.Next` gives the atomic steps. A test that another thread can overtake
is one step and what it decides is another: `_update` tests the interrupt and writes,
`submit_available` tests it and submits, the end of the run tests it and publishes, and between
the two halves the handler and other workers run. The handler looks at a record and adds it in two steps, taking
no lock; marking goes record by record under the state lock, which excludes updates but not
the handler; workers start, end, escape and change their own target's directory. A schedule is
any sequence of steps. `BatchRunner.Runner` is the object form: each method is proved equal to
its step, and `Run` executes any schedule.

**Descriptors.** The kernel table maps numbers to resources; between steps the rest of the
process opens and closes its own descriptors and reuses numbers. Every interpreter call of the
deferral may raise before or after its effect; a raw close may succeed, fail provably before
acting, or raise having acted or not. Every call that fails is counted (`raised`, `refused`,
`failures`), so a contract can say what holds when none did, and how much had to fail for what
was left undone.

**Candidates.** Identifiers are injective hashes of record contents, so a link stands for its
identifier and an evidence identifier is a constructor (its prefix). Lists the source sorts
and deduplicates are sets. `IsOutcome` describes the result of an association by sets alone;
the method that walks lists is proved to produce it. `DispositionRules` has the record as it
is written, with sorted lists of texts, and ties the rules of the model to those of the
constructor and of the schema.

## What the code does not promise, and exactly when it does

- A record whose encoding has 262144 bytes is written but refused on reading, since the writer
  does not count the newline (`dosweb/pipeline.py:155`, `dosweb/artifacts/jsonl.py:149`):
  `Jsonl.RoundTrip` holds exactly for shorter lines within the value limits, and
  `Jsonl.LongestRecordIsRefused` gives the witness.
- A failed publication restores everything, except that a `chmod` failing on a
  `.private.jsonl` file that was not there before leaves that file
  (`dosweb/pipeline.py:494-498`): `PipelinePublish.ChmodFailureUndone` is the exact condition.
- A worker past the test of `_update` writes what it reports although the handler adds its
  target meanwhile (`dosweb/batch/runner.py:322-333`): `BatchTheorems.StaleUpdate` is the
  schedule, and `BatchTheorems.StaleWriteExactly` the exact condition: such a write is possible
  exactly while an update of the target is past its test with something else to write. It
  happens once (`BatchTheorems.OneStaleUpdate`), and then the record is unchanged or
  `interrupted` for good (`BatchTheorems.InterruptedForGood`).
- A submission past its own test is made although the interrupt is set meanwhile
  (`dosweb/batch/runner.py:566-571`): `BatchTheorems.LateSubmission` is the schedule. After an
  interrupt a step submits exactly when it is the main thread's past that test
  (`BatchTheorems.LateSubmissionExactly`), some schedule has such a step exactly when the main
  thread is there (`BatchTheorems.LateSubmissionPossible`), and it is the only one
  (`BatchTheorems.OneLateSubmission`).
- An interrupt that the check after the pool does not see (`dosweb/batch/runner.py:603`)
  repairs no record. Then the published state has a queued, running or retrying target exactly
  when a record was loaded so with its attempts used up (`BatchTheorems.UnseenInterrupt`;
  `BatchTheorems.LateInterrupt` is an example).
- A batch can end `completed` although it was interrupted
  (`BatchTheorems.CompletedDespiteInterrupt`). The status is the one the interrupt and the
  records gave when it was tested (`dosweb/batch/runner.py:607`), and nothing later changes it:
  `BatchTheorems.StatusSettled`, `BatchTheorems.CompletedBatch`.
- A recovery cut short by an error is swallowed, and the ownership check then judges the root
  as it is (`dosweb/batch/aggregate.py:883-890`). An owned directory is refused exactly when
  some root file is neither the prior generation's nor the one about to be written:
  `AggregatePublication.OwnedRefusedExactlyWhen`, with the history in
  `AggregatePublication.RefusedAfterCompletion`. After a complete recovery it never is.
- A crash during the very first publication, after its first root file and before the owner
  marker, makes every later one fail, because recovery needs `.aggregate-current.json` and the
  check needs the marker (`dosweb/batch/aggregate.py:862`, `dosweb/batch/aggregate.py:939-942`):
  `AggregatePublication.RefusedExactlyWhen`, and `AggregatePublication.StrandedForGood` for the
  two moments and any number of later attempts.

## Model

| member | source | states |
|---|---|---|
| PipelineModel.ListingRoundTrip | dosweb/pipeline.py:452-465 | the artifact list of a stage determines its files: hashing loses nothing |
| PipelineModel.UpstreamOfHashes | dosweb/pipeline.py:378-379 | the upstream hashes a fingerprint carries determine the upstream artifacts |
| PipelineModel.FingerprintMeans | dosweb/pipeline.py:378-379 | a stage has the same fingerprint under two configurations exactly when they agree on every input it depends on and the upstream hashes are the same |
| PipelineModel.ReusableIsExact | dosweb/pipeline.py:386-413 | in any reachable state a stage is reused only if its files and manifest are exactly what a completed publication under that fingerprint wrote |
| PipelineModel.ExactIsReusable | dosweb/pipeline.py:386-413 | conversely, what a completed publication wrote, left in place, is always reused |
| PipelineDisk.Disk.MoveOut | dosweb/pipeline.py:483-486 | moving a file to scratch: effect, failure and escape, and the invariant in every state |
| PipelineDisk.Disk.MoveIn | dosweb/pipeline.py:494 | moving a staged file into place, likewise |
| PipelineDisk.Disk.PutManifest | dosweb/pipeline.py:505 | replacing a stage manifest keeps the invariant only for a genuine manifest |
| PipelineDisk.Disk.WriteRun | dosweb/pipeline.py:84-98 | `run.json` is replaced whole, always with its completed stages as a prefix; a failure leaves the old or the new document |
| PipelineDisk.Disk.Kill | dosweb/pipeline.py:437-525 | the process can die at any past step and the state found satisfies the invariant |
| PipelinePublish.SetAside | dosweb/pipeline.py:482-486 | backing one file up keeps the rollback exact |
| PipelinePublish.RetireStale | dosweb/pipeline.py:480-486 | the files the stage no longer produces are removed, or the step can be undone |
| PipelinePublish.PlaceOne | dosweb/pipeline.py:487-498 | one artifact is in place and recorded, or undoing gives the old files, or the old files and one new private artifact |
| PipelinePublish.PlaceNew | dosweb/pipeline.py:487-498 | all artifacts are in place, or the step can be undone up to one private file |
| PipelinePublish.ChmodFailureUndone | dosweb/pipeline.py:495-498 | after a failed chmod, rolling back restores the directory exactly when the file was there before |
| PipelinePublish.RollBack | dosweb/pipeline.py:507-513 | unlinking what was published and restoring the backups in reverse order gives the recorded state back |
| PipelinePublish.SwapManifest | dosweb/pipeline.py:499-506 | the manifest is replaced, or what undoing needs is known |
| PipelinePublish.UndoSwap | dosweb/pipeline.py:514-518 | undoing puts the old manifest back, or leaves none where there was none |
| PipelinePublish.Publish | dosweb/pipeline.py:437-525 | all or nothing: on success the stage's owned files are exactly the new ones and manifest and files agree; refused, nothing changed but at most one first-time private file; no other stage's file is touched |
| PipelineProgress.EarlierUntouched | dosweb/pipeline.py:472-498 | publishing a stage touches nothing an earlier stage produced |
| PipelineProgress.ReusedIsCurrent | dosweb/pipeline.py:243-264 | a reused stage stands as a run from an empty directory would leave it |
| PipelineProgress.PublishedIsCurrent | dosweb/pipeline.py:437-525 | so does a published one, and the earlier stages keep standing |
| PipelineRun.ReadArtifact | dosweb/artifacts/metadata.py:131-207 | one artifact is read exactly when its path has one match in a list its stage vouches for, of the right schema, and the file has the listed digest, size and count |
| PipelineRun.ReadUpstream | dosweb/artifacts/metadata.py:131-207 | what a stage reads back from the directory is what the earlier stages of a fresh run produce |
| PipelineRun.Pipeline.LoadPrior | dosweb/pipeline.py:348-376 | the prior manifests are those on disk |
| PipelineRun.Pipeline.CheckReusable | dosweb/pipeline.py:386-413 | the reuse loop decides the reuse predicate |
| PipelineRun.Pipeline.InvalidateFrom | dosweb/pipeline.py:415-424 | the records from a stage on are invalid, the earlier ones unchanged |
| PipelineRun.Pipeline.MarkFailure | dosweb/pipeline.py:527-552 | a failed stage is recorded, later ones are pending, earlier ones unchanged, and completed stages stay a prefix |
| PipelineRun.Pipeline.Execute | dosweb/pipeline.py:426-435 | the executor runs on exactly the artifacts its fingerprint covers |
| PipelineRun.Pipeline.PublishStage | dosweb/pipeline.py:248-252 | one more stage stands as in a fresh run, exactly when nothing failed and the executor produced it |
| PipelineRun.Pipeline.RunStage | dosweb/pipeline.py:243-264 | one iteration: reused exactly when the reuse predicate holds, without any change, and only if recorded as completed under this configuration; otherwise re-executed with everything later invalid; a stage that raised is recorded as failed, the later ones as pending |
| PipelineRun.Pipeline.RunStages | dosweb/pipeline.py:243-264 | a prefix is reused, each stage of it recorded under this configuration; all later stages up to the target are re-executed, and on success all stand as in a fresh run |
| PipelineRun.OtherInputsReuseNothing | dosweb/pipeline.py:386-392 | when all records were made with another database, query pack, tool or configuration, no stage is reused |
| PipelineRun.Pipeline.Finish | dosweb/pipeline.py:265-329 | a run is saved as completed only after attempt, finalizer and last write; any failure before prevents it, and is on record when its write succeeds |
| PipelineRun.Pipeline.Run | dosweb/pipeline.py:211-329 | a run succeeds exactly when no step failed and a fresh run's executors succeed, and then the directory holds the fresh outputs for every stage up to the target; only stages saved under this configuration are reused; the attempt number rises by one, and a failure that could be saved is recorded, with the stage that raised |
| PipelineHistory.CompletedRunsAgree | dosweb/pipeline.py:211-329 | two completed runs of one configuration agree on every published artifact byte, whatever their directories went through |
| PipelineHistory.Live | dosweb/pipeline.py:211-329 | any sequence of runs, of any configuration, target and outcome, killed at any step, keeps the invariant |
| PipelineHistory.RunAfterAnyPast | dosweb/pipeline.py:211-329 | resume equals fresh: after any past, a completed run publishes the artifact bytes of a run in an empty directory |
| Bytes.ActualRecordCount | dosweb/pipeline.py:128-134 | counting chunk by chunk gives the record count of the whole file, for every chunking |
| Jsonl.EncodeRecords | dosweb/pipeline.py:137-163 | the written bytes are the record lines, or the limit that was exceeded is reported |
| Jsonl.ReadJsonlBytesStrict | dosweb/artifacts/jsonl.py:140-165 | the reader returns the records of all lines exactly when every line is within limits and valid |
| Jsonl.RoundTrip | dosweb/artifacts/jsonl.py:140-165 | reading what was written returns the same records exactly when every line is below the reader's bound and every record within the value limits |
| Jsonl.LongestRecordIsRefused | dosweb/pipeline.py:155 | a record at the writer's limit is written and then refused |
| Jsonl.RecordCountOfLines | dosweb/pipeline.py:137-163 | the newline count of the written bytes is the number of records |
| Jsonl.RecordCountIsLines | dosweb/pipeline.py:128-134 | the record count of any bytes is the number of their lines, an unterminated last one included |
| Jsonl.SplitLinesMean | dosweb/artifacts/jsonl.py:145-147 | the reader's lines are the payload, cut after every LF, CR LF and other CR and nowhere else |
| Jsonl.ReaderRefuses | dosweb/artifacts/jsonl.py:140-165 | no payload is read with too many bytes or lines, or with a line that is too long, blank, or not an object within limits |
| Jsonl.VerifyUpstreamFile | dosweb/artifacts/metadata.py:77-128 | the chunked verification accepts exactly the file whose size, count and digest are listed, and returns its bytes |
| Jsonl.WrittenArtifactVerifies | dosweb/artifacts/metadata.py:77-128 | the size, count and digest listed for a written artifact are those of its bytes |
| Jsonl.VerifiedArtifactReadsBack | dosweb/artifacts/metadata.py:210-240 | a verified artifact reads back as the records that were written |
| ArtifactLimits.VisitAny | dosweb/artifacts/jsonl.py:66-84 | visiting any pending value, in any order, leaves the verdict unchanged |
| ArtifactLimits.CheckArtifactValue | dosweb/artifacts/jsonl.py:66-84 | the explicit-stack check terminates and accepts exactly the values within the recursive limits on depth, nodes, strings and collections |
| ArtifactLimits.LimitsLie | dosweb/artifacts/jsonl.py:20-23 | where the limits lie: 32 levels, 4096 items, 262144 bytes of text, 8192 values in all |
| BraceScopes.Laminar | dosweb/production.py:162-174 | any two recorded scopes are nested or on disjoint lines |
| BraceScopes.ScopeSound | dosweb/production.py:162-174 | every scope the stack records is a matched pair of braces with a method header |
| BraceScopes.ScopeComplete | dosweb/production.py:162-174 | every such pair is recorded |
| BraceScopes.ShareScopeSymmetric | dosweb/production.py:175-176 | sharing a method scope is symmetric |
| BraceScopes.ShareScopeTransitive | dosweb/production.py:175-176 | sharing a method scope is transitive |
| BraceScopes.ScanScopes | dosweb/production.py:162-174 | the scan over lines computes the scopes of the brace events |
| BraceScopes.SameJavaCallable | dosweb/production.py:140-176 | the answer is yes exactly when some matched method scope covers both lines |
| ShellWords.SplitJoin | scripts/build_top50_codeql_dbs.py:244-249 | splitting a joined line by the POSIX shell rules gives back exactly the parts |
| ShellWords.JoinInjective | scripts/build_top50_codeql_dbs.py:244-249 | no two argument lists print alike |
| BatchMachine.ShapeKept | dosweb/batch/runner.py:560-602 | in every interleaving at most `max_workers` are active, pending targets are distinct and not active, and only finished workers are collected |
| BatchInvariants.InitInv | dosweb/batch/runner.py:553-563 | the runner starts in the invariant from any records and directories |
| BatchInvariants.InvKept | dosweb/batch/runner.py:436-623 | every step of the loop, a worker or the handler keeps the accounts of attempts, the interrupted set and the tail conditions |
| BatchTheorems.CheckSeesInterrupt | dosweb/batch/runner.py:319-332 | an update whose test follows the insertion of its target chooses `interrupted` |
| BatchTheorems.LateUpdatesStayInterrupted | dosweb/batch/runner.py:319-335 | once a target is in the interrupted set, and no update of it is past its test, every step that writes its record writes `interrupted` |
| BatchTheorems.OneStaleUpdate | dosweb/batch/runner.py:319-335 | while an update of a target in the set is past its test, only its write can change the record, and no update is past its test after that |
| BatchTheorems.StaleWriteExactly | dosweb/batch/runner.py:319-335 | a record other than `interrupted` can be written for a target in the set exactly while an update of it is past its test with something else to write |
| BatchTheorems.InterruptedForGood | dosweb/batch/runner.py:319-335 | after that the record is unchanged or `interrupted` under every schedule |
| BatchTheorems.StaleUpdate | dosweb/batch/runner.py:192-202 | the race exists: a worker tests, the handler adds its target, the worker writes `completed` |
| BatchTheorems.InterruptedBatch | dosweb/batch/runner.py:603-623 | an interrupt before the check after the pool: no target is published queued, running or retrying, and the status is `interrupted` |
| BatchTheorems.UnseenInterrupt | dosweb/batch/runner.py:603-623 | when that check does not see an interrupt, exactly the records loaded live with their attempts used up are published queued, running or retrying |
| BatchTheorems.LateInterrupt | dosweb/batch/runner.py:603-617 | an example: a batch that ends `interrupted` with a target published as running |
| BatchTheorems.InterruptIsTold | dosweb/batch/runner.py:607-620 | an interrupt before the test that settles the status is in the status |
| BatchTheorems.DecideCompleted | dosweb/batch/runner.py:606-617 | the decision is `completed` exactly without interrupt and with every record completed |
| BatchTheorems.CompletedBatch | dosweb/batch/runner.py:553-620 | for every start and schedule the batch ends `completed` exactly when that test found no interrupt and every record is completed, and then every target directory holds its binding and a completed run |
| BatchTheorems.StatusSettled | dosweb/batch/runner.py:606-620 | the published status is the one the interrupt and the records gave at the test, under every schedule from there |
| BatchTheorems.CompletedDespiteInterrupt | dosweb/batch/runner.py:607-620 | so a batch can end `completed` and interrupted: a signal after the test |
| BatchOutcomes.FinalStatusMeans | dosweb/batch/runner.py:606-620 | for every start and schedule each of the statuses exactly: interrupted, completed with failures, completed with gaps |
| BatchOutcomes.UpdateReports | dosweb/batch/runner.py:436-544 | an update whose test sees no interrupt writes what the run reports (running or retrying, completed, failed with its code), whatever happens before the write; one that sees it writes `interrupted` |
| BatchOutcomes.CompletedByRun | dosweb/batch/runner.py:436-544 | under every schedule a record that was not completed is so only if a run of its pipeline completed |
| BatchOutcomes.CompletedByWrite | dosweb/batch/runner.py:319-335 | and the completing step is the write of that report |
| BatchOutcomes.CollectedAgain | dosweb/batch/runner.py:584-601 | a collected target keeps its record and is queued again exactly without interrupt and with an attempt left for a stopped, a retryable failed or an artifact-less completed record |
| BatchOutcomes.RestingStays | dosweb/batch/runner.py:573-602 | a target not queued again keeps its record to the end, unless there is an interrupt |
| BatchOutcomes.NormalizedMeans | dosweb/batch/runner.py:349-373 | the only other change: an exhausted completed record without artifacts becomes one with gaps |
| BatchOutcomes.EligibleAscends | dosweb/batch/runner.py:560-563 | the queue starts with exactly the eligible targets, in plan order |
| BatchOutcomes.FirstComeFirstServed | dosweb/batch/runner.py:566-601 | a step submits the first of the queue, appends a target that left the pool, or leaves the queue |
| BatchOutcomes.HandlerAddsLive | dosweb/batch/runner.py:192-202 | the handler adds exactly the targets that are live when it looks |
| BatchOutcomes.EscapedForGood | dosweb/batch/runner.py:522-534 | a worker that escapes puts its target in the set, and the record is unchanged or interrupted from there on |
| BatchOutcomes.MarkedFirst | dosweb/batch/runner.py:576-583 | an interrupt the loop sees is marked before anything is collected |
| BatchOutcomes.MarkingSettles | dosweb/batch/runner.py:204-223 | whatever happens meanwhile, marking ends with no live record and the set interrupted, but for workers that have just escaped |
| BatchTheorems.BoundedStarts | dosweb/batch/runner.py:560-602 | at most the remaining attempts of the initially eligible targets are started, at most `max_workers` at once |
| BatchTheorems.AttemptsRiseByOne | dosweb/batch/runner.py:436-451 | only the write of a start changes an attempt, by one |
| BatchTheorems.StartsCount | dosweb/batch/runner.py:436-451 | without interrupt that write does raise it, never past the limit |
| BatchTheorems.SubmissionsAreFresh | dosweb/batch/runner.py:566-571 | no target is submitted while active, and only by the step after a test that found the interrupt clear |
| BatchTheorems.OneLateSubmission | dosweb/batch/runner.py:566-571 | after an interrupt at most the one target past that test is submitted, under every schedule |
| BatchTheorems.LateSubmissionExactly | dosweb/batch/runner.py:566-571 | after an interrupt a step submits exactly when it is the main thread's past its test |
| BatchTheorems.LateSubmissionPossible | dosweb/batch/runner.py:566-571 | after an interrupt some schedule submits a target exactly when the main thread is past its test |
| BatchTheorems.LateSubmission | dosweb/batch/runner.py:566-571 | the race exists: from the start, a test, a signal, and then the submission |
| BatchRank.RankFalls | dosweb/batch/runner.py:573-602 | until an interrupt every step of the runner lowers a non-negative rank |
| BatchRank.LateRankFalls | dosweb/batch/runner.py:573-620 | after one every step still lowers another |
| BatchRank.LoopEnds | dosweb/batch/runner.py:573-620 | from any reachable state and under any schedule the number of the runner's own steps is bounded, by the state and a fixed amount for each timeout and each signal |
| BatchRank.BatchEnds | dosweb/batch/runner.py:553-620 | for a whole batch the bound is known before the run, from the attempts its eligible targets have left |
| BatchRank.NeverStuck | dosweb/batch/runner.py:573-620 | and until the result is published one of those steps is enabled |
| BatchRunner.Runner.constructor | dosweb/batch/runner.py:553-563 | loading, normalizing and queueing establish the initial state |
| BatchRunner.Runner.NormalizeCompletedGaps | dosweb/batch/runner.py:349-373 | exactly the exhausted completed records without artifacts become gaps |
| BatchRunner.Runner.EligibleTargets | dosweb/batch/runner.py:560-563 | the eligible targets in plan order |
| BatchRunner.Runner.ChooseUpdate | dosweb/batch/runner.py:319-332 | the test of an update, with its interrupt override |
| BatchRunner.Runner.WriteUpdate | dosweb/batch/runner.py:333-335 | the write of what was chosen |
| BatchRunner.Runner.Mark | dosweb/batch/runner.py:204-223 | one record of the marking loop |
| BatchRunner.Runner.RequestInterrupt | dosweb/batch/runner.py:192-202 | one step of the signal handler |
| BatchRunner.Runner.Collect | dosweb/batch/runner.py:584-601 | a finished target leaves, and returns to the queue when eligible and not interrupted |
| BatchRunner.Runner.FinalStatus | dosweb/batch/runner.py:606-617 | the counted states decide the final status |
| BatchRunner.Runner.Step | dosweb/batch/runner.py:436-623 | every method step is the machine's step and keeps the invariant |
| BatchRunner.Runner.Run | dosweb/batch/runner.py:546-623 | executing any schedule reaches the machine's state |
| DeferredInterrupts.Interpreter.Enter | dosweb/filesystem.py:36-51 | set-up: sheltered on success, and exactly the changed parts are owed on failure |
| DeferredInterrupts.Interpreter.LeaveEach | dosweb/filesystem.py:53-61 | every owed restoration is attempted whatever the others do |
| DeferredInterrupts.Interpreter.Leave | dosweb/filesystem.py:53-61 | without a failed call the exact prior state is back |
| Descriptors.ReleaseOnce | dosweb/filesystem.py:332-410 | one closing call beyond a proved pre-action failure, on its own resource, none exactly when both set-ups failed; the descriptor is closed unless a call that may have acted raised; success exactly when no call failed |
| DescriptorOwner.NoForeignClose | dosweb/production.py:486-551 | over any history no call finds or closes a foreign resource and no resource is touched twice |
| DescriptorOwner.DropReleased | dosweb/production.py:523-541 | a release keeps the history in reverse order and truthful |
| DescriptorOwner.Owner.OpenOwned | dosweb/filesystem.py:64-92 | wherever opening raises, a descriptor that was opened is in the owner's list; it raises exactly when some call failed |
| DescriptorOwner.Owner.ReleaseAll | dosweb/production.py:503-541 | slots go from last to first until none is left or a call raises |
| DescriptorOwner.Owner.Close | dosweb/production.py:502-551 | true exactly when nothing failed, now or before, and then every descriptor ever opened was closed by the owner; in any case each slot that left the list had its one closing call unless two set-ups failed for it, and a slot is left only after two failures |
| AggregatePublication.RefusedExactlyWhen | dosweb/batch/aggregate.py:926-975 | after a complete recovery a publication of the same format is accepted exactly when the marker is in place or nothing is there yet |
| AggregatePublication.OwnedRefusedExactlyWhen | dosweb/batch/aggregate.py:926-975 | whatever the root holds, an owned directory refuses its own format exactly when some root file is neither the prior generation's nor the one about to be written |
| AggregatePublication.SwitchRefusedExactlyWhen | dosweb/batch/aggregate.py:926-975 | a switch of format is refused exactly when its names are taken by foreign bytes or it would leave a file of the prior generation behind |
| AggregatePublication.BatchRoot.Recover | dosweb/batch/aggregate.py:859-885 | complete, it makes the root files one whole generation, the one `.aggregate-current.json` names; cut short, every file is as it was or that generation's |
| AggregatePublication.BatchRoot.PublishUnlocked | dosweb/batch/aggregate.py:893-1000 | refused exactly by the ownership check, with nothing changed; on success the root is the new generation, pointed to and owned |
| AggregatePublication.BatchRoot.Publish | dosweb/batch/aggregate.py:887-890 | with recovery first, an owned directory is refused only if an error cut the recovery short, and then exactly by the files it holds |
| AggregatePublication.RecoverAfterAnyPast | dosweb/batch/aggregate.py:859-1000 | over any history of publications, errors and crashes: after one has completed, one is refused only if an error cut its own recovery short; and a complete recovery gives one whole generation |
| AggregatePublication.RefusedAfterCompletion | dosweb/batch/aggregate.py:883-890 | such a refusal happens: one completes, one dies after a root file, and the recovery of a third meets an error |
| AggregatePublication.StrandedForGood | dosweb/batch/aggregate.py:926-1000 | a first publication that dies after a root file or before the marker leaves a directory where none ever completes |
| DispositionRules.RulesAgree | dosweb/artifacts/schemas.py:1141-1229 | the constructor accepts a written record exactly when the schema does and its two identifiers have their prefixes |
| DispositionRules.ValidIsWritten | dosweb/growth/completeness.py:193-256 | a disposition meets the rules of the model exactly when the constructor and the schema accept the record written for it |
| Association.CanonicalUnique | dosweb/production.py:2100-2122 | the set of aliases determines its canonical entry |
| Association.CanonicalChosen | dosweb/production.py:2100-2122 | the canonical entry takes a demanded input if any alias does, and among those that do, all alike or all registered alike, it has the least key |
| Association.AliasesNameOne | dosweb/production.py:2315-2385 | aliases become one link with the status they share, for one of their entries: the handler base if exactly one is |
| Association.SeveralLinks | dosweb/production.py:2315-2415 | several links give one when their entries are alike, none beyond 64, and otherwise all of them, ambiguous |
| Association.SourceOrderNames | dosweb/production.py:2416-2465 | without an association row the only link is partial and names the nearest entry at or before the candidate; none exactly when there is no such entry or the nearest cannot be told apart |
| Association.SoleRowLinks | dosweb/production.py:2280-2311 | a sole association row links its entry, completely exactly when the row is proven and some flow row proves it |
| Association.OutcomeUnique | dosweb/production.py:2265-2465 | the sets of entries and rows determine the outcome: order and repetition cannot matter |
| Association.RaisedExactlyWhen | dosweb/production.py:2265-2395 | an association raises exactly for an applicable row without coverage note or for aliases that no rule reduces to one entry |
| Association.CompleteLinksAreProven | dosweb/production.py:2280-2395 | every returned complete link, canonicalized or not, has for that entry a proven complete flow row agreeing with a complete association row |
| AssociationStage.CanonicalEntry | dosweb/production.py:2100-2122 | the list form picks the canonical entry of the set |
| AssociationStage.CandidateAssociation | dosweb/production.py:2265-2465 | walking the lists gives the outcome their sets determine, its links each once |
| GrowthStage.OutcomeShaped | dosweb/production.py:2265-2465 | every outcome has one link exactly when the association is complete or partial, with known entries and valid links and reasons |
| GrowthStage.AssociationCreated | dosweb/production.py:2215-2262 | creating the association disposition never raises for a candidate with evidence |
| GrowthStage.RejectionCreated | dosweb/production.py:2582-2609 | maturing into a rejection gives a valid record |
| GrowthStage.EligibleCreated | dosweb/production.py:2582-2609 | so does maturing an eligible candidate, formal or gap |
| GrowthStage.Mature | dosweb/production.py:2655-2809 | the status, local status, proof, reasons and evidence that the association, the relevance and the reachability call for, each status exactly |
| GrowthStage.OneCandidate | dosweb/production.py:2638-2809 | one pass leaves that record, sound; it raises only when the association does, when the evidence is not a set of fact identifiers, or when called code raises or gives an empty reason |
| GrowthStage.SoundAccepted | dosweb/production.py:2951-3039 | one sound disposition per candidate with the links it cites passes the Flow stage |
| GrowthStage.GrowthLoop | dosweb/production.py:2638-2809 | the loop returns only if no association raises, and always then when evidence is fact identifiers and called code answers; whenever it returns: for every candidate the one valid disposition its association, relevance and reachability call for, every link valid and cited once, every cited proof valid and published for its own candidate, and both the Flow stage and the aggregator accept |
| Reconciliation.CheckersAgree | dosweb/batch/aggregate.py:637-662 | on valid records the Flow checks and the aggregator accept the same sets |
| Reconciliation.AggregatorExactly | dosweb/batch/aggregate.py:77-192 | on any records the aggregator accepts exactly what the Flow checks accept with no link listed twice by a disposition |
| Reconciliation.AcceptedDisposition | dosweb/production.py:2980-3022 | an accepted complete or partial association cites one link of its own, of that status, to its canonical known entry; a missing or ambiguous one has no canonical entry |
| Reconciliation.AcceptedLink | dosweb/production.py:2951-3034 | every accepted link is cited by exactly one disposition, the one of its own candidate |
| Reconciliation.CheckDisposition | dosweb/production.py:2980-3022 | the link and shape checks on one disposition decide its rules |
| Reconciliation.CheckDomain | dosweb/production.py:2951-2970 | the size checks decide that links are distinct and dispositions match the candidates one to one |
| Checkers.CheckDispositions | dosweb/production.py:2980-3034 | all dispositions are good and the cited links are collected, or the check fails |
| Checkers.CanonicalFlowEntryIds | dosweb/production.py:2892-3073 | it returns exactly when the records reconcile and the retained results are the eligible ones, each with its canonical entry |
| Checkers.IndexLinks | dosweb/batch/aggregate.py:100-130 | errors are reported exactly for repeated links and unknown references |
| Checkers.ReconcileDisposition | dosweb/batch/aggregate.py:132-185 | errors are reported exactly when the disposition breaks a rule, and citations are counted |
| Checkers.ReconciliationErrors | dosweb/batch/aggregate.py:77-192 | the error list is empty exactly when the records reconcile |
| Checkers.TargetReconciles | dosweb/batch/aggregate.py:637-662 | bijection check and error list together decide acceptance |
| GapFlow.AcceptedReconciles | dosweb/production.py:3195-3200 | what the Flow stage accepts satisfies what the supplement and the conclusion need |
| GapFlow.CandidateRelevantPartialFlowRows | dosweb/production.py:3076-3173 | exactly one row for every gap-eligible pair with a partial link and no flow, none for any other pair, and an error exactly when a gap cannot be represented |
| GapFlow.GapRowProvesNothing | dosweb/production.py:3131-3173 | a gap row never proves or supports a link: it cannot be mistaken for a flow |
| GapFlow.EligibleConclusionPairs | dosweb/production.py:3649-3708 | it returns exactly when every eligible link has a flow, with the status of each pair |
| GapFlow.OnlyLostProofsFail | dosweb/production.py:3649-3708 | after the supplement the check fails exactly when some eligible complete link has no formal flow |
| GapFlow.SupplementThenConclude | dosweb/production.py:3207-3232 | the two stages in sequence |

## Left out

- PipelinePublish.Publish: rollback steps are assumed to succeed, and artifact names to avoid the scratch names `manifest.json` and `backups/`; path normalisation, symlink checks and file modes are not modelled.
- PipelineHistory.RunAfterAnyPast: speaks of the artifacts the manifests list; an interrupted publication can leave an unlisted file, which a later run neither reads nor removes. Two stages never own the same path, and an executor depends on nothing its fingerprint does not cover.
- PipelineDisk.Disk.Kill: may resume from any earlier state of the same history, which includes every state of the killed run.
- PipelineRun.Pipeline.LoadRun: a malformed `run.json` cannot arise in the model, since only whole documents are written; run identities, timestamps and error details are left out.
- Jsonl.RoundTrip: JSON text is an abstract per-record encoder with a left inverse and no raw line break (section 7 of RFC 8259); the path-based reader `read_jsonl_strict` is not modelled.
- BatchTheorems.InterruptedBatch: state publication is assumed not to fail; the compatibility JSONL files and the lock file are not modelled, nor nested signals while the handler runs.
- BatchRank.LoopEnds: counts the steps of the main thread, the handler and the workers, not what a target's pipeline does between the start and the end of its worker.
- BatchRunner.Runner.Collect: the test of the interrupt and the return to the queue are one step, since nothing outside the main thread reads or changes the queue.
- DescriptorOwner.Owner.Close: the transaction table is one field, since entries go with their descriptor and only the last can have one; asynchronous exceptions inside the deferred region are limited to the entry, the exit and the modelled calls.
- AggregatePublication.RefusedExactlyWhen: stated for the format of the current generation; `SwitchRefusedExactlyWhen` has the other ones. Generation names are unique; symbolic links and foreign edits of the marker are left out.
- Association.OutcomeUnique: parsing the route out of a call path and binding a demand in an expression are called helpers; a row's coverage note is given as the reason code it spells.
- GrowthStage.GrowthLoop: relevance, negative-proof mapping, reachability and contract classification are arbitrary functions; repeatability, amplification, auth, audit and contract records are left out, as is the order of sorted lists inside a record.
- Checkers.CanonicalFlowEntryIds: works on schema-valid records, whose link identifier is the hash of the link.
- DispositionRules.RulesAgree: the identifier of the record, a hash of the rest, and the length limit on identifiers are left out.
- GapFlow.CandidateRelevantPartialFlowRows: which of several representable demands and inputs the row names is left open; the admitted roles are a parameter; the rows' final sort is left out.
- Historical aggregation, reports, CodeQL and LLM calls, configuration and plan validation, and dynamic validation: one-branch checks, text layout or foreign calls.
