# Verified model of the job scheduler core

A Dafny model of a job scheduler whose queue is a database table. A tick turns due job instances into rows
of `job_runs`. Pull workers claim QUEUED rows in batches and run each row's artifact in a subprocess.
Operators retry, cancel and redrive runs, and a sweeper closes runs that stay open too long. All of them
write to the same rows concurrently, and leftover subprocesses of earlier attempts may write too.

| module | what it models |
|---|---|
| `RunTable` | a run row, and every guarded statement as a function from the table before to the table after |
| `RunProtocol` | the run lifecycle as a labelled step system with 21 kinds of step; each service `await` is a step boundary |
| `RunInvariant` | the invariant every step keeps, and the state diagram that every step follows |
| `RunTheorems` | safety over whole traces: fencing, proxy, sweeping, cancelling, batch claims |
| `RunColumns` | where each column of a row comes from: the step whose time, result, reason or snapshot it shows |
| `RunAccounting` | conservation laws and the attempt number under concurrent retries |
| `RunHistory` | what a caller can know of a history: that a run ever existed, that a claim ran all along, that a cancel was accepted |
| `RunStore` | `RunStore` and `RunControlService` as classes, one statement per method; a store carries the history behind its rows, and every method extends it by steps of the protocol, so the trace theorems hold of the objects |
| `RunCalls` | the calls that send several statements (a batch claim, the two sweeps), with any steps of other clients between any two of them |
| `RunExamples` | concrete histories in which the races and surprises below happen |
| `PollLoop`, `PollFeed` | the worker's poll loop as a system of events and as a class; the loop fed by the claims of any history of the protocol |
| `Tick`, `TickConcurrency`, `TickRuns` | one tick with its savepoints; many ticks against instance patches; which instances are run, and with what |
| `TickProgress`, `TickStarvation` | whether repeated ticks catch up, and when ended schedules keep others from being claimed |
| `ExecutionMetadata`, `DefinitionHistory` | tick-time snapshot against live lookup; versions over the uploads of a definition |
| `RunIds` | building, decoding and telling apart run ids |
| `ZipPaths`, `ZipDepth` | the path normaliser; its meaning by depths and cancelling laws |
| `ZipScan`, `ZipWalkers` | the two entry loops, the entry policy, and how they agree |
| `Capture`, `Utf8` | chunked output capture and the result line; decoding output chunk by chunk |
| `Utf8Encoding`, `Utf8RoundTrip` | the encoder of RFC 3629, and that decoding inverts it |
| `Selection` | what `SELECT ... ORDER BY ... LIMIT` may answer |

## Assumptions

- A UUID is fresh: a step that draws a token draws one that was never drawn before.
- One SQL statement acts atomically on the committed row. A row locked by an open transaction is skipped by
  `SKIP LOCKED`; a plain UPDATE of it waits until COMMIT or ROLLBACK, so such a step is not enabled before.
- The answer of a SELECT is a parameter constrained by `Selection.Oldest`, so ties are broken in any way.
- A cron step, where it succeeds, is strictly later than its argument. This is used only where a member says
  `StrictlyLater`; a cron expression may also fail to parse.
- JSON text, ZIP entries, digests and clocks are opaque values. Clock readings are parameters and need not increase.
- The extraction root is an absolute directory other than `/`, without dot segments, as `mkdtemp` returns it.
- `PollLoop` asks of a claim that it answers with at most the asked number of pairs, of different runs, none of which
  the worker is executing already. `PollFeed.CommitAnswers` proves this of every committed claim of every history.
- A store method that is a step of the protocol asks that the step is enabled: the row is not locked by an open
  transaction (the statement would wait), a drawn token is fresh, and a token passed in came from a claim.
- `Capture` works on decoded text. `Utf8` adds the decoding of each chunk, with the decoder of the Encoding Standard, and
  says exactly when that is the text of the output.
- The batch UPDATEs of one claim may come in any order, which includes the source's order.

## Findings

- The sweeper's queries look at `started_at`, not at the heartbeat (src/stores/runStore.js:170-192), although the
  comment on `touchHeartbeat` calls the heartbeat the sweeper's liveness signal (src/stores/runStore.js:125-131).
  The model follows the code. `NoStaleRunIsInvisible` gives the exact condition for both queries, which is on the start
  alone; `BeatenRunIsSweptExample` and `BeatenCancelIsSweptExample` are runs that are heartbeated after the cutoff,
  listed and closed.
- Two retries that both take effect, the second one having read the row before the first one wrote it, lose an attempt
  number; `AttemptCountsRetriesIff` says exactly when, and `OverlappingRetriesExample` is such a history.
- A worker that re-claims a run whose old execution is still alive stops heartbeating one of the two;
  `HeartbeatCoversIff` says exactly when every execution is covered, and `FedReclaimExample` is a history of the
  database that feeds a worker so.
- An instance patch that writes back a stale document moves the cursor back. No fire is skipped or run twice
  (`NoFireIsSkipped`, `RunsAreKept`), but cursor and runs agree exactly when no tick advances the
  instance between a patch's read and its write (`ExactlyOnceIff`);
  `StaleWriteBackExample` builds the race for every schedule.
- An instance whose schedule has no next fire time at a due one stays due for ever (`StuckStaysDue`,
  `EndedScheduleExample`), and `batchSize` of them starve every instance with a later due fire time: `CatchesUpUnlessStarved`
  says exactly when an instance catches up, `StarvationExample` is one that never does. Whether a stored cron
  expression can end in this way is up to the cron library, which is not part of this model.
- A chunk of output is decoded on its own, so a character cut by a chunk boundary turns into replacement characters:
  well-formed output comes out right exactly if no boundary cuts a character (`PiecesRightIff`, `SplitCharExample`).
- Two overlapping uploads of one definition get the same version number for different code (`OverlappingUploadsRepeat`).
- A definition whose artifact generation is the number 0 is refused live and accepted from a snapshot (`ZeroGenerationSplits`).
- A name of which only white space is left is accepted the first time and refused the second; an entrypoint starting
  with a backslash passes the executor's check as an absolute path and is then refused by the extractor. These are
  the only exceptions (`AcceptedAgainIff`, `EntrypointUnchangedIff`; `BlankOnSecondSight`, `RootedOnSecondSight`).
- A failing RELEASE SAVEPOINT counts an instance both as advanced and as failed (`SummaryAddsUp`, `FailedReleaseExample`).

## Model

| member | source | states |
|---|---|---|
| `RunInvariant.TargetMoves` | src/stores/runStore.js:84-157 | whatever plain UPDATE a step sends, its row makes a move of the state diagram, keeps its columns in agreement with its state, and changes its token only by a claim or a retry |
| `RunInvariant.CommitMoves` | src/stores/runStore.js:59-72 | a committing batch moves each row it staged from QUEUED to RUNNING under a token never seen before, and no other row |
| `RunInvariant.RowMoves` | src/stores/runStore.js:28-204 | in every reachable state no step deletes a row, and each row changes only by a move of the diagram |
| `RunInvariant.NewRows` | src/services/runControlService.js:61-72 | a row that appears is attempt 1 in QUEUED, inserted by a create or a redrive, under no token or a freshly drawn one |
| `RunInvariant.LockedRowsStay` | src/stores/runStore.js:51-58 | a row locked by an open claim transaction is unchanged by every step until that transaction commits |
| `RunInvariant.StagedTokensStayHidden` | src/stores/runStore.js:59-72 | tokens drawn by an open transaction reach no committed row before its own commit |
| `RunInvariant.StepKeepsInv` | src/stores/runStore.js:28-204 | every one of the 21 kinds of step keeps the whole invariant: row shapes, tokens, open batches, pending requests, sweeper lists |
| `RunInvariant.Reachable` | src/stores/runStore.js:28-204 | the invariant holds in every state of every trace |
| `RunInvariant.ClaimCause` | src/stores/runStore.js:28-79 | a row goes from QUEUED to RUNNING only by `claimRun` or a batch commit, under the token that call reports |
| `RunTheorems.TokensNeverReused` | src/stores/runStore.js:28-79 | no two claims in a trace, of one run or of two, in one batch or not, carry the same token |
| `RunTheorems.Fencing` | src/stores/runStore.js:84-123 | once a run is claimed again, no write carrying an earlier claim's token ever changes any row |
| `RunTheorems.CompletionLandsIff` | src/stores/runStore.js:97-123 | the exact partner of fencing: a completion write under a claim's token, the worker's or the sweeper's, changes the table if and only if that claim has been RUNNING in every state since it was made, and then it leaves its result or error |
| `RunTheorems.AliveIff` | src/stores/runStore.js:132-141 | a claim is RUNNING or CANCELLING now if and only if it has been so in every state since it was made |
| `RunTheorems.LatestClaim` | src/stores/runStore.js:28-79 | a RUNNING or CANCELLING row carries the token of its latest claim, never null |
| `RunTheorems.SuccessComesFromLatestClaim` | src/services/workerRunService.js:332 | a run becomes SUCCEEDED only by a completion write under the token of its latest claim, with that write's result |
| `RunTheorems.SuccessIsFinal` | src/stores/runStore.js:97-109 | a SUCCEEDED row never changes again, whatever any caller still writes, and keeps the reported result |
| `RunTheorems.FailureComesFromLatestClaim` | src/services/workerRunService.js:360 | a run becomes FAILED only by the holder of its latest claim or by a sweep that listed exactly that claim |
| `RunTheorems.DeadForever` | src/stores/runStore.js:132-141 | a run that is not alive under a token already seen is never alive under it again |
| `RunTheorems.DeadTokensStayDead` | src/stores/runStore.js:132-141 | once a heartbeat finds nothing for a pair a claim handed out, every later heartbeat, completion write and proxy request with that token fails |
| `RunTheorems.ProxyAdmitsOnlyLatestClaim` | src/services/runtimeIgaProxyService.js:63-71 | the proxy admits a request only under the token of the run's latest claim, so its dispatch check is never vacuous |
| `RunTheorems.SweepFailsOnlyTheListedAttempt` | src/services/staleRunSweeper.js:41-69 | the fenced sweep changes a row only if the listed attempt ran without a break from listing to write; afterwards that attempt is never RUNNING again |
| `RunTheorems.CancelIsOneWay` | src/services/runControlService.js:3-5 | CANCELLING leads only to CANCELLED, CANCELLED rows never change, and neither state changes attempt or token |
| `RunTheorems.UnfencedSweepIsSafe` | src/services/staleRunSweeper.js:71-98 | the unfenced sweep only ever meets the attempt it listed, and leaves it CANCELLED |
| `RunTheorems.EveryRowIsShaped` | src/stores/runStore.js:97-123 | in every reachable row endedAt, heartbeatAt, startedAt, token, result and error agree with the state; result only in SUCCEEDED although a retry never clears it |
| `RunTheorems.NoStaleRunIsInvisible` | src/stores/runStore.js:170-192 | a listing of either query shorter than its limit lists a RUNNING, or a CANCELLING, row if and only if it started before the cutoff, whatever its heartbeat |
| `RunTheorems.ListedByStart` | src/stores/runStore.js:170-192 | for both queries and every limit: a listed run is in that state and started before the cutoff, and one that is left out although it did lost its place to a full answer of attempts that started no later |
| `RunTheorems.JobIsFixed` | src/stores/runStore.js:143-157 | what a run executes, its stored definition snapshot included, never changes after its row is inserted |
| `RunTheorems.RedriveRepeatsJob` | src/services/runControlService.js:61-72 | a redriven run executes what its source does at the insert, although the source was read in an earlier step; it is attempt 1 in QUEUED and no other row changes |
| `RunTheorems.BatchOrigin` | src/stores/runStore.js:47-58 | an open claim transaction holds exactly the rows its SELECT picked, and none has changed since |
| `RunTheorems.BatchClaimIsSound` | src/stores/runStore.js:47-79 | each pair a batch reports is a row its transaction moved from QUEUED to RUNNING under that token, with start and heartbeat at the time its SELECT brought and every other column unchanged; nothing else changed; the batch is the oldest `limit` unlocked QUEUED rows |
| `RunTheorems.ConcurrentBatchesAreDisjoint` | src/stores/runStore.js:42-58 | transactions open together share no row, no reported pair and no token |
| `RunColumns.StampsAt` | src/stores/runStore.js:28-204 | whatever a step changes of a row, the times it leaves are its own, the reason is the one it carries, and a runtime execution changes only by a record under the row's token |
| `RunColumns.StartedWhenClaimed` | src/stores/runStore.js:28-79 | in every state the start of a run is the clock reading of its latest claim: of that `claimRun`, or of the SELECT of that batch |
| `RunColumns.FreshClaimIsNotListed` | src/stores/runStore.js:170-192 | a run last claimed at or after a cutoff is listed by neither query of the sweeper with that cutoff |
| `RunColumns.EndedWhen` | src/stores/runStore.js:97-123 | a row that has ended is as one step left it: end and heartbeat at that step's time, its result or its reason, and the start and runtime execution as they were |
| `RunColumns.RecordedBy` | src/stores/runStore.js:84-95 | a runtime execution in a row was recorded by a step under the token the row still carries |
| `RunColumns.TouchedWhen` | src/stores/runStore.js:132-141 | a heartbeat shows the time of the last step that wrote it |
| `RunColumns.BornAs` | src/stores/runStore.js:14-23 | what a run executes, when it was created and what it is a redrive of are for ever what its insert said |
| `RunColumns.ServedByAge` | src/stores/runStore.js:51-58 | said of the rows: a batch's candidates were QUEUED and unlocked, in order of creation, and such a row left out means a full batch of rows created no later |
| `RunAccounting.Conservation` | src/stores/runStore.js:28-204 | per run in every trace: entries into each state equal exits plus one if the run is there now, for all six states |
| `RunAccounting.EdgeKeepsBooks` | src/services/runControlService.js:3-5 | every edge of the state diagram keeps the balance of entries and exits of all six states |
| `RunAccounting.SucceedsAtMostOnce` | src/stores/runStore.js:97-109 | a run succeeds at most once, and then it was never cancelled and was claimed once more than it was retried |
| `RunAccounting.AcceptedCancelIsFinal` | src/services/runControlService.js:36-59 | a run with an accepted cancel is CANCELLING or CANCELLED in every later state |
| `RunAccounting.AttemptBound` | src/services/runControlService.js:15-34 | in every interleaving the attempt is at least 1 and at most 1 plus the successful retries |
| `RunAccounting.AttemptCountsRetriesIff` | src/services/runControlService.js:18-27 | the attempt equals 1 plus the retries throughout a trace exactly when no retry has another one between its read and its write |
| `RunAccounting.OverlapLosesAttempt` | src/services/runControlService.js:18-27 | a retry that falls between another's read and write leaves the attempt below 1 plus the retries |
| `RunExamples.OverlappingRetriesExample` | src/services/runControlService.js:18-27 | a nine-step history that ends on attempt 2 after two successful retries |
| `RunExamples.BeatenRunIsSweptExample` | src/services/staleRunSweeper.js:41-69 | a five-step history, for every cutoff and later heartbeat, in which a RUNNING run with that heartbeat is listed and failed |
| `RunExamples.BeatenCancelIsSweptExample` | src/services/staleRunSweeper.js:71-98 | the same for a CANCELLING run: heartbeated after the cutoff, listed and closed |
| `RunExamples.FedReclaimExample` | src/workers/pollLoop.js:38-56 | an eleven-step history (claim, sweep, retry, claim) that feeds a worker with two slots a run it still executes, so that an execution loses its heartbeat |
| `RunHistory.EverIff` | src/stores/runStore.js:9-12 | a row is there now if and only if it was ever inserted |
| `RunHistory.HoldsIff` | src/stores/runStore.js:97-123 | a row is RUNNING under a token if and only if the claim that made it has been RUNNING ever since |
| `RunHistory.ProxyAdmitsIff` | src/services/runtimeIgaProxyService.js:63-71 | the proxy admits a request if and only if its token is that of a claim that has been RUNNING ever since, and never one without a token |
| `RunHistory.LivesOnIff` | src/stores/runStore.js:132-141 | the guard of a heartbeat holds if and only if its claim has been RUNNING or CANCELLING ever since |
| `RunHistory.CancelAcceptedIff` | src/services/runControlService.js:36-59 | a row is CANCELLING or CANCELLED if and only if a cancel of the run was accepted at some step |
| `RunHistory.FreshTokenIsNew` | src/stores/runStore.js:25-40 | a freshly drawn token is carried by no earlier claim of any run |
| `RunStore.Store.GetRun` | src/stores/runStore.js:9-12 | a row is found exactly if one was ever inserted in the whole history, and its columns agree with its state |
| `RunStore.Store.CreateRun` | src/stores/runStore.js:14-23 | created exactly if the id is new to the whole history; every existing row is unchanged; the call is one step of the protocol |
| `RunStore.Store.ClaimRun` | src/stores/runStore.js:28-37 | the UPDATE claims exactly if this step is a claim of the history, under a token no earlier claim ever carried; it writes state, token, start and heartbeat of that row and nothing else; otherwise no row changes |
| `RunStore.Store.ClaimRefused` | src/stores/runStore.js:38-39 | the query after an UPDATE without effect: missing exactly if the run has not existed up to that query |
| `RunStore.Store.RecordRuntimeExecution` | src/stores/runStore.js:84-95 | reported as written exactly if the claim has been RUNNING ever since it was made; otherwise nothing changes |
| `RunStore.Store.MarkSucceeded` | src/stores/runStore.js:97-109 | reported as updated exactly if the claim has been RUNNING ever since it was made, exactly then the run goes from RUNNING to SUCCEEDED with that result; otherwise nothing changes |
| `RunStore.Store.MarkFailed` | src/stores/runStore.js:111-123 | for the worker and the sweeper alike: reported as updated exactly if the claim has been RUNNING ever since it was made, exactly then the run goes from RUNNING to FAILED with that error |
| `RunStore.Store.TouchHeartbeat` | src/stores/runStore.js:132-141 | answered with the live state exactly if the claim has been RUNNING or CANCELLING ever since it was made; otherwise nothing changes |
| `RunStore.Store.MarkCancelled` | src/stores/runStore.js:194-204 | a listed run ends up CANCELLED whoever wrote it, on the same attempt and token; updated exactly if this step moved it |
| `RunStore.Store.ListStaleRunning` | src/stores/runStore.js:170-180 | every item carries the token, never null, of a claim that has been RUNNING ever since it was made |
| `RunStore.Store.ListStaleCancelling` | src/stores/runStore.js:182-192 | a cancel of every listed run was accepted |
| `RunStore.Control.RetryRead` | src/services/runControlService.js:18-21 | 404 exactly if the run never existed; the attempt it will write is at most 2 plus the retries so far |
| `RunStore.Control.RetryWrite` | src/services/runControlService.js:22-27 | goes through exactly if this step is a retry of the history, with its attempt within the retries so far and the row QUEUED under the fresh token; a lost race changes nothing |
| `RunStore.Control.RetryLost` | src/services/runControlService.js:28-32 | the re-read after a lost race always answers 409: a run that existed never goes missing |
| `RunStore.Control.CancelRead` | src/services/runControlService.js:38-42 | the idempotent answer exactly if a cancel of the run was accepted before, 404 exactly if it never existed, 409 exactly if it succeeded or failed, and a ticket whenever it is QUEUED or RUNNING |
| `RunStore.Control.CancelWrite` | src/services/runControlService.js:43-58 | takes effect exactly if the row is still in the state that was read, as an accepted cancel of the history that leaves it CANCELLING with its kill pending, or CANCELLED with its error; otherwise nothing changes |
| `RunStore.Control.ConfirmKill` | src/services/runControlService.js:85-99 | after a confirmed kill the run is CANCELLED, by this write or because the sweeper was first |
| `RunStore.Control.RedriveRead` | src/services/runControlService.js:63-65 | 404 exactly if the run never existed, a ticket with its row exactly if it has ended, 409 exactly if it has not |
| `RunStore.Control.RedriveInsert` | src/services/runControlService.js:66-70 | inserts a fresh attempt 1 that executes what its source does now; every existing row is unchanged |
| `RunCalls.OthersKeep` | src/stores/runStore.js:47-79 | whatever steps other clients take, an open claim transaction is as its own last statement left it |
| `RunCalls.ClaimNextQueued` | src/stores/runStore.js:47-79 | with any steps of other clients between its statements and no row count looked at: every reported pair is a claim made by its COMMIT, the answer is one the poll loop may rely on, and a call that fails changes no row |
| `RunCalls.MarkCountsIff` | src/services/staleRunSweeper.js:53-64 | a mark, at whatever step it gets through, changes its row if and only if the listed attempt ran in every state from the listing to the mark; that attempt is never RUNNING again |
| `RunCalls.SweepRunning` | src/services/staleRunSweeper.js:41-69 | with any steps between the marks and failing marks swallowed: the runs logged are exactly those whose listed attempt ran from the listing to its mark, and no marked one is ever RUNNING again |
| `RunCalls.SweepCancelling` | src/services/staleRunSweeper.js:71-98 | likewise: every run whose mark got through is CANCELLED in every later state, and the runs logged are exactly those this sweep moved |
| `Selection.OldestExists` | src/stores/runStore.js:51-58 | every table and limit has an answer that the selection accepts |
| `Selection.ShortAnswerIsComplete` | src/stores/runStore.js:170-192 | an answer shorter than its limit holds every matching row |
| `PollLoop.WorkerAccounting` | src/workers/pollLoop.js:29-56 | in every interleaving of polls and completions at most `maxConcurrency` executions are active, and every owned pair is active under that same token |
| `PollLoop.HeartbeatCoversIff` | src/workers/pollLoop.js:29-67 | every active execution is heartbeated at all times exactly when no poll claims a run the worker still executes |
| `PollLoop.OverlapLosesOwned` | src/workers/pollLoop.js:29-34 | a poll that re-claims a run still executing leaves an execution without a heartbeat |
| `PollLoop.ReclaimExample` | src/workers/pollLoop.js:29-56 | the four events of a worker with two slots that end with an execution nobody heartbeats |
| `PollFeed.CommitAnswers` | src/stores/runStore.js:47-79 | a committed claim answers with at most the limit, different runs, and no pair the worker is executing |
| `PollFeed.FedWorkerRuns` | src/workers/pollLoop.js:38-80 | a worker whose polls are claims of any history of the protocol meets every assumption of the loop's theorems |
| `PollFeed.FedWorkerAccounting` | src/workers/pollLoop.js:29-80 | such a worker never executes more than its capacity and heartbeats only what it executes under that token |
| `PollLoop.Worker.BeginPoll` | src/workers/pollLoop.js:38-44 | the limit it asks for and the executions in flight add up to exactly the capacity |
| `PollLoop.Worker.EndPoll` | src/workers/pollLoop.js:50-55 | afterwards at most the capacity is executing, every claimed pair is executed and owned, and every owned pair is executed under that token |
| `PollLoop.Worker.Settle` | src/workers/pollLoop.js:32-33 | one execution fewer, its run no longer owned under any token, and every owned pair still executed |
| `Tick.SavepointAtomicity` | src/services/schedulerTickService.js:37-62 | after commit each claimed instance has its two cursor columns moved on, every other column as before and its run present, or its row and runs are as before, whatever happened to the others |
| `Tick.SummaryAddsUp` | src/services/schedulerTickService.js:37-60 | advanced + failed equals checked plus the failed RELEASEs, and advanced <= createdRuns + duplicates <= checked |
| `Tick.CountersCount` | src/services/schedulerTickService.js:51-58 | createdRuns counts the inserts whose fire time was not run before the tick, duplicates those that were, advanced the instances moved on, failed the others and those with a late fault |
| `Tick.RunsAdded` | src/services/schedulerTickService.js:50-58 | the tick adds as many runs as instances got through with a fire time not run before |
| `Tick.FailedReleaseExample` | src/services/schedulerTickService.js:52-58 | a tick whose only instance fails at RELEASE reports it as advanced and as failed, and changes nothing |
| `Tick.Scheduler.Savepoint` | src/services/schedulerTickService.js:40-60 | one instance: its cursor moves on and its run is there, with every other column as before, or nothing changed; its counters are not rolled back |
| `Tick.Scheduler.Tick` | src/services/schedulerTickService.js:32-71 | a tick that commits leaves each claimed instance fully advanced or untouched and reports the counters of its savepoints; a tick that fails changes nothing |
| `TickConcurrency.LockedRowStays` | src/stores/instanceStore.js:65-76 | an instance locked by an open tick changes only by that tick's commit |
| `TickConcurrency.LocksKept` | src/services/schedulerTickService.js:32-62 | in every interleaving open ticks hold disjoint instances, see the committed rows they locked, and staged exactly the advances they made |
| `TickConcurrency.CommitTracked` | src/services/schedulerTickService.js:43-54 | a commit adds the run of the cursor's fire time, which is the next one or one already there |
| `TickConcurrency.NoFireIsSkipped` | src/services/jobInstanceService.js:48-57 | ticks interleaved with patches that do not recompute the cursor and may write a stale one back leave the runs exactly the first k fire times, with the cursor at the j-th for some j <= k |
| `TickConcurrency.RunsAreKept` | src/stores/runStore.js:159-168 | a scheduled run is never replaced or removed, so a fire time met again becomes a duplicate |
| `TickConcurrency.CommitCounts` | src/stores/instanceStore.js:78-85 | from k runs and a cursor at the k-th fire time, a commit that advanced the instance leaves k + 1 runs, the cursor at the next time and lastFireAt at the k-th |
| `TickConcurrency.ExactlyOnce` | src/services/schedulerTickService.js:32-68 | concurrent ticks, with write-backs that find the cursor they carry, leave, for some k, exactly the first k runs, nextFireAt at the k-th time and lastFireAt at the one before |
| `TickConcurrency.SameRunsSameCount` | src/services/schedulerTickService.js:131-135 | fire times are all different, so the runs determine k |
| `TickConcurrency.ExactlyOnceIff` | src/services/jobInstanceService.js:48-66 | the instance is in step in all states exactly when no tick advances it between the read and the write of a patch or delete |
| `TickConcurrency.CursorMovesIff` | src/stores/instanceStore.js:78-85 | between two states the cursor moves on exactly if a tick advanced the instance in between, as long as no write-back is stale |
| `TickConcurrency.StaleWriteBackExample` | src/services/jobInstanceService.js:48-57 | for every schedule and first fire time, a five-step history in which a stale write-back sets the cursor back before a run |
| `TickRuns.TakenByAge` | src/stores/instanceStore.js:65-76 | said of the rows: a tick claims enabled, active, unlocked, due instances, and such a one left out means a full batch of others due no later |
| `TickRuns.RunOrigin` | src/services/schedulerTickService.js:43-51 | every scheduled run was inserted by the commit of a tick at which its instance was enabled, active and due at that very fire time, and carries the parameters it had then |
| `TickRuns.RestingIsNotRun` | src/stores/instanceStore.js:65-76 | while an instance is disabled, paused or deleted and nobody rewrites it, no tick adds a run of it |
| `TickRuns.WriteBackIs` | src/services/jobInstanceService.js:48-66 | what a patch or delete writes back is, field by field, what its change says of what its read found |
| `TickRuns.StoppedIsNotRun` | src/services/jobInstanceService.js:59-66 | after a pause or delete is written back, no tick runs the instance until somebody rewrites it |
| `TickRuns.CreatesIff` | src/stores/instanceStore.js:7-30 | a create goes through exactly on an id that is free or deleted, and then replaces the whole document |
| `TickRuns.ParametersCarried` | src/services/schedulerTickService.js:73-95 | over any history without a patch of the parameters, every run of an instance has the parameters it was created with |
| `TickProgress.TickShrinksBacklog` | src/services/schedulerTickService.js:32-62 | a fault-free tick with something due strictly lowers the summed distance of the cursors to the clock |
| `TickProgress.StuckStaysDue` | src/services/schedulerTickService.js:131-135 | an instance whose schedule fails at a due fire time is due after every number of ticks |
| `TickProgress.CatchesUpIff` | src/services/schedulerTickService.js:32-68 | with the clock fixed, as many ticks as the backlog reach a state with nothing due exactly when every due schedule parses up to the clock |
| `TickProgress.EndedScheduleExample` | src/services/schedulerTickService.js:131-135 | a cron function that ends: its instance is due after every one of any number of ticks |
| `TickStarvation.OthersCatchUp` | src/stores/instanceStore.js:65-76 | with fewer instances than the batch size ended by a time, every other instance gets past that time within as many ticks as the backlog up to it |
| `TickStarvation.Starves` | src/stores/instanceStore.js:65-76 | with at least batchSize instances ended before one of its due fire times, an instance stays due in every state, however many ticks come |
| `TickStarvation.CatchesUpUnlessStarved` | src/stores/instanceStore.js:65-76 | an instance catches up if and only if fewer than batchSize instances have ended before its last due fire time |
| `TickStarvation.StarvationExample` | src/stores/instanceStore.js:65-76 | with a batch of one, an ended instance keeps a healthy one from being run by any number of ticks |
| `ExecutionMetadata.SnapshotRefinesLiveIff` | src/services/workerRunService.js:399-435 | for every document and run, snapshot and live lookup give the same value or error code exactly when the document is not the zero-generation split |
| `ExecutionMetadata.SnapshotRefinesLive` | src/services/schedulerTickService.js:104-127 | with a generation that is absent, null, text or a non-zero number, building from the tick's snapshot equals building from a live read |
| `ExecutionMetadata.ZeroGenerationSplits` | src/services/workerRunService.js:407-418 | a document with generation 0 that is refused live and accepted from its snapshot |
| `ExecutionMetadata.LiveOutcome` | src/services/workerRunService.js:414-434 | for every run and document, each error code exactly when its own condition is the first to fail; otherwise every field is that document's and the generation is its text |
| `ExecutionMetadata.SnapshotOutcome` | src/services/workerRunService.js:402-412 | the same from a snapshot, about the document it was taken of |
| `ExecutionMetadata.DigitsReadBack` | src/services/schedulerTickService.js:123 | the text of a generation reads back as its number, in digits without a leading zero |
| `DefinitionHistory.TimelyMeansNumbered` | src/services/jobDefinitionService.js:29-33 | if no upload writes late, the uploads of an id are numbered 1, 2, 3, ... through patches, deletes and re-uploads |
| `DefinitionHistory.ApartMeansTimely` | src/services/jobDefinitionService.js:32-86 | uploads that never overlap always write in time |
| `DefinitionHistory.VersionsDifferIff` | src/services/jobDefinitionService.js:53-86 | version numbers never repeat exactly when no upload writes over a version it did not read |
| `DefinitionHistory.VersionPinIsCodePin` | src/services/workerRunService.js:402-418 | when metadata is built for a run pinned to v, from the live document or any earlier snapshot, the digest is that of the upload numbered v |
| `DefinitionHistory.OverlappingUploadsRepeat` | src/services/jobDefinitionService.js:32-86 | a history in which two uploads of different code are both numbered 2 |
| `DefinitionHistory.UploadIsServed` | src/services/jobDefinitionService.js:53-86 | after an upload lands, a live run gets that upload's metadata, number, digest, uri and generation |
| `DefinitionHistory.FirstUploadNeverOverwrites` | src/services/jobDefinitionService.js:79-86 | an upload that found no document never overwrites one: of two first uploads only the first to write lands |
| `DefinitionHistory.DeletedIsRefused` | src/services/jobDefinitionService.js:168-177 | a deleted definition is marked and disabled, keeps its number and its code, and a live run of it is refused as not active |
| `DefinitionHistory.PatchLeavesCode` | src/services/jobDefinitionService.js:137-149 | a patch changes whether a definition is enabled and how long it may run, never its number or its code |
| `RunIds.DecodeBuild` | src/utils/runId.js:1-13 | cutting an id at its third-last colon recovers tenant, colon-free instance and ISO fire time, whatever colons the tenant has |
| `RunIds.BuildIsInjective` | src/utils/runId.js:10-12 | equal scheduled ids come from equal tenants, instances and fire times |
| `RunIds.KindsDiffer` | src/routes/jobInstances.js:90 | scheduled, manual and redrive ids never coincide |
| `ZipPaths.SplitJoin` | src/utils/zipArtifactPolicy.js:51 | splitting a joined list of slash-free segments gives the list back |
| `ZipPaths.ResolveResolves` | src/utils/zipArtifactPolicy.js:51 | resolving dot segments leaves no `.`, no empty segment, and `..` only in front of a relative path |
| `ZipPaths.NormalizeIdempotent` | src/utils/zipArtifactPolicy.js:51 | normalising twice is normalising once, for every string |
| `ZipPaths.LeavesRootIff` | src/utils/zipArtifactPolicy.js:53-55 | the textual check refuses a relative name exactly when its resolved segments are none, without a trailing slash, or begin with `..` |
| `ZipDepth.AcceptedIff` | src/utils/zipArtifactPolicy.js:38-58 | read off the raw segments: a name is accepted exactly if it is not blank, has no backslash, is relative, no prefix holds more `..` than plain segments, and it does not end at depth 0 without a trailing slash |
| `ZipDepth.EntrypointAcceptedIff` | src/services/jobRuntimeExecutor.js:262 | the executor's check likewise, on the segments between slashes of either kind |
| `ZipDepth.ResolvedByDepth` | src/utils/zipArtifactPolicy.js:51 | how many `..` lead a normal form, and how many segments it has, from the depths of the prefixes alone |
| `ZipDepth.NormalCancels` | src/utils/zipArtifactPolicy.js:51 | removing a plain segment and the `..` after it, anywhere in a name, leaves its normal form as it was |
| `ZipDepth.NormalDrops` | src/utils/zipArtifactPolicy.js:51 | so does removing a `.` or an empty segment |
| `ZipDepth.JoinSplit` | src/utils/zipArtifactPolicy.js:82 | joining the segments of a name with slashes gives the name back |
| `ZipPaths.AcceptedStaysInside` | src/utils/zipArtifactPolicy.js:38-58 | an accepted name has no `..` segment |
| `ZipPaths.AcceptedAgainIff` | src/utils/zipArtifactPolicy.js:38-58 | an accepted name is accepted again, unchanged, exactly unless its only resolved segment is white space and it has no trailing slash |
| `ZipPaths.EntrypointUnchangedIff` | src/services/jobRuntimeExecutor.js:262 | what the executor makes of an entrypoint is used unchanged by the extractor, or refused: exactly if the entrypoint begins with a backslash or only white space is left of it |
| `ZipPaths.BlankOnSecondSight` | src/utils/zipArtifactPolicy.js:39-41 | a name that is accepted and whose normal form is refused |
| `ZipPaths.RootedOnSecondSight` | src/services/jobRuntimeExecutor.js:262 | an entrypoint that the executor accepts and the extractor refuses |
| `ZipPaths.AcceptedJoins` | src/utils/safeZipExtract.js:146-155 | every accepted name joins to the root or below it, so the throw in `safeJoin` is unreachable |
| `ZipDepth.SafeJoinIff` | src/utils/safeZipExtract.js:146-155 | `safeJoin` throws exactly if the resolved target does not lie at or below the root, segment by segment: the textual prefix check never takes a sibling for a child |
| `ZipScan.CountersGrow` | src/utils/safeZipExtract.js:88-100 | the file and byte counts of a prefix never exceed those of the whole list |
| `ZipScan.Extract` | src/utils/safeZipExtract.js:78-124 | the extracting loop accepts exactly the entry lists that pass the policy, fit both limits and join, and reports their counts and targets |
| `ZipScan.Validate` | src/utils/zipValidation.js:9-149 | the validating loop accepts exactly the uploads of at most 10 MiB, 200 files and 50 MiB unpacked whose manifests are at most 64 KiB and parse, whose entrypoint and manifest are present and whose last manifest has the metadata's entrypoint and, where given, runtime and wrapper version |
| `ZipWalkers.DirectoryNameKeepsSlash` | src/utils/zipArtifactPolicy.js:60-62 | the normalised name of an entry ends in a slash exactly when the entry is a directory |
| `ZipWalkers.AdmittedIff` | src/utils/zipArtifactPolicy.js:24-36 | an entry is admitted exactly if its name is accepted, no segment of the normal form is on the denied lists, and it is neither a symbolic link by its mode bits nor a shortcut; its name is then the normal form |
| `ZipWalkers.ExtractValidated` | src/utils/safeZipExtract.js:78-102 | every entry list that validates passes all checks of the extractor, with the same counts |
| `ZipWalkers.ValidatedEntrypoint` | src/utils/safeZipExtract.js:22-27 | the entrypoint of a validated upload names an entry, is left alone by the executor, and joins to where that entry is written |
| `Capture.LengthBounds` | src/services/jobRuntimeExecutor.js:256 | UTF-8 text takes one to three bytes per UTF-16 unit (section 3 of RFC 3629) |
| `Capture.LengthGrows` | src/services/jobRuntimeExecutor.js:256 | appending never shortens the UTF-8 form, even where it completes a surrogate pair |
| `Capture.CaptureOutput` | src/services/jobRuntimeExecutor.js:236-240 | for any sequence of decoded chunks the captured text is the first maxBytes units of their concatenation, and the flag is set exactly when its UTF-8 length exceeds maxBytes |
| `Utf8.DecodeAppend` | src/services/jobRuntimeExecutor.js:256 | well-formed bytes decode to the same text whatever follows them |
| `Utf8.PiecesRightIff` | src/services/jobRuntimeExecutor.js:256 | well-formed output decoded chunk by chunk gives its text if and only if no chunk boundary cuts a character |
| `Utf8Encoding.EncodedIsChar` | src/services/jobRuntimeExecutor.js:256 | every scalar value, encoded by the table of section 3 of RFC 3629, is one well-formed character with that value |
| `Utf8RoundTrip.EncodeDecode` | src/services/jobRuntimeExecutor.js:256 | encoding, by the table of section 3 of RFC 3629, what well-formed bytes decode to gives the bytes back |
| `Utf8RoundTrip.DecodeEncode` | src/services/jobRuntimeExecutor.js:256 | decoding an encoded text without lone surrogates gives the text back |
| `Utf8RoundTrip.EncodedLength` | src/services/jobRuntimeExecutor.js:256 | the byte length the limits compare is the length of the encoded text, for every text |
| `Utf8RoundTrip.EmittedBytesReturn` | src/runtime/result.js:3-5 | on bytes: UTF-8 output with an emitted line, in chunks that cut no character and fitting up to the end of the payload, returns the emitted value |
| `Utf8.SplitCharExample` | src/services/jobRuntimeExecutor.js:256 | a character of two bytes in two chunks is lost |
| `Utf8.CaptureBytes` | src/services/jobRuntimeExecutor.js:236-256 | on bytes: if no boundary cuts a character, the capture is the first maxBytes units of the output's text and is flagged exactly if the output has more than maxBytes bytes |
| `Capture.LinesAppend` | src/services/jobRuntimeExecutor.js:259 | text that ends in a line break contributes whole lines, whatever follows |
| `Capture.LinesOfWritten` | src/services/jobRuntimeExecutor.js:259 | lines written with either kind of line break are read back as they were |
| `Capture.CutStaysUnmarked` | src/services/jobRuntimeExecutor.js:256-259 | cutting output that holds no marked line does not make one |
| `Capture.EmittedUnderCapture` | src/services/jobRuntimeExecutor.js:236-259 | for every capture limit: no result if the marker does not fit; else the payload, cut where the capture cuts it, is too large, not JSON, or the result |
| `Capture.EmittedValueReturns` | src/runtime/result.js:3-5 | if the output up to the end of the payload fits and the payload is within its limit, the emitted value comes back (no raw line break in the payload, section 7 of RFC 8259) |

## Left out

- HTTP routes, authentication, start-up validation, deployment files and scripts: plumbing without a deep invariant.
- Postgres, Elasticsearch, storage and secret clients, and SQL text building: only the guarded meaning of each statement is modelled.
- The SQLite `LocalRunStore`: it mints no tokens, so the fencing theorems do not apply to it.
- `completeRun` and `dispatchRun`: not on the pull path; `completeRun` writes without a fence (src/services/workerRunService.js:151-166), so the fencing theorems would be false with it.
- Process spawning, signals, timers, memory limits, audit events and stored status messages: operating-system or best-effort effects.
- Artifact clean-up after a failed upload, and its effect on an earlier upload with the same digest.
- `heartbeatOnce` as a loop: each of its heartbeats is a call of `TouchHeartbeat`.
- Starting a second poll loop while a poll of the first is still pending: `PollLoop` has one loop, whose polls do not overlap.
- Cron parsing and time zones, SHA-256, ZIP decoding, JSON parsing: opaque functions.
- A statement of `claimRun`, `retryRun` or `cancelRun` that fails with an exception: nothing is sent after it, so the rows are as the steps before left them.
- File-system errors and stream errors during extraction, and the file check on the extracted entrypoint.
- That a deleted instance stays deleted: a patch read before the delete can bring it back (src/services/jobInstanceService.js:48-57).
- The reply of `cancelRun`: it reports a cancel even when the transition was lost (src/services/runControlService.js:53-58); rows are modelled, not replies.
- RunStore.Store.MarkSucceeded: takes the claim, so a call without a dispatch id is outside the model; only `completeRun` makes such calls (src/services/workerRunService.js:151-166).
- RunStore.Store.MarkFailed: takes the claim, as above.
- RunStore.Store.RecordRuntimeExecution: takes the claim, as above.
- RunStore.Control.CancelWrite: returns whether the write took effect, which `cancelRun` itself does not tell its caller.
- TickConcurrency.NoFireIsSkipped: starts at the creation of an instance id that has no runs yet and follows it until it is created anew after a delete; an id reused after a delete may meet run ids of its earlier life.
- TickStarvation.CatchesUpUnlessStarved: an instance that ends at exactly the last due fire time of another is excluded, because the database may break that tie either way; `OthersCatchUp` and `Starves` hold with ties.
- TickConcurrency.ExactlyOnce: the order in which a tick handles its claimed instances is arbitrary, and a commit may come before all of them are handled; both only add behaviours.
- ExecutionMetadata.SnapshotRefinesLive: numbers are whole, so fractional and not-a-number generations are not covered.
- Fault reports such as error codes and messages are modelled only as far as they decide a branch.
