# minitaskx, modelled and proved

minitaskx schedules long-running tasks onto workers. A scheduler stores tasks and
assigns them; each worker compares what is wanted with what its executors report,
queues the differences as changes, carries them out, and stores the results. The
two sides meet in the stored status of a task.

| file | what it models |
|---|---|
| TaskModel.dfy | statuses, the transition table, the task repository with its merging update and batch read, changes and their keys |
| SliceQueue.dfy, QueueMetrics.dfy, WorkQueue.dfy | the slice FIFO, the metrics and the keyed queue as objects; each critical section as a function on the queue's state |
| QueueProtocol.dfy | the queue under any number of callers, with sleeping and woken waiters |
| WorkerRuns.dfy | producer, consumers and result monitor of a worker, interleaved |
| Rounds.dfy, Reconcile.dfy, Convergence.dfy | what one reconcile round is about, the round in its own loops, and what repeated rounds achieve |
| Lifecycle.dfy | the stored task under all its writers |
| Lists.dfy, Placement.dfy, Balance.dfy, Reassignment.dfy | filtering, scoring, choosing, estimating and the reassignment pass |
| RunLoop.dfy | the goroutine executor's run of one key, and the executor object with its control map |
| Backoff.dfy | backoff and retry |

Concurrent parts are step systems: a step is one critical section or one channel
operation, a run is any sequence of enabled steps, and results are stated for all
runs. A step names the choice the runtime makes (which waiter a signal wakes), so
every choice is a run. Sequential parts are methods proved against functions on
values; the step systems use the same functions.

## Where the code does not do what is expected of it

Each of these is a proved condition that says exactly when the expected property holds.

- **Serial commands.** Deliveries of a key are always separated by a `Done` for it.
  Executor commands are, unless a `Done` overtakes a fetched change that has not been
  carried out yet while the queue still accepts changes. A result overtakes when a task ends by
  itself or a refresh reports it; `JumpChange` overtakes when a result has already released the
  key of a refused command. Continuations of a step have serial commands exactly when the step is
  no such `Done`: `WorkerRuns.StepKeepsCommandsSerialIff`.
- **Draining.** `ShutDownWithDrain` is documented as waiting for all existing items. It waits
  for the items in `processing`; its return guarantees an empty queue exactly when the queue was
  empty at the call. A drain call made with at most one other drain outstanding can lead to a drainer
  asleep with nothing to wait for exactly when one is outstanding and something is being processed
  at the call; only some later `Done` or shutdown call would wake it.
  `QueueProtocol.DrainEmptiesQueueIffCalledOnEmptyQueue`, `QueueProtocol.DrainCanStrandIffOverlapping`.
- **Skipping busy tasks.** On a resync, if skipping the busy keys empties the list of actual
  keys but not the list of wanted keys, `ListTasks` returns the whole cache, and diff makes a delete
  change for a busy task that is running or paused, whatever is wanted of it. The queue intercepts
  that change while the task is busy. It gets through exactly when a `Done` releases the task between the check and the add and the
  queue is not shutting down: `Convergence.BusyTaskIsDeletedIff`.
- **Taints.** The taint test means "every taint is tolerated" exactly when no taint of the worker
  has an empty value.
- **Finished tasks.** A finished task leaves its final status exactly at one of these steps: an
  assignment of the task, a report that is not final, an exception written for it, or the write of an
  operate request that passed its check before the task finished (`Lifecycle.StepKeepsFinishedIff`,
  and `Lifecycle.StaysFinishedIffUndisturbed` for runs). Left alone by the first three, it stays
  finished whatever is requested exactly when no request was in flight. The report that is not final
  is real: see the next point.
- **Executor results.** `Run` reports Running after starting the goroutine. If the run ends first,
  the last result is Running, the executor lists the finished task from then on, and the repository
  stores it as running (`Lifecycle.StoredAsFinishedIffStartWasInTime`). A forced exit
  leaves the loop behind, which then reports a second final result.
- **Metrics.** Processing-start times agree with the processing set exactly when items are their own
  keys. With changes that are finished by key alone, no start time is ever removed.
- **Retry.** `OnError` returns nil exactly when an attempt succeeded, when no step was allowed, or
  when the first attempt failed with a non-retriable `ErrWaitTimeout`.
- **Documentation.** The comments at internal/queue/queue.go:181-184 and 265-267 and the tests at
  internal/queue/queue_test.go:186-214, 245-296 and 383-421 describe re-queueing an item that was
  added while it was processed. The code intercepts such an `Add`; the model follows the code.

## Model

| member | source | states |
|---|---|---|
| TaskModel.WaitStatuses | core/model/task_status.go:26-32 | the prefix test for wait statuses accepts exactly the four wait statuses, none of which is final |
| TaskModel.ExceptionTypes | core/model/status_change.go:71-73 | the prefix test for exceptions accepts exactly the two exception changes |
| TaskModel.TableMeaning | core/model/status_change.go:26-57 | the table has an entry exactly from a state a live task can be in to a different state one can want; every normal entry leads to the wanted state; which pairs create, which delete, and which are which exception |
| TaskModel.PreWaitMeaning | core/model/task_status.go:39-50 | a wait status is named after the state it waits for, the final states share the one of a stop, no other state has one |
| SliceQueue.SliceQueue.Push | internal/queue/queue.go:65-67 | appends to the contents, in place or in a larger array, and cells outside the window stay zero |
| SliceQueue.SliceQueue.Compact | internal/queue/queue.go:81-85 | the copy has the same contents and no spare capacity |
| SliceQueue.SliceQueue.Pop | internal/queue/queue.go:73-88 | returns the head, leaves the tail, blanks the cell; afterwards capacity is at most 256 or at most about four times the length |
| QueueMetrics.Recorder.Add | internal/queue/metrics.go:92-102 | counts and gauges up, first add time kept |
| QueueMetrics.Recorder.Get | internal/queue/metrics.go:104-115 | gauge down, start time set, add time dropped |
| QueueMetrics.Recorder.Done | internal/queue/metrics.go:117-126 | drops the start time stored under exactly that item |
| WorkQueue.AddKeepsConsistent | internal/queue/queue.go:199-223 | an add keeps: dirty is the set of queued keys, keys distinct, dirty and processing disjoint; afterwards the key is in the queue or processing unless shut down |
| WorkQueue.GetKeepsConsistent | internal/queue/queue.go:244-263 | a delivery keeps the same, and the delivered key was queued and not being processed |
| WorkQueue.LenIsDirtyCount | internal/queue/queue.go:235-239 | as many items wait as there are dirty keys |
| WorkQueue.Typed.Add | internal/queue/queue.go:199-223 | refusal, interception of queued and processed keys, acceptance, whom it wakes, and the metrics |
| WorkQueue.Typed.Exist | internal/queue/queue.go:226-230 | true exactly for queued or processed keys |
| WorkQueue.Typed.Len | internal/queue/queue.go:235-239 | queue length and number of dirty keys |
| WorkQueue.Typed.Get | internal/queue/queue.go:244-263 | item before shutdown before waiting, the head's key moves from dirty to processing |
| WorkQueue.Typed.Done | internal/queue/queue.go:268-278 | removes the key from processing and signals exactly when nothing is processed any more |
| WorkQueue.Typed.ShutDown | internal/queue/queue.go:282-289 | clears drain, sets the flag, wakes everybody |
| WorkQueue.Typed.ShutDownWithDrain | internal/queue/queue.go:300-311 | sets both flags, wakes everybody, waits exactly while something is processed |
| QueueProtocol.NextKeepsSafe | internal/queue/queue.go:199-311 | every step of every caller keeps consistency, history and the no-lost-wakeup condition |
| QueueProtocol.EveryRunIsSafe | internal/queue/queue.go:199-311 | in every run: a sleeping consumer means not shut down and no more items than woken consumers; delivered items followed by the queue are the accepted ones in order; length equals the number of dirty keys |
| QueueProtocol.GetRecordsItsOutcome | internal/queue/queue.go:244-263 | a Get that holds the lock delivers the head, reports shutdown, or goes to sleep, and the history says so |
| QueueProtocol.AddAndDoneSignal | internal/queue/queue.go:199-278 | an accepted add, and a Done that leaves nothing in processing, wake exactly one sleeper if there is one; other adds and Dones wake nobody |
| QueueProtocol.ShutDownIsFinal | internal/queue/queue.go:199-223 | after shutdown nothing is accepted in any continuation |
| QueueProtocol.ShutDownIsLossless | internal/queue/queue.go:244-289 | when a Get first reports shutdown everything accepted has been delivered; nothing is delivered later and every later Get reports shutdown |
| QueueProtocol.DrainIsNeverStranded | internal/queue/queue.go:268-311 | in every run in which no drain call has to wait beside another one, a sleeping drainer has something in processing and the drain flag set |
| QueueProtocol.OverlapCanStrand | internal/queue/queue.go:268-311 | from any safe state, a drain call made while another drain is outstanding and something is processed can be continued, without a further drain call, to a drainer asleep with nothing to wait for |
| QueueProtocol.DrainCanStrandIffOverlapping | internal/queue/queue.go:300-311 | a drain call made while at most one other is outstanding can strand a drainer exactly when one is outstanding and something is being processed |
| QueueProtocol.OverlapIsReachable | internal/queue/queue.go:300-311 | for every key function and item, a run from the start that reaches such a call |
| QueueProtocol.DrainIsBounded | internal/queue/queue.go:244-311 | after shutdown, effective Gets and Dones plus the remaining 2*queue+processing equal the amount at the start |
| QueueProtocol.DrainEmptiesQueueIffCalledOnEmptyQueue | internal/queue/queue.go:291-311 | over all interleavings, a returning drain guarantees an empty queue exactly when the queue was empty at the call |
| QueueProtocol.ShutDownReleasesDrainers | internal/queue/queue.go:282-311 | after a shutdown no drainer sleeps again in any continuation without a new drain call |
| QueueProtocol.MetricsAgreeInEveryRun | internal/queue/metrics.go:92-115 | gauge, counter and add times describe queue and accepted adds in every run |
| QueueProtocol.StampsAreTaken | internal/queue/metrics.go:92-126 | which clock reading each step stores under which item, and that no other step moves one |
| QueueProtocol.StartsAgreeIffItemsAreKeys | internal/queue/metrics.go:104-126 | a step keeps start times equal to the processing set exactly when it uses items that are their own keys |
| QueueProtocol.StartsAgreeInEveryRun | internal/queue/metrics.go:104-126 | for items that are their own keys they agree in every run |
| QueueProtocol.StartTimesAreNeverRemoved | internal/queue/metrics.go:117-126 | with full items finished by key, every delivered item keeps its start time |
| WorkerRuns.DeliveriesAreSerial | internal/queue/queue.go:199-278 | over every interleaving, two deliveries of a task have a Done for it between them |
| WorkerRuns.CommandsAreSerial | core/worker/worker.go:120-135 | over every run in which no Done overtakes a command before shutdown, two executor commands for a task have a Done for it between them |
| WorkerRuns.OvertakingBreaksSerialCommands | core/worker/infomer/infomer.go:132-147 | from any state that is serial so far, every overtaking Done, from a result or from JumpChange, can be followed by two commands for a task with no Done between |
| WorkerRuns.StepKeepsCommandsSerialIff | core/worker/infomer/infomer.go:122-147 | all continuations of a step without overtaking have serial commands for all tasks exactly when the step does not overtake |
| WorkerRuns.ResultCanOvertake | core/worker/infomer/infomer.go:132-147 | a run that is serial so far in which a result overtakes a fetched change |
| WorkerRuns.JumpCanOvertake | core/worker/worker.go:120-135 | a run that is serial so far in which giving up a refused change overtakes a new one |
| WorkerRuns.CommandsStaySerialAfterShutDown | core/worker/infomer/infomer.go:77-94 | after shutdown commands stay serial however early tasks are finished |
| WorkerRuns.EveryRunIsSerial | core/worker/infomer/infomer.go:122-147 | both serialisation results from the start of a worker, early finishes after shutdown included |
| WorkerRuns.CheckedChangeIsNeverIntercepted | core/worker/infomer/infomer.go:157-164 | once the producer has seen a key free, no step of others and no change for another key makes its change a duplicate |
| WorkerRuns.BusyUntilReleased | internal/queue/queue.go:199-278 | a task that was busy is free after other threads' steps exactly when one of them marked it done while it was being processed |
| Reconcile.Infomer.ListCache | internal/cache/threadsafe_map.go:76-84 | every cached result once, in some order |
| Reconcile.Infomer.ListTasks | core/worker/infomer/indexer.go:39-54 | the cached results with those keys, or all of them for no keys |
| Reconcile.Infomer.ListTaskKeys | core/worker/infomer/indexer.go:56-64 | exactly the cached keys |
| Reconcile.Infomer.LoadTaskPairs | core/worker/infomer/infomer.go:214-243 | the outer join of wanted and actual tasks, each key once for distinct keys |
| Reconcile.Infomer.ProcessingKeys | core/worker/infomer/infomer.go:158-164 | the trigger keys that are queued or processed |
| Reconcile.Infomer.KeysToLoad | core/worker/infomer/infomer.go:166-184 | trigger keys and, on a resync, cached keys, both without the processing trigger keys |
| Reconcile.Infomer.DropFinished | core/worker/infomer/infomer.go:193-211 | the pairs in which neither side is final |
| Reconcile.Infomer.LoadTaskPairsThreadSafe | core/worker/infomer/infomer.go:157-212 | the pairs seen are exactly the specified ones, key by key |
| Reconcile.Infomer.Diff | core/worker/infomer/infomer.go:245-283 | one change for each pair that differs and has a rule, in the order of the pairs |
| Reconcile.Infomer.HandleException | core/worker/infomer/infomer.go:285-302 | normal changes pass in their order; each exception stores Paused and its message |
| Reconcile.Infomer.ComputeChanges | core/worker/infomer/infomer.go:106-117 | loading, filtering and diffing together compute the specified change of every key |
| Reconcile.Infomer.Enqueue | core/worker/infomer/infomer.go:122-127 | the queue after adding the changes in order |
| Reconcile.Infomer.ProcessTask | core/worker/infomer/indexer.go:137-148 | caches the result, merges its status into the stored task, marks the key done |
| Reconcile.Infomer.ProcessTrigger | core/worker/infomer/infomer.go:97-130 | one trigger end to end: the changes, the repository and the queue afterwards; finished tasks are neither written nor queued, what is new in the queue carries its task; for distinct trigger keys the queue gains the changes of free tasks in their order |
| Reconcile.OutcomeOfRound | core/worker/infomer/infomer.go:97-130 | the same of the specified round: what is stored under every key, and what is new in the queue |
| Reconcile.AddAllMeaning | core/worker/infomer/infomer.go:122-127 | changes of different tasks all get in, in order, but for those whose task is busy, and none after shutdown |
| Rounds.FinishedTasksAreLeftAlone | core/worker/infomer/infomer.go:193-211 | a task that the repository or the cache has as finished gets no change, whatever is busy |
| Rounds.ChangeIffTableEntry | core/worker/infomer/infomer.go:157-283 | every other task gets a change exactly when the table has an entry for its cached and its wanted status, and it is that entry |
| Rounds.ChangesCarryTheirTasks | core/worker/infomer/infomer.go:251-281 | a create change carries the stored task, no other change carries one; the type is the stored task's if it is wanted, else the cached result's |
| Rounds.ExceptionsAreStored | core/worker/infomer/infomer.go:285-302 | a round marks exactly the wanted, unfinished tasks that do not exist and should be paused or stopped, with their reason, and touches no other task |
| Convergence.RoundsAreLevelTriggered | core/worker/infomer/infomer.go:157-302 | carry out any of a round's changes in any order: the next round asks for exactly the others |
| Convergence.OneRoundConverges | core/worker/infomer/infomer.go:157-302 | if all are carried out, the next round asks for none, for every set of tasks including exceptions and pairs without a rule |
| Rounds.BusyKeysAreSkippedUnlessListEmptied | core/worker/infomer/infomer.go:157-191 | exactly when a key that was found busy is seen anyway; all other keys are seen as if nothing were busy |
| Convergence.BusyTaskDiff | core/worker/infomer/infomer.go:157-283 | what diff makes of a busy task: a delete change exactly if it is seen and running or paused, else nothing |
| Convergence.BusyTaskIsDeletedIff | core/worker/infomer/infomer.go:122-184 | a change for a busy task reaches the queue exactly if the skip list was emptied, the task is alive, a Done released it between check and add, and the queue is not shutting down; otherwise the add is intercepted or refused |
| Convergence.BusyTaskGetsDeleted | core/worker/infomer/indexer.go:39-43 | a worker run and a trigger for which that happens |
| Convergence.SkipListCanBeEmptied | core/worker/infomer/infomer.go:166-191 | a concrete trigger for which it happens, and that it needs the resync and the busy key |
| Lifecycle.NextKeepsInv | core/scheduler/scheduler.go:85-168 | each writer keeps the lifecycle invariant of every stored task |
| Lifecycle.WaitStatusMatchesWant | core/scheduler/scheduler.go:109-163 | in every run a stored wait status is the initial one or named after the wanted status, and a task with a worker wants running, paused or stop |
| Lifecycle.OperateAcceptsSettledTasksOnly | core/scheduler/scheduler.go:109-116 | in every run an operate request passes the check exactly for a running or paused task asked for something else |
| Lifecycle.DiffIsTotalOnAssignedTasks | core/worker/infomer/infomer.go:264-272 | in every run, for every trigger and busy set, diff meets an unsupported pair exactly for a task nobody has assigned or operated on |
| Lifecycle.StepKeepsFinishedIff | core/scheduler/scheduler.go:85-168 | which steps keep a finished task in a final status, and which do not, over all writers |
| Lifecycle.StaysFinishedIffUndisturbed | core/worker/infomer/infomer.go:132-147 | the same for whole runs |
| Lifecycle.RequestsKeepFinishedIffNoneInFlight | core/scheduler/scheduler.go:85-129 | left alone by other writers, a finished task stays finished in every run exactly when no request is in flight |
| Lifecycle.StoredAsFinishedIffStartWasInTime | core/worker/infomer/infomer.go:136-140 | when the results of a finished executor run are stored in order, the stored status is final exactly when no final result came before the start report, and Running otherwise |
| Lifecycle.RequestInFlightRevivesFinished | core/scheduler/scheduler.go:118-128 | a request in flight at the finish puts the task back into a wait status |
| Lifecycle.RequestCanBeInFlightAtFinish | core/scheduler/scheduler.go:85-129 | a run that reaches such a state |
| Lists.LeftmostMinIsLeast | core/scheduler/scheduler.go:411-416 | the chosen index is the leftmost of the least scores |
| Lists.KeptMembers | core/scheduler/scheduler.go:357-382 | filtering selects exactly the workers that pass |
| Lists.KeptConcat | core/scheduler/scheduler.go:357-382 | filtering keeps the order |
| Placement.ScoreWeights | core/scheduler/scheduler.go:384-409 | what a unit of each figure adds to the score, with and without a GC count |
| Placement.ScoreIsMonotone | core/scheduler/scheduler.go:384-409 | more load never lowers the score, more collections for the same pauses never raise it |
| Placement.EstimateMeaning | core/scheduler/scheduler.go:333-344 | an estimate raises CPU and memory by 0.05 and goroutines by 1, and no other figure |
| Placement.IDMeaning | core/components/discover/interface.go:12-17 | the worker id of the metadata names a worker, the instance id only without one |
| Placement.EstimateAddsIncrement | core/scheduler/scheduler.go:333-344 | an estimate adds 1.05 or 0.06 to the score and changes neither ID nor taints |
| Placement.AdmitsMeansTolerates | core/scheduler/scheduler.go:361-379 | with non-empty taint values, the test with its length shortcuts decides exactly whether all taints are tolerated |
| Placement.AdmitsIsExactIffNoEmptyTaint | core/scheduler/scheduler.go:361-379 | it does so for every task exactly when the worker has no empty taint value |
| Placement.FewerStainsAreTurnedAway | core/scheduler/scheduler.go:362-368 | with fewer stains than taints a task is never admitted, an untainted worker admits every task, and tolerating is enough |
| Placement.Scheduler.MatchStains | core/scheduler/scheduler.go:370-376 | every taint equals the stain read with the empty default |
| Placement.Scheduler.FilterWorker | core/scheduler/scheduler.go:357-382 | the order-preserving selection of admitting workers |
| Placement.InsertKeepsSorted | core/scheduler/scheduler.go:411-413 | insertion behind equal scores keeps the list stably sorted |
| Placement.Scheduler.SortStable | core/scheduler/scheduler.go:411-413 | same elements, by score, equal scores in their old order |
| Placement.Scheduler.PriorityWorker | core/scheduler/scheduler.go:384-417 | the leftmost worker with the lowest score |
| Placement.Scheduler.UpdateWorkerInCache | core/scheduler/scheduler.go:346-355 | the first worker with that ID is replaced |
| Placement.Scheduler.SelectWorkerID | core/scheduler/scheduler.go:259-285 | an ID exactly if some worker admits; it is that of the leftmost admitting worker with the lowest score, and exactly that worker's estimate is raised if there was a choice |
| Placement.SelectTakesLeastLoaded | core/scheduler/scheduler.go:259-285 | the same of the specified choice, over the whole worker list |
| Placement.Scheduler.CreateTask | core/scheduler/scheduler.go:131-140 | one new task under the fresh key, waiting to be scheduled; every other task as before |
| Placement.Scheduler.OperateTask | core/scheduler/scheduler.go:85-129 | exactly when a request is invalid, finds no task, is refused or accepted; an accepted one stores the wanted status and the wait status named after it, and nothing else |
| Placement.OperateMeaning | core/scheduler/scheduler.go:109-116 | which statuses and requests are accepted |
| Placement.Scheduler.AssignTask | core/scheduler/scheduler.go:142-168 | stores worker, wanted status and wait status together, or nothing |
| Placement.Scheduler.LoadNeedAssignTasks | core/scheduler/scheduler.go:197-219 | the runnable tasks whose worker is not available, in order |
| Placement.Scheduler.HandleAssignEvent | core/scheduler/scheduler.go:170-195 | a leader runs the whole pass, anybody else changes nothing |
| Placement.Scheduler.HasAvailableWorkersChanged | core/scheduler/scheduler.go:287-309 | different lengths or a new ID among the new workers |
| Balance.CacheFollowsCandidates | core/scheduler/scheduler.go:259-285 | placing through the cache is choosing on a fixed candidate list, for distinct IDs |
| Balance.GreedyIsBalanced | core/scheduler/scheduler.go:333-417 | whoever was ever chosen is ahead of every candidate by at most its own increment |
| Balance.ChoicesAreCounted | core/scheduler/scheduler.go:278-284 | the IDs returned over any number of placements are those of the leftmost lowest loads |
| Balance.PlacementIsBalanced | core/scheduler/scheduler.go:259-285 | after any number of placements, a worker whose ID was ever returned scores at most 1.05 or 0.06 above every admitting worker |
| Balance.EqualWorkersShareEqually | core/scheduler/scheduler.go:259-344 | the IDs of admitting workers with equal scores are returned equally often, give or take one |
| Reassignment.SelectMeaning | core/scheduler/scheduler.go:259-285 | a worker is chosen exactly when one admits the task, the chosen one admits it, and no choice means no estimate |
| Reassignment.AssignBooksWhereItPlaces | core/scheduler/scheduler.go:142-168 | an assignment stores the least loaded admitting worker's ID, waits for running, and raises that worker's estimate if there was a choice; without an admitting worker nothing changes |
| Reassignment.PassPlacesHomelessTasks | core/scheduler/scheduler.go:170-219 | a pass moves exactly the runnable tasks without an available worker that some worker admits, onto an admitting one, and touches no other task |
| Reassignment.PassIsIdempotent | core/scheduler/scheduler.go:170-219 | a second pass over any of the same tasks changes neither tasks nor estimates |
| Reassignment.EmptyIDHidesUnassignedTasks | core/scheduler/scheduler.go:208-216 | with an empty worker ID, unassigned tasks are never reassigned |
| Reassignment.UnchangedIffSameIDs | core/scheduler/scheduler.go:287-309 | for distinct new IDs, unchanged means the same ID set without repetition |
| RunLoop.LoopEmitsCyclesThenOneEnding | core/worker/executor/goroutine/goroutine.go:146-175 | in every run the loop emits pause-resume cycles then one of four endings, nothing final on a panic, and never calls the business logic between a pause and the next running |
| RunLoop.OneFinalResultUnlessExited | core/worker/executor/goroutine/goroutine.go:53-83 | one final result when a run is over, a crash included; two exactly after a forced exit whose loop returned |
| RunLoop.ChannelCarriesLoopResults | core/worker/executor/goroutine/status.go:7-42 | without forced exit the channel is the loop's results in order, Failed after a crash, and the start report somewhere among them |
| RunLoop.ResultsMatchOutcomes | core/worker/executor/goroutine/goroutine.go:53-175 | in every run the events, calls of the business logic included, and the results are exactly those of the steps taken: Success from a finished call, Failed from an error, a forced exit or a noticed panic, Stop, Paused and Running from the token taken |
| RunLoop.CommandsAreConserved | core/worker/executor/goroutine/goroutine.go:89-175 | in every run each stop, pause, resume and exit sent is taken once or still pending |
| RunLoop.CallsWaitForCommands | core/worker/executor/goroutine/goroutine.go:149-168 | the business logic is called only when every stop and pause sent so far has been taken |
| RunLoop.FinalResultComesLastIffStartWasInTime | core/worker/executor/goroutine/goroutine.go:44-87 | the final result is last, and the task forgotten, exactly when no final result precedes the start report; otherwise Running is last and listed |
| RunLoop.LateStartHappens | core/worker/executor/goroutine/goroutine.go:53-86 | a run that ends with Running after Success |
| RunLoop.TwoFinalsHappen | core/worker/executor/goroutine/goroutine.go:75-83 | a run with Failed and then Success |
| RunLoop.Executors.EveryRunEndsOnce | core/worker/executor/goroutine/goroutine.go:44-175 | after any sequence of calls and turns, each key's run never worked while paused, has one final result once its entry is gone without a forced exit, two exactly after a forced exit whose loop returned; its results are those of its steps, and no command was lost or taken twice |
| RunLoop.Executors.Start | core/worker/executor/goroutine/goroutine.go:44-51 | refused while the key has a control entry, otherwise a fresh run |
| RunLoop.Executors.Report | core/worker/executor/goroutine/goroutine.go:85 | the start report, at most once per run |
| RunLoop.Executors.Watch | core/worker/executor/goroutine/goroutine.go:53-83 | the surrounding goroutine: blocks exactly while there is neither an exit token nor an ended loop; afterwards the key has no control entry |
| RunLoop.Executors.Stop | core/worker/executor/goroutine/goroutine.go:101-111 | error without a run, ignored with a stop pending, otherwise the run's stop token and no other run |
| RunLoop.Executors.Pause | core/worker/executor/goroutine/goroutine.go:113-123 | the same with the pause token, ignored with a stop pending, blocks with a pause pending |
| RunLoop.Executors.Resume | core/worker/executor/goroutine/goroutine.go:125-136 | the same with the resume token, ignored with one pending |
| RunLoop.Executors.Exit | core/worker/executor/goroutine/goroutine.go:89-99 | the same with the exit token, ignored with a stop pending, blocks with an exit pending |
| RunLoop.Executors.Poll | core/worker/executor/goroutine/goroutine.go:149-174 | one step of that key's run: a pending stop or pause, the business logic exactly when neither is pending |
| RunLoop.Executors.WaitInPause | core/worker/executor/goroutine/goroutine.go:158-166 | blocks exactly while neither stop nor resume is pending, otherwise takes one of them |
| Backoff.Backoff.Step | pkg/util/wait/wait.go:40-82 | after any number of calls the duration is the initial one times a power of the factor, one power per allowed call, until it stays at the cap with no steps left; each sleep is the jittered duration and lies between it and (1+jitter) times it |
| Backoff.JitterBounds | pkg/util/wait/wait.go:84-90 | a jittered duration exceeds the duration by at most its share, the whole duration for a factor of zero or less |
| Backoff.JitterRange | pkg/util/wait/wait.go:84-90 | the sleeps that a draw can give are exactly those from the duration up to, but not including, its stretch |
| Backoff.BaseGrows | pkg/util/wait/wait.go:66-77 | durations grow by the factor each time, a factor of zero keeps them |
| Backoff.BaseScales | pkg/util/wait/wait.go:66-77 | a longer start makes every duration longer in proportion |
| Backoff.OnError | pkg/util/retry/retry.go:51-69 | number of attempts, the returned error in every case, exactly when nil is returned, and bounds on the total sleep, with and without a cap |
| Backoff.TotalStretch | pkg/util/wait/wait.go:50-107 | the upper bound on the total sleep is (1+jitter) times the lower one |

## Left out

- Waiting inside `Typed.Get` and `Typed.ShutDownWithDrain`: the methods do one critical section and report that the caller has to wait; the wait loops and wakeups are in QueueProtocol.
- The ticker that updates unfinished-work metrics, latency observations and metric registration: they read state only.
- `Touch`: a no-op for the default queue.
- The twin-map cache's recycler and set times: a key that is set again after the recycler's snapshot can be deleted; runs of the model have no recycler.
- `refreshCache`: it sends listed results whose status differs from the cache; in WorkerRuns and Lifecycle such a result is one more result step.
- A round that runs beside other threads: `Reconcile.Infomer.ProcessTrigger` runs alone; interleavings of checking, adding and finishing are in WorkerRuns, and for busy tasks in `Convergence.BusyTaskIsDeletedIff`.
- Errors of the repository, discovery and election: a round or pass that fails early does nothing; successful calls are modelled. The repository merges the fields that are set and its batch read returns each known key once.
- Aliasing of worker metadata maps: instances are values; for distinct IDs the in-place write and the replacement in the cache have the same effect. A nil metadata map, on which the write panics, is not modelled.
- Parsing and formatting of figures: figures are reals. Reported values have two decimals, on which the estimates are exact.
- The lock around the worker list and workers appearing during a pass: the worker set is fixed within a pass and within a run of placements.
- Several callers or executors for one key, a loop left behind by a forced exit once the key is run again, and the moment between recording a status and sending it: RunLoop follows one accepted `Run` per key; recording and sending a result are one step.
- `Reassignment.PassIsIdempotent`: needs distinct, non-empty worker IDs; `EmptyIDHidesUnassignedTasks` shows what an empty one does.
- `Backoff.OnError`: the generic loop and the retry closure are one loop, and durations are not rounded to nanoseconds; the factor is not negative, as the source requires.
- Docker and Kubernetes executors, HTTP binding, registration, resource reporting, logging, clocks and UUIDs: outside the core logic.
