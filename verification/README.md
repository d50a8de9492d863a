# Ody, verified

A Dafny model of Ody, a durable task queue with a coordinator for versioned pipelines of tasks, an
in-memory and a Redis store behind one interface, and a cron scheduler. The project proves what the
stores keep under every sequence of operations, what pipelines compute under every interleaving of
workers, coordinators and operators, and that the indexed Redis store does what the plain one does.

`dafny verify dfyconfig.toml` checks all of it.

## How it is organised

The model is layered; each layer is stated over the one below.

- **Records and logs.** `Model` has the datatypes, `Records` what each operation does to one
  execution, `EventLog` the language of event logs.
- **The plain store.** `Storage` has the store as a value, its operations as steps, and the
  invariant every step keeps. `Histories` has runs of steps with a clock and issued UUIDs: lease
  fencing, logs and stranded deliveries over whole histories; `Lifetimes` how long a lease protects and
  an execution waits, `Chronicle` that records show what their logs tell. `Delivery`, `Listing`,
  `Retention` and `Counting` say what claims, pages, purges and counts are, apart from any loop that
  computes them.
- **The in-memory store.** `Memory` is the class with its six maps and loops, each method proved to
  do the step it is meant to do.
- **Pipelines.** `Definitions` has validation, descendants and the recursive evaluation of a DAG;
  `Engine` the coordinator's decisions. `Coordination` interleaves any number of coordinators, each
  making one store call at a time and crashing at will, with workers, operators and retention.
  `CasSafety`, `Causes`, `DataFlow`, `FlowSafety`, `Results`, `Bounds` and `CancelSafety` are theorems
  about its runs; `FlowWitnesses` has runs in which the data flow breaks, one for each cause. `Advance`,
  `Resume`, `Restarting` and `Cancelling` are about uninterrupted engine calls, and `Coordinator` is
  the engine as a class that makes them.
- **The Redis store.** `Redis`, `RedisPurge` and `RedisSubgraph` have the keyspace with its derived
  sorted sets and counters, and the transactions; `RedisSweep` has the purge that comes late.
  `RedisRuns` interleaves clients: reading under WATCH and committing are separate steps, and a commit
  happens only if nothing watched has changed.
  `RedisDelivery` and `RedisStore` are the operations as methods, `Fields` the counter fields.
- **Around it.** `Worker` resolves deliveries, `Schedule` says which instants of a cron schedule are
  triggered, `Scheduler` polls schedules and turns instants into executions, `Backoff` computes retry
  delays. `Sorting` has sorting and enumeration.

## What the model assumes

- UUIDs are natural numbers in the order of their texts, zero is nil, and generated ones are
  parameters that are not nil and have never been used. Times are nanoseconds; an operation reads the
  clock once, and that reading is a parameter. Attempts, versions and revisions are unbounded.
- Compound keys are pairs; joining with NUL is injective for names without one, which `Fields` proves
  for counter fields. User-chosen idempotency keys are kept apart from the two generated shapes, a
  node of a run and an instant of a schedule.
- Task inputs and outputs are opaque texts; a mapper is a function that may fail, which covers
  panics and decoding errors; where it matters, a handler is a function of its input.
- Each in-memory operation runs under the store's lock and is one step. A Redis transaction is one
  step when it is submitted; the keys it watches, and for a subgraph restart the node references, are
  read in earlier steps. A Redis purge reads its candidates in earlier steps, each record once, and is
  not guarded.
- In the interleaved system pipeline executions are created and released, and run statuses written,
  by coordinators only, and retention removes an execution of a run only together with the run.
- A cron schedule is a function from a time to an instant; where a theorem needs it, to the least
  instant of the schedule after that time.

## Where code and documentation differ

The model follows the code.

- The engine resets the existing descendants of a restarted node (pipeline/engine.go:189-190);
  docs/pipelines.md:90-92 says they are left alone.
- Every run transition is guarded by the revision (docs/pipelines.md:76-77), but the creations and
  releases before it are not: a restart that falls inside an advance can leave a node built from a
  discarded output. `DataFlow.FlowKeptExactly` is the exact condition for one step,
  `FlowSafety.FlowsThroughoutExactly` for whole runs. It does no harm while handlers are functions of
  their input (`Results.EveryInputIsEvaluated`).
- Descendants of a restarted node get new inputs once their dependencies succeed
  (pipeline/engine.go:190), but a blocked node may itself be restarted (execution/memory.go:343), and
  is then delivered on the stale input, or cancelled (execution/memory.go:286).
  `DataFlow.RestartBreaksFlow` and `DataFlow.CancelBreaksFlow` say this always breaks the flow.
- A cancellation is said to invalidate all unfinished deliveries (pipeline/engine.go:280); a
  coordinator that listed the run before can still start a node of it afterwards.
  `CancelSafety.FinishedRunWakesExactly` says exactly what can, `CancelSafety.SilenceLasts` when
  nothing will.
- A purge is said to preserve active and blocked work (execution/store.go:49-52); it removes the
  nodes of a finished run whatever their status. `Retention.ActiveRemovedExactly` is the exact
  condition on the store, the cutoff and the limit.
- The latest instant within the lookback is promised (docs/scheduling.md:53); the limit keeps the
  earliest ones, so it is the latest only if the lookback holds no more.
  `Schedule.LookbackIsLatestExactly`.
- The two stores differ in two places: which error an active pipeline node gets when restarted alone,
  and whether a status that is not final clears the finish time (`RedisRuns.StatusIsPlainExactly`).
  No status write of a coordinator shows the second (`RedisRuns.CoordinatorStatusIsPlain`).

## Model

| member | source | states |
|---|---|---|
| `Records.ApplyKeepsIdentity` | execution/memory.go:138-400 | no operation on an existing record changes its id, task, attempt budget, idempotency key, run, node key or creation time |
| `EventLog.AttemptCountsDeliveries` | execution/memory.go:159-176 | in a log of the event language the attempt number is the number of Started events since the last Created or Restarted |
| `EventLog.TerminalIsLastOfGeneration` | execution/memory.go:621-627 | only Restarted follows a terminal event, and only the first event is Created |
| `EventLog.OneTerminalPerGeneration` | execution/memory.go:227-319 | two terminal events of one log are separated by a Restarted event |
| `EventLog.LogDecidesStatus` | execution/memory.go:384-400 | two records described by one log have the same attempt and status, up to Pending and Blocked, because a release logs nothing |
| `EventLog.LanguageExactly` | execution/memory.go:621-627 | a log can be replayed if and only if it begins with Created and every event may follow the one before it: reports only right after Started, nothing but Restarted after an end, and no Restarted while active |
| `EventLog.PrefixReplay` | execution/memory.go:418-425 | every prefix of a log of the language is itself a word of it, read one event at a time |
| `Storage.StepKeepsValid` | execution/memory.go:40-400 | every store operation keeps the invariant: both unique indexes are exact inverses of the records, running iff a lease token is held, finished iff terminal, attempts within budget, and every log describes its record |
| `Storage.CreateKeepsValid` | execution/memory.go:40-87 | creation keeps the invariant, also when it finds an existing execution |
| `Storage.TouchKeepsValid` | execution/memory.go:138-319 | every operation on one record keeps the invariant, accepted or refused |
| `Storage.SubgraphKeepsValid` | execution/memory.go:321-382 | a subgraph restart keeps the invariant |
| `Storage.StatusKeepsValid` | execution/memory.go:490-507 | a compare-and-set status write keeps the invariant |
| `Storage.DropRunKeepsValid` | execution/memory.go:577-592 | deleting a run with its executions keeps the invariant |
| `Storage.CreateMeans` | execution/memory.go:43-87 | a request is answered with the execution that has its idempotency key, or else with the one for its node, and nothing changes; only if there is neither is an execution made, with exactly what was requested |
| `Storage.CreateRunMeans` | execution/memory.go:427-452 | a run with the request's pipeline and key stands; only if there is none is one made, with the requested pipeline, version and input |
| `Storage.UniqueKeys` | execution/memory.go:46-57 | at most one execution exists per task and idempotency key, and per run and node key |
| `Storage.ApplyKeepsRecord` | execution/memory.go:621-627 | an accepted operation leaves a sound record, and the log with the event it appends describes that record; a release appends none |
| `Lifetimes.LeaseProtects` | execution/memory.go:215-225 | over whole histories: after a claim or an accepted heartbeat, up to the time of that call plus its lease, the execution stays delivered under the same token and its deadline does not come before that time, whatever else happens, unless its holder reports or asks for an earlier deadline, somebody cancels it or it is removed |
| `Lifetimes.LeaseThroughStep` | execution/memory.go:151-213 | before its deadline no claim, reap or restart takes a lease from its holder |
| `Lifetimes.NotDeliveredEarly` | execution/memory.go:151-163 | over whole histories: once a creation, retry, restart or release has set a time, the execution is not running before it, and while it is pending or waiting for its retry it can be claimed at exactly the times from then on |
| `Lifetimes.CreatedWaits` | execution/memory.go:58-72 | a new execution is not delivered before the time its request names, and can be claimed from that time on, or at once if it names none |
| `Lifetimes.RetryWaits` | execution/memory.go:258-258 | an execution that is retried is not delivered before its delay is over, and can be claimed from then on |
| `Chronicle.LogTellsRecord` | execution/memory.go:621-627 | in every reachable state the creation, start and finish times and the error a record shows are those its log tells, a finished record finished when its last event was logged and shows that event's error, every event bears the number of deliveries up to it, the log is in the order of time, and only succeeded records show an output and only running ones a lease |
| `Histories.HistoryKeepsInv` | execution/memory.go:40-400 | the invariant holds in every state of every history of operations, with every UUID ever issued accounted for |
| `Histories.TokenReplacedOnlyAfterDeadline` | execution/memory.go:151-176 | a record gets a new lease token only by a claim, at a time not before the deadline of the token it replaces |
| `Histories.LostStaysLost` | execution/memory.go:610-619 | a token that a record does not hold, and that was issued, is not held after any step either |
| `Histories.StaleTokenRefused` | execution/memory.go:215-277 | a heartbeat, success, retry or failure with a token the record does not hold leaves the store as it was and reports the lost lease, or that the record is gone |
| `Histories.FencedForever` | worker/worker.go:306-343 | once a record has lost a token, every later operation presenting it, at any point of the history, is refused and changes nothing |
| `Histories.NoStrandedDelivery` | execution/memory.go:190-213 | in every reachable state an expired delivery is exactly one of claimable and reapable, and an unexpired one is neither |
| `Histories.LogsInEveryState` | execution/memory.go:621-627 | in every reachable state the attempt counts the deliveries since the last Created or Restarted and stays within budget, only Restarted follows a terminal event, and the log ends in a terminal event iff the status is terminal |
| `Definitions.Definition.Validate` | pipeline/definition.go:131-160 | accepts exactly the definitions with a name, a positive version and, after trimming keys, a declaration order that is topological; trims keys in place, also before a rejected node |
| `Definitions.PlaceError` | pipeline/definition.go:146-156 | a node is accepted after given keys iff its key is non-empty, new, and all its dependencies are among them |
| `Definitions.Acyclic` | pipeline/definition.go:138-139 | in a validated definition no node is reachable from itself |
| `Definitions.DescendantKeys` | pipeline/engine.go:223-241 | the loop computes the one-pass descendants and reports whether the root is a node |
| `Definitions.DescendantsAreReachable` | pipeline/engine.go:223-241 | in a validated definition the one pass collects exactly the keys reachable from the root by one or more dependency edges, and never the root |
| `Definitions.DescendantsInOrder` | pipeline/engine.go:225-239 | descendants come in declaration order, so without duplicates |
| `Definitions.InputFromDependencies` | pipeline/definition.go:51-103 | a node's input depends on the run input and its dependencies' outputs alone, and is what its mapper makes of them: of the run input, of the one output, or of the first and the second output in that order |
| `Definitions.TrimMeans` | pipeline/definition.go:145-145 | trimming a key takes off the white space at both ends and nothing else |
| `Engine.CountDecidesCompletion` | pipeline/engine.go:168-182 | comparing the number of nodes and their statuses concludes a run succeeded exactly when every node of the definition exists and has succeeded |
| `Engine.BuiltMaps` | pipeline/engine.go:144-144 | what a coordinator builds for a node whose dependencies have succeeded is what the mapper makes of the outputs stored for the nodes it names, in the order it names them |
| `Engine.NodeAfter` | execution/memory.go:40-400 | what any store operation does to the execution of one node of one run |
| `Engine.RunAfter` | execution/memory.go:427-507 | what any store operation does to one run record |
| `CasSafety.RunsOnlyAdvance` | execution/memory.go:490-507 | a run record's revision never falls, and equal revisions mean equal records |
| `CasSafety.SucceededStays` | execution/memory.go:321-382 | a succeeded node keeps its status and output until its run is reopened, which raises the revision |
| `CasSafety.RunKeepsCas` | pipeline/engine.go:99-187 | in every reachable state of any number of coordinators, workers and operators interleaved at single store calls, what each coordinator has read is related to the store by the invariant |
| `CasSafety.SucceededRunIsComplete` | pipeline/engine.go:168-182 | whenever a run is succeeded every node of its definition exists and has succeeded, under every interleaving |
| `CasSafety.CommitActsOnTheRunItRead` | pipeline/engine.go:183-186 | a coordinator's status write changes a run only if the run is, field for field, the one it read, and so never overwrites a terminal run |
| `CasSafety.TerminalLeftOnlyByRestart` | execution/memory.go:377-381 | a terminal run leaves the terminal statuses only by a subgraph restart |
| `CasSafety.RunRecordsInEveryState` | execution/memory.go:499-506 | in every reachable state a run shows when it was last written, which is its finish time if it has finished; it shows an error only if it failed or was cancelled, and is pending exactly as long as its revision is zero |
| `Causes.EndsHaveCauses` | pipeline/engine.go:121-148 | in every reachable state a run shows failed only if a coordinator before found one of its nodes failed or cancelled, or a due node its mapper makes no input for, and reported the error the run shows; and cancelled only if somebody asked for it, for the reason it shows |
| `CasSafety.FinishTimesInEveryState` | execution/memory.go:499-506 | in every reachable state a run has a finish time exactly when it has finished, because coordinators write a status that is not final only over one that is not final |
| `DataFlow.FlowKeptExactly` | pipeline/engine.go:129-167 | a step keeps the data flow of a run if and only if it meets a guard at every node: whatever makes an execution deliverable or ends a blocked one must find its dependencies succeeded and its input current |
| `FlowSafety.FlowBreaksOnlyBy` | pipeline/engine.go:129-167 | in every run of the interleaved system the data flow of a pipeline run breaks only by a move that cancels or restarts a blocked node of it, restarts it without the descendants the definition has, or starts a node from a listed result that has been discarded since; retries, reclaims, lost leases, crashes, other restarts and all other starts keep it |
| `FlowSafety.StaleOnlyByRestart` | pipeline/engine.go:111-167 | a coordinator holds a listed result that has been discarded only if a part of the run was restarted while it was walking over its list |
| `FlowSafety.DataFlowsUntilHarmed` | pipeline/engine.go:129-167 | from a run's creation until such a move, in every state every node that is not blocked has all dependencies succeeded and a stored input that its mapper makes of the run input, or of the current outputs of the nodes it names in the order it names them |
| `DataFlow.CancelBreaksFlow` | execution/memory.go:279-295 | whenever a blocked node has a dependency that has not succeeded, cancelling it is accepted and breaks the data flow |
| `DataFlow.RestartBreaksFlow` | execution/memory.go:340-370 | whenever a blocked node has a dependency that has not succeeded, an accepted restart of it breaks the data flow: it becomes deliverable with an input made of discarded outputs |
| `FlowSafety.FlowsThroughoutExactly` | pipeline/engine.go:129-167 | in any run of the interleaved system the data of a pipeline run flows in every state from its creation up to a given one if and only if every move on the way meets the guard |
| `FlowWitnesses.RestartInsideAdvanceBreaksFlow` | pipeline/engine.go:116-167 | a concrete reachable run in which a restart between the list and a creation of one advance leaves a node built from a discarded output: creations and releases are not guarded by the revision |
| `FlowWitnesses.CancelOfBlockedBreaksFlow` | execution/memory.go:286-286 | a concrete reachable run in which a blocked node is cancelled and so ends without the results it was waiting for |
| `FlowWitnesses.RestartOfBlockedBreaksFlow` | pipeline/engine.go:190-190 | a concrete reachable run in which a blocked node is restarted and becomes pending on a stale input while its dependency has not succeeded |
| `Results.DeliveredInputStands` | worker/worker.go:265-304 | what a worker was delivered is what the store holds for as long as the lease lasts |
| `Results.EveryInputIsEvaluated` | pipeline/engine.go:141-166 | if handlers are functions of their input, in every reachable state every node of every run is stored with the input its mapper makes of the run input and of the outputs recursive evaluation of the DAG gives the nodes it names, in that order, whatever the order of workers, retries, lost leases, crashes, restarts and cancellations, and even where the data flow is broken |
| `Results.EvaluateSolves` | pipeline/definition.go:51-103 | evaluation solves the equation of every node: it has an output exactly if its mapper makes an input of the outputs of the nodes it names, and then it is the handler's for that input |
| `Results.OnlyEvaluateSolves` | pipeline/definition.go:51-103 | and nothing else does: any outputs that solve the equations of all nodes of a validated definition are those of evaluation |
| `Results.SucceededNodeIsEvaluated` | pipeline/engine.go:129-167 | and in every reachable state every succeeded node of every run holds the output evaluation gives it |
| `Results.SucceededRunIsEvaluated` | pipeline/engine.go:171-182 | of every succeeded run evaluation is defined at exactly the nodes of the definition and is what the run stores |
| `Advance.StartMeans` | pipeline/engine.go:149-166 | starting a wanted node releases its blocked execution with the input, at the time it was reset for, or creates one with the node's task, version, attempts and key, to be delivered at once |
| `Advance.AdvanceMeans` | pipeline/engine.go:99-187 | an uninterrupted advance starts exactly the due nodes before any failing mapper, pending on what their mapper makes of the run input and the outputs stored before, leaves the other nodes as they were, and decides the run status from the nodes alone |
| `Advance.AdvanceKeepsRunnable` | pipeline/engine.go:99-187 | an advance keeps the store's invariant and the shape of pipeline executions |
| `Advance.AdvanceIsIdempotent` | pipeline/engine.go:88-97 | a second advance with no change in between leaves the store exactly as it was |
| `Advance.AdvanceNeverStalls` | pipeline/engine.go:128-186 | after an advance a run is finished or has a pending, retrying or running node |
| `Resume.CrashedAdvanceResumes` | pipeline/engine.go:113-115 | stopping after any prefix of the starts and advancing again gives the same status and input of every node and the same run status as an uninterrupted advance |
| `Bounds.ReachableRunNeverStalls` | pipeline/engine.go:252-265 | in every reachable state, however it came about, an advance of a registered run finishes it or leaves it with work |
| `Bounds.ClaimsAreAttempts` | execution/memory.go:173-176 | in every reachable state the claims of a run's nodes so far are at most the attempts these stand at plus one budget for each restart, and exactly those attempts while there has been none |
| `Bounds.ClaimsWithinBudget` | execution/memory.go:159-176 | a run is claimed at most as often as its nodes' attempt budgets add up to, once for its creation and once more for each restart |
| `Coordinator.Rebuild` | pipeline/engine.go:115-128 | the rebuilt maps hold each listed execution under its node key and the outputs of the succeeded ones, or a failed or cancelled one is reported |
| `Coordinator.ListedIsSnap` | pipeline/engine.go:111-119 | the state rebuilt from the listed executions is the state of the run's nodes |
| `Coordinator.IsReady` | pipeline/engine.go:135-141 | true iff every dependency exists and has succeeded |
| `Coordinator.RunnableIsListable` | pipeline/engine.go:111-119 | in every store in which a run can be advanced the engine's listing tells the nodes apart, so the theorems about advances and restarts apply to its calls |
| `Coordinator.PipelineEngine.Start` | pipeline/engine.go:149-166 | releases the blocked execution or creates a new one, and changes nothing when the release is refused |
| `Coordinator.PipelineEngine.StartDue` | pipeline/engine.go:129-167 | the loop over the nodes is the walk of the specification, and stops at the first failing mapper |
| `Coordinator.PipelineEngine.Conclude` | pipeline/engine.go:168-186 | the status write after the walk is the one of the specification |
| `Coordinator.PipelineEngine.AdvanceOnce` | pipeline/engine.go:99-187 | store and reply are those of the specified advance, in every case including missing, finished and unregistered runs, and the error stored with a failed run names a node that caused it and its error, or the first due node without an input and what its mapper reported; a run written otherwise has none |
| `Coordinator.PipelineEngine.RestartExecution` | pipeline/engine.go:189-221 | a standalone execution is restarted by the store; a node is restarted with all its descendants and its run advanced; unknown, unregistered and active cases change nothing |
| `Coordinator.PipelineEngine.CancelPipeline` | pipeline/engine.go:280-298 | cancels the listed active executions and then the run, which shows the reason and the time, and always succeeds on an existing run |
| `Restarting.SubgraphMeans` | execution/memory.go:353-381 | a permitted subgraph restart, field by field: the root is pending and the named descendants blocked, each as if never delivered and due at the given time or at once, every other execution stands, and the run is running at the next revision without error and finish time |
| `Restarting.RestartMeans` | pipeline/engine.go:189-221 | an engine restart resets the node and blocks every existing node reachable from it with its result discarded; any other node is started if and only if it is due, nothing else is broken and no mapper fails up to it, with the input its dependencies give it, and is left as it was otherwise; the run fails if and only if another node is failed or cancelled or another due node's mapper fails, and is running otherwise |
| `Restarting.DownstreamWaits` | pipeline/engine.go:190-190 | no node downstream of a restarted one is due until its dependencies succeed anew |
| `Cancelling.CancelMeans` | pipeline/engine.go:280-298 | cancelling a run cancels exactly its pending, retrying and running executions, each with the reason, the finish time and no lease, stamps the run with the same reason, and changes no other record |
| `Cancelling.CancelSilences` | pipeline/engine.go:280-298 | after an uninterrupted cancellation no lease token of any node of the run is honoured, and only blocked nodes are left unfinished |
| `CancelSafety.CancelIsSilent` | pipeline/engine.go:280-298 | an uninterrupted cancellation leaves the run finished with no deliverable node |
| `CancelSafety.FinishedRunWakesExactly` | pipeline/engine.go:149-166 | in every run of the interleaved system a node of a finished run becomes deliverable by a move if and only if that is a restart with the node as its root, or a start of it by a coordinator that read the run at an older revision |
| `CancelSafety.SilenceLasts` | pipeline/engine.go:280-298 | a finished run with no deliverable node and no coordinator in the middle of advancing it stays so, whatever anybody does, until a part of it is restarted |
| `CancelSafety.CancelledRunWakes` | pipeline/engine.go:280-280 | a concrete reachable run in which a cancelled run gets a pending node, against the promise that all unfinished deliveries are invalidated |
| `Delivery.PickIsUnique` | execution/memory.go:138-188 | a claim is determined up to ties: any two picks have the same length and the same availability and age at each place |
| `Delivery.PickIsSoonest` | execution/memory.go:150-171 | each picked execution can be delivered and is the soonest, by available time and then by age, of those that can and are not picked before it; nothing is left while the limit is not reached |
| `Delivery.ReapMeans` | execution/memory.go:190-213 | a reap fails exactly the running executions whose lease has expired on their last attempt, with the fixed text, the finish time and no lease, and leaves every other record |
| `Delivery.ClaimedRecords` | execution/memory.go:165-186 | claiming a pick changes exactly the picked records: each is running on one more attempt for the owner, under its own token, until the time of the claim plus the lease, and keeps its first start time |
| `Listing.PageMeans` | execution/memory.go:99-123 | every record of a page passes each part of the filter and comes before the cursor, and is the newest, by creation and then by id, of those that do and do not come before it; nothing is left out while the limit is not reached |
| `Listing.PageIsNextStretch` | execution/memory.go:99-123 | a page is determined: it is the next stretch of the whole sorted listing after the cursor |
| `Listing.FollowingEnds` | execution/memory.go:99-123 | however many non-empty pages a client has followed, they are a prefix of the whole sorted listing, and there are no more of them than items |
| `Listing.PagesAreTheListing` | execution/memory.go:405-416 | the page behind the last cursor is empty if and only if the pages so far are the whole sorted filtered listing, without repetition or omission |
| `Retention.DropAllLeaves` | execution/memory.go:576-596 | after a purge exactly the executions that are neither in the batch nor nodes of its runs are left, unchanged, and exactly the other runs |
| `Retention.UnfinishedStays` | execution/store.go:49-52 | a purge never removes an unfinished standalone execution, nor any node of an unfinished run |
| `Retention.ActiveRemovedExactly` | execution/memory.go:549-597 | from the store, the cutoff and the limit: active or blocked work is removed by every purge if and only if its run finished before the cutoff and no more removable items finished up to then than the limit; it is kept by every purge if and only if its run did not, or as many as the limit finished earlier |
| `Retention.RunningNodeCanBeRemoved` | execution/memory.go:577-585 | a concrete store in which a purge removes a running node, against the promise that active work is preserved |
| `Counting.CountExecutions` | execution/memory.go:512-515 | the scan returns the number of records of every task name and status that has any |
| `Counting.TextLeqExactly` | execution/memory.go:520-525 | the order of the rows' texts is the dictionary's: a prefix, or the smaller character where they first differ |
| `Counting.Tabulate` | execution/memory.go:516-526 | the list has one row for each name and status with a count above zero, ordered by name and then by the text of the status |
| `Memory.MemoryStore.constructor` | execution/memory.go:26-36 | a new store is empty |
| `Memory.MemoryStore.CreateExecution` | execution/memory.go:40-87 | creates the record with the request's task, input, budget and time and its index entries and log, or returns the execution an earlier request made; an empty task name is an error |
| `Memory.MemoryStore.Heartbeat` | execution/memory.go:215-225 | moves the deadline of its holder's lease to the present plus the lease and changes nothing else, and refuses any other token |
| `Memory.MemoryStore.Succeed` | execution/memory.go:227-240 | for the lease holder, leaves the record succeeded with the output and the finish time and without a lease |
| `Memory.MemoryStore.Retry` | execution/memory.go:242-262 | for the lease holder, leaves the record waiting until the present plus the delay with the error, or failed at the present when the budget is spent, without a lease either way |
| `Memory.MemoryStore.Fail` | execution/memory.go:264-277 | for the lease holder, leaves the record failed with the error and the finish time and without a lease |
| `Memory.MemoryStore.CancelExecution` | execution/memory.go:279-295 | leaves an unfinished execution, blocked ones included, cancelled with the reason and the finish time and without a lease |
| `Memory.MemoryStore.RestartExecution` | execution/memory.go:297-319 | leaves a standalone execution that is not active as if never delivered, to be delivered at the given time or at once |
| `Memory.MemoryStore.RestartPipelineSubgraph` | execution/memory.go:321-382 | resets root and descendants and reopens the run, or changes nothing; the error says whether a node was active |
| `Memory.MemoryStore.ReleaseExecution` | execution/memory.go:384-400 | makes a blocked execution pending with a new input, at the given time or at once |
| `Memory.MemoryStore.Owned` | execution/memory.go:610-619 | finds the record only for the holder of its lease |
| `Memory.MemoryStore.Claim` | execution/memory.go:138-188 | delivers the soonest eligible executions, up to the limit or one if it is not positive, each to the owner under its own token until the present plus the lease, and changes nothing else |
| `Memory.MemoryStore.ReapExpired` | execution/memory.go:190-213 | fails exactly the expired deliveries that have no attempt left and returns exactly their runs |
| `Memory.MemoryStore.CreatePipelineRun` | execution/memory.go:427-452 | creates a pending run of the requested pipeline and input at revision zero, or returns the one an earlier request with the key made |
| `Memory.MemoryStore.SetPipelineRunStatus` | execution/memory.go:490-507 | at the expected revision writes status, error and time, raises the revision and sets the finish time of a final status; reports a conflict otherwise |
| `Memory.MemoryStore.ListExecutions` | execution/memory.go:99-123 | returns the newest matching records in order up to the limit, before the cursor |
| `Memory.MemoryStore.ListRunExecutions` | execution/memory.go:125-136 | returns every execution of the run once, oldest first |
| `Memory.MemoryStore.FollowCursors` | execution/memory.go:99-123 | a client that follows cursors until it meets an empty page ends and has the whole sorted listing |
| `Memory.MemoryStore.ExecutionCounts` | execution/memory.go:509-527 | returns one row for each task name and status there are records of, with their number, in order of name and status text |
| `Memory.MemoryStore.DeleteExecution` | execution/memory.go:599-608 | removal by the record's own keys removes the record, its log and exactly the index entries that lead to it, and keeps both indexes exact |
| `Memory.MemoryStore.Purge` | execution/memory.go:549-597 | removes the oldest finished items within the limit, or a thousand if it is not positive; the counts returned are the drops in the sizes of the maps |
| `Redis.TouchKeepsCoherent` | execution/redis/store.go:731-765 | every operation on one record keeps every sorted set and counter exact |
| `Redis.TouchRefines` | execution/redis/store.go:263-561 | without the indexes, every operation on one record is the in-memory store's |
| `Redis.CreateKeepsCoherent` | execution/redis/store.go:88-114 | creation keeps every sorted set and counter exact |
| `Redis.CreateRefines` | execution/redis/store.go:46-120 | creation is the in-memory store's |
| `Redis.ReapKeepsCoherent` | execution/redis/store.go:369-409 | reaping a candidate, stale, recoverable or dead, keeps the indexes exact |
| `Redis.ReapRefines` | execution/redis/store.go:369-401 | reaping a candidate fails it exactly when the in-memory store would |
| `Redis.StatusKeepsCoherent` | execution/redis/pipelines.go:128-167 | a status write keeps the run indexes and counters exact |
| `Redis.StatusRefinesExactly` | execution/redis/pipelines.go:147-154 | a status write agrees with the in-memory store's if and only if the status is final or the run has no finish time |
| `Redis.NewRunRefines` | execution/redis/pipelines.go:14-60 | creating a run is the in-memory store's operation |
| `RedisPurge.DropsKeepIndexesExactly` | execution/redis/store.go:833-874 | deleting executions from records read earlier keeps indexes and counters right if and only if every one is still there with the status that was read |
| `RedisPurge.CommitDropRunMeans` | execution/redis/store.go:840-852 | deleting a run with its listed executions keeps the indexes exact and is the in-memory store's deletion |
| `RedisPurge.FindCandidates` | execution/redis/store.go:802-827 | the status sets lead to exactly the runs and standalone executions that a scan of everything would find removable |
| `RedisPurge.PurgeRefines` | execution/redis/store.go:828-857 | the purge transaction, if it meets what was read for it, keeps indexes and counters exact and leaves what the in-memory purge leaves |
| `RedisSubgraph.SubgraphRefines` | execution/redis/store.go:563-670 | the subgraph transaction keeps indexes and counters exact and is the in-memory restart of the nodes found; it writes nothing if one is active or the root is missing |
| `RedisSubgraph.NodeNamedTwiceExactly` | execution/redis/store.go:600-668 | whatever nodes a restart names, any number of times each: its transaction leaves indexes and counters right if and only if it is refused or every node named more than once already has the status it gets |
| `RedisRuns.WatchIsAtomic` | execution/redis/store.go:913-923 | if the watched keys are unchanged a transaction does what it would do if reading and writing were one step |
| `RedisRuns.QuietCommits` | execution/redis/store.go:913-923 | a transaction that nothing comes between takes effect on what it read |
| `RedisRuns.CommitRefines` | execution/redis/store.go:731-765 | every guarded transaction that is carried out keeps indexes and counters exact and does to the records what it stands for: the plain store's operation, except that a status write clears the finish time when the status is not final |
| `RedisSweep.PurgeExactly` | execution/redis/store.go:833-857 | the purge transaction, which watches nothing, leaves the indexes and counters of executions and runs right if and only if everything it deletes is still there with the status that was read |
| `RedisSweep.MetPurgeMeans` | execution/redis/store.go:833-857 | a purge that meets what was read for it removes exactly those executions and runs with their index entries |
| `RedisRuns.CoherentExactly` | execution/redis/store.go:731-765 | under every interleaving of any number of clients, with reading and committing as separate steps and purges unguarded, each id is in exactly the sets its record says and every counter is the number of records, in every state up to a given one, if and only if every purge on the way met what was read for it |
| `RedisRuns.CoherentInEveryState` | execution/redis/store.go:913-923 | in those states the records are sound as well, and a run has a finish time exactly when it has finished |
| `RedisRuns.EveryMoveRefines` | execution/redis/store.go:913-923 | each move then either leaves the records alone or carries out one transaction on them: the operation of CommitRefines, or the removal of what a purge has read |
| `RedisRuns.StatusIsPlainExactly` | execution/redis/pipelines.go:147-154 | a status write that is carried out is the plain store's if and only if the new status is final or the run is not |
| `RedisRuns.CoordinatorStatusIsPlain` | execution/redis/pipelines.go:128-167 | every status write a coordinator makes in a reachable state leaves the same records in both stores |
| `RedisDelivery.NothingHidden` | execution/redis/encoding.go:73-75 | millisecond scores never hide a record that can be claimed |
| `RedisDelivery.DueWithinMillisecond` | execution/redis/encoding.go:73-75 | a queue shows a record as due from its time on, and less than a millisecond before it at the earliest |
| `RedisDelivery.DeadIsLeased` | execution/redis/store.go:337-346 | every delivery that is dead has a lease entry that has come due |
| `RedisDelivery.DueHead` | execution/redis/store.go:300-303 | the head of a queue: the due members with the lowest scores, all of them if they fit the window |
| `RedisDelivery.LoadDueCandidates` | execution/redis/store.go:295-335 | the candidates are current records in delivery order, at most max(8·limit, 128) for each named queue; a due record is among them if its queue has no more than 128 or no more than 8·limit due members, and otherwise is left out only if max(8·limit, 128) that are due no later are taken |
| `RedisDelivery.FirstsIsPick` | execution/redis/store.go:243-258 | sorting first and then checking and taking picks what checking first, sorting and cutting would |
| `RedisStore.Store.SaveTransition` | execution/redis/store.go:731-765 | the commands in order make the specified change of record, counters, status set, leases, queue and log |
| `RedisStore.Store.CreateExecution` | execution/redis/store.go:46-120 | creates the record with the request's task, input, budget and time and all index entries, or returns the one a reference leads to |
| `RedisStore.Store.Heartbeat` | execution/redis/store.go:411-438 | for the holder only, moves the deadline of the lease to the present plus the lease, with both deadline entries |
| `RedisStore.Store.Succeed` | execution/redis/store.go:440-447 | for the lease holder, leaves the record succeeded with the output and the finish time and without a lease |
| `RedisStore.Store.Retry` | execution/redis/store.go:449-461 | for the lease holder, leaves the record waiting until the present plus the delay, or failed when the budget is spent |
| `RedisStore.Store.Fail` | execution/redis/store.go:463-470 | for the lease holder, leaves the record failed with the error and the finish time and without a lease |
| `RedisStore.Store.CancelExecution` | execution/redis/store.go:492-511 | leaves an unfinished execution cancelled with the reason and the finish time and without a lease |
| `RedisStore.Store.RestartExecution` | execution/redis/store.go:513-561 | resets a standalone execution; an active one is reported active even if it is a node, unlike the in-memory store |
| `RedisStore.Store.ReleaseExecution` | execution/redis/store.go:672-704 | makes a blocked execution pending with a new input |
| `RedisStore.Store.RestartPipelineSubgraph` | execution/redis/store.go:563-670 | carried out without interruption, commits the resets of the records its keys lead to, or nothing if one is active, the root is missing or there is no run, and says when that leaves the indexes right; with every node named once it is the in-memory restart, and succeeds exactly when that does |
| `RedisStore.Store.Purge` | execution/redis/store.go:791-857 | carried out without interruption, removes the oldest finished items within the limit, as the in-memory store does by scanning, with every index and counter exact; the counts returned are what the store has lost |
| `RedisStore.Store.CreatePipelineRun` | execution/redis/pipelines.go:14-60 | creates a pending run with its index entries, or returns the one the key leads to |
| `RedisStore.Store.SetPipelineRunStatus` | execution/redis/pipelines.go:127-167 | at the expected revision writes status, error and time, raises the revision and sets or clears the finish time; reports a conflict otherwise |
| `RedisStore.Store.ClaimCandidate` | execution/redis/store.go:261-293 | claims a candidate exactly when it is still eligible |
| `RedisStore.Store.Claim` | execution/redis/store.go:217-259 | claims eligible executions only, each to the owner under its own token until the present plus the lease; exactly a pick of the in-memory store when every named queue has at most 128 or at most 8·limit due members; below the limit it leaves an eligible execution only behind max(8·limit, 128) members of its queue that are due no later and are claimed or not eligible |
| `RedisStore.Store.ReapCandidate` | execution/redis/store.go:369-401 | fails a dead delivery, drops the lease entry of a stale or recoverable one, and returns the run only of a dead one |
| `RedisStore.Store.ReapExpired` | execution/redis/store.go:337-367 | driven by the leases, fails exactly the deliveries a scan of all records would fail, returns exactly their runs, and leaves no expired lease among those that look due |
| `RedisStore.Store.ExecutionCounts` | execution/redis/store.go:767-789 | the counters read back give the rows the in-memory store computes by scanning, in the same order |
| `Fields.ParseField` | execution/redis/store.go:878-882 | splits a field at its first NUL, and refuses a field without one |
| `Fields.ParseUndoesJoinExactly` | execution/redis/store.go:876-888 | parsing undoes joining if and only if the name has no NUL |
| `Schedule.Occurrences` | schedule/schedule.go:255-264 | the loop returns the iterated instants up to the end of the window or the limit, which is a hundred if it is not positive, for any schedule |
| `Schedule.IterateIsPrefix` | schedule/schedule.go:255-264 | for a schedule that always has a later instant these are the earliest instants of the window, up to the limit |
| `Schedule.NoLaterInstant` | schedule/schedule.go:255-264 | for a schedule without a later instant, which answers with the zero time, the loop returns as many zero times as the limit allows |
| `Schedule.TicksExact` | schedule/schedule.go:255-264 | the instants of a window are exactly the schedule's instants after its start and up to its end |
| `Schedule.FiredOnceInOrder` | schedule/schedule.go:221-240 | over any polls, under any policy, limit and clock, triggered instants strictly increase and are instants of the schedule |
| `Schedule.LifeOnceInOrder` | schedule/schedule.go:204-240 | lookback and polls never overlap: over a whole run every instant is triggered at most once, in order |
| `Schedule.CatchUpIsCompleteExactly` | schedule/schedule.go:229-238 | catching up triggers every instant since the start exactly once if and only if no window holds more than the limit |
| `Schedule.LifeIsCompleteExactly` | schedule/schedule.go:204-240 | with a lookback, catching up triggers every instant since its beginning if and only if neither it nor any window holds more than the limit |
| `Schedule.LatestIsLatestExactly` | schedule/schedule.go:229-234 | the other policies trigger one instant per window, the latest one if and only if the window holds no more than the limit |
| `Schedule.LookbackIsLatestExactly` | schedule/schedule.go:208-212 | a start with a lookback triggers one instant if there is any, and it is the latest within the lookback if and only if that holds no more than the limit |
| `Schedule.LookbackCanBeStale` | docs/scheduling.md:53-53 | a concrete lookback of two instants of which a start triggers the first, against the promise of the latest |
| `Scheduler.OneExecutionPerInstant` | docs/scheduling.md:28-29 | in every state of every history, whatever schedulers and anything else do, an instant of a schedule has at most one execution |
| `Scheduler.SkipStartsAtMostOne` | schedule/schedule.go:242-248 | a schedule that skips while its task is active starts at most one execution, however many instants have come due, and none while one is active |
| `Scheduler.AllowStartsEvery` | schedule/schedule.go:249-252 | a schedule that allows overlap leaves an execution for every instant that has come due |
| `Scheduler.CronScheduler.IsActive` | schedule/schedule.go:79-87 | true exactly if some execution of the named task is pending, retrying or running |
| `Scheduler.FireAllAdds` | schedule/schedule.go:76-77 | triggering changes no execution, and every execution it adds belongs to one of the instants: it has the input the schedule makes of that instant, the schedule's task, version and attempts, and the instant as its key |
| `Scheduler.CronScheduler.Fire` | schedule/schedule.go:242-253 | creates the execution of the instant, with the input the schedule makes of it and the schedule's task, version and attempts, or returns to the one there is, unless the schedule skips and its task is active; reports the instant either way |
| `Scheduler.CronScheduler.Initialize` | schedule/schedule.go:204-219 | fires for every schedule what its policies choose of the lookback, and sets its next instant |
| `Scheduler.CronScheduler.Tick` | schedule/schedule.go:221-240 | fires for every schedule what its policies choose of the instants since the last effective poll, and nothing for a schedule not yet due |
| `Scheduler.CronScheduler.Run` | schedule/schedule.go:190-240 | a start and the polls after it trigger for every schedule exactly the instants of its life, the ones the theorems about whole lives are about |
| `Backoff.ExponentialBackoff` | task/task.go:129-143 | the loop computes the specified delay, with 64-bit wrap-around |
| `Backoff.DelayClosedForm` | task/task.go:129-143 | for every base and maximum the delay is the smaller of the maximum and the base doubled in 64 bits, one doubling per attempt up to the first value at or above half of the maximum |
| `Backoff.NothingOverflows` | task/task.go:135-137 | for a base that is not negative that is the exact product with a power of two |
| `Backoff.DelayIsMonotoneExactly` | task/task.go:128-143 | delays never exceed the maximum, and never shrink from one attempt to a later one if and only if the base is not a negative one below half of the maximum whose double does not wrap around |
| `Backoff.DelaySettles` | task/task.go:129-143 | for positive settings an attempt's delay is at least half of the maximum if and only if the base doubled once for every attempt before it is; from then on the delay never changes, and until then it is that product |
| `Worker.Resolve` | worker/worker.go:306-351 | makes exactly one store write, the one the answer calls for, and names the run to advance iff the write ended the execution |
| `Worker.AnswerDecides` | worker/worker.go:306-343 | while the lease is held the answer decides the record: success, another attempt after the right delay iff the error allows it and the budget has one left, or failure; the lease is given up and no other record changes |
| `Worker.LateAnswerIgnored` | worker/worker.go:306-343 | an answer after the lease was lost changes nothing and advances nothing |

## Left out

- The PostgreSQL store: its transitions are SQL text for a foreign engine and repeat the in-memory store's.
- JSON encoding, key texts and base64, RFC 3339 texts, cron parsing and time zones.
- Worker goroutines, channels, timers, health, shutdown and the polling loop; only the resolution of a delivery is modelled.
- The bounded retry loops of `Advance` (four passes) and of the Redis `watch` (sixteen): an interrupted pass or transaction simply ends, and the interleaved systems may begin it again any number of times.
- The engine's `Run`, `Reconcile` and `Inspect`: sequences of modelled calls.
- Listing of runs and run counts in the in-memory store, and run counts in the Redis store: the same loops as for executions; the run counters themselves are covered by `RedisRuns.CoherentExactly`.
- Redis listings as an interface, ordered by millisecond scores and member text; stale queue entries, which cannot occur before a purge comes late (`RedisRuns.CoherentExactly`), are not dropped by the model.
- Schedules that trigger pipelines: their trigger and their question for active runs have the shape of the modelled ones for tasks. Errors of a trigger, which are only reported to the observer.
- The monitoring and HTTP interfaces, metrics, command line and wiring.
- FlowSafety.FlowsThroughoutExactly: restarts that are carried out name the descendants the definition has, as the engine's do (`Definitions.DescendantKeys`).
- FlowSafety.DataFlowsUntilHarmed: ends with the first harmful move, because the property is false after it (`FlowWitnesses`, `DataFlow.CancelBreaksFlow`, `DataFlow.RestartBreaksFlow`).
- Results.EveryInputIsEvaluated: for handlers that are functions of their input; outputs that differ from one delivery to the next have no one evaluation to agree with.
- Cancelling.CancelSilences: for a cancellation that nothing interrupts; `CancelSafety` has the interleaved one, in which the executions of a run are cancelled one at a time by anybody.
- RedisRuns.CoherentExactly: a subgraph restart must not name a node key twice, which the engine's never do (`Definitions.DescendantsInOrder`) and `RedisSubgraph.NodeNamedTwiceExactly` covers; a purge must not have read one record twice.
- RedisStore.Store.Claim: an equal pick only when every named queue fits the window of max(8·limit, 128) due members; beyond it, due executions can stay behind as many others that are due no later.
- Chronicle.LogTellsRecord: an event has the time of its operation; the in-memory store reads the clock again for the event (execution/memory.go:624), which can then be later by the time between the two readings.
- RedisStore.Store.RestartPipelineSubgraph: agrees with the in-memory store for distinct non-empty node keys, as the engine sends them.
