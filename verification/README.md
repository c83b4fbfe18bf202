# Swarm: resilience and orchestration, verified

A Dafny model of the parts of the swarm that decide whether a call may go out, in what order work is done, and what is
remembered: admission of model calls, the persistent task queue, the two dependency sorts, retry and token arithmetic, the
learning-curve fit, the context store, the cache, the audit log and the alert manager.

Each source class is a Dafny class whose methods are proved against functions on values; the properties are then proved of
those functions, mostly over all runs, all interleavings and all crash points. `dafny verify dfyconfig.toml` checks everything.

| file | models |
|---|---|
| `Walks.dfy`, `TaskDag.dfy` | dependency graphs; the depth-first execution order and its parallel groups |
| `RecoveryPlan.dfy` | the pass-by-pass order of recovery steps |
| `RateLimiterV2.dfy`, `RateLimiterRuns.dfy`, `RpmScenario.dfy` | the per-minute window, daily counter and in-flight slots; whole runs; runs that show a bound is exact |
| `CircuitBreaker.dfy`, `BreakerRuns.dfy` | the breaker over the limiter; runs of both together |
| `FallbackChain.dfy`, `Admission.dfy`, `AdmissionRuns.dfy`, `LeakScenario.dfy` | `execute` alone; any number of executions interleaved at their locks; what limiter and breaker see of them; a run that leaks every slot |
| `TaskQueue.dfy`, `TaskQueueRuns.dfy`, `RetryScenario.dfy` | memory, queue file and history; runs with a crash between any two file effects; runs that use up every retry |
| `TokenBucket.dfy`, `RetryEngine.dfy`, `LearningCurve.dfy` | arithmetic over `real` |
| `InMemoryCache.dfy` | least-recently-used eviction with expiry |
| `ContextEntries.dfy`, `ContextManager.dfy`, `ContextRuns.dfy` | three indexes, eviction by rank, `set` and `get`; what a restart brings back |
| `AuditChain.dfy` | the hash-chained log with truncation |
| `AlertManager.dfy`, `AlertRuns.dfy`, `AlertStatus.dfy` | durations and cooldowns; whole runs; the status of every alert |

Conventions: time is a `real` handed in by the caller, one reading per locked step, never decreasing where a theorem says so;
a UTC day is the floor of the time divided by 86400. Random numbers, ids and hashes are parameters. An exception is a
`Result` or `Option`. A `defaultdict` is a map read with a default.

## Where the code differs from what it says

The model follows the code; each difference is a theorem.

- `fallback_chain.py:178` promises a wait and a retry of the same level when the minute window is full. Lines 181-193 leave the
  level even if the second acquire succeeds, and never release that slot. `LeakExactly` gives the exact condition,
  `RunLeaks` and `SlotsBalance` count the slots, `LeaksShrinkCapacity` shows that they never come back, and
  `TenLeaks` is a run of eleven callers that closes a model for good.
- `circuit_breaker.py:13-14` calls HALF_OPEN the mid-day recovery state. Without `RateLimiterV2.reset` it is never entered
  (`NeverHalfOpen`); `HalfOpenEntry` gives the only way in.
- `task_queue.py:293` says a pending item is popped. The item goes back under the same key, so the next `dequeue` returns it
  again (`DequeueTwice`). A `fail` without a `dequeue` before it costs no attempt (`FailIsFree`), so with k calls of `fail`
  beyond the hand-outs a task goes back up to `max_attempts` + k - 1 times, and `max_attempts` is respected exactly if k is 0
  (`RetryBoundIsExact`, `PairingIsNeeded`). A reload counts one more attempt for a RUNNING item, in memory only.
- `task_dag.py:85` looks up names in a list of nodes, so a stage with dependencies never joins a group; this is what makes
  groups independent (`GroupsAreSound`).
- `rate_limiter.py:81` accepts a negative request, which overfills a full bucket: `BoundsNeedNonNegative`.
- `context_manager.py:173`: setting a key that is there says it updates the value, but if the entry has expired and no ttl is
  given, the old deadline stays and the next `get` drops it (`SetAgainThenGet`). A new entry of low rank may evict itself, so
  `set` returns an id that is not stored (`NewEntryKept` says exactly when). Only `set` saves, so an entry that was
  deleted, cleared or expired is back after a restart exactly if no `set` completed in between (`RestartUndoesRemoval`).
- `context_manager.py:130`: a load leaves entries with an empty creator out of the agent index, where `set` puts them in (225).
  After a restart the index is exact just when no stored entry has an empty creator (`Restart`); such entries are the only
  ones ever missing, and every call only makes them fewer (`ExactUnlessLost`).
- `constitutional_audit.py:163-165` truncates the log, after which `verify_audit_chain` reports entry 0 for ever
  (`VerifyExactly`). Violation and resolution entries never truncate, so 5000 bounds the log only right after a check
  (`LogSize`). Verification looks at hashes only (`OnlyHashesCount`). Lines 549-560 leave artifact, time and id out of a
  violation's hash, so hashes repeat, and taking out an entry that repeats the hash before it goes unnoticed
  (`RemovalIsFound`).
- `rate_limiter_v2.py:164` reads the clock before it takes the lock, so two threads can append out of order. With readings at
  most d seconds behind, spans of 60 - d seconds keep the bound of n calls and no longer span does (`RpmBoundIsExact`): some
  run puts 2n - 1 calls into any longer span up to a minute (`Crossing`, `CountCrossed`). Refusals mean what they say up to
  d seconds (`RpmDenialWithSkew`).
- `alert_manager.py:196`: a rule that never fired counts as fired at clock zero, so the first alert waits until the monotonic
  clock shows the cooldown (`AlertsApart`, `FiresExactly`).
- `learning_tracker.py:321-323` cannot be reached (`DenominatorPositive`).

## Model

| member | source | states |
|---|---|---|
| TaskDag.Search.Visit | swarm/core/task_dag.py:53-67 | a visit that returns leaves the finished stages listed once, each after its dependencies and reachable from a node, and restores the temporary marks; one that raises has found a cycle a node reaches |
| TaskDag.Search.VisitDependencies | swarm/core/task_dag.py:60-63 | after the loop every sequential dependency of the stage is finished and the temporary marks are as before |
| TaskDag.ExploredIsComplete | swarm/core/task_dag.py:69-73 | when all nodes are finished the order is exactly the stages reachable from them, topological, and no node reaches a cycle |
| TaskDag.DAG.AddNode | swarm/core/task_dag.py:41-42 | a new name goes to the end of the insertion order, a known one keeps its place |
| TaskDag.DAG.GetExecutionOrder | swarm/core/task_dag.py:47-73 | raises exactly when the sequential edges reachable from the nodes contain a cycle; otherwise lists every reachable stage once, after everything it depends on, and everything the first i nodes need before all else |
| TaskDag.ClosedDagOrder | swarm/core/task_dag.py:47-73 | for edges between known nodes, failing means that the graph has a cycle at all, and the order is a permutation of the nodes |
| TaskDag.NeededNext | swarm/core/task_dag.py:69-72 | stages are taken up in the insertion order of the nodes: what the first i nodes need comes before everything else |
| TaskDag.DAG.GroupStages | swarm/core/task_dag.py:78-97 | the grouping loop; fails exactly on a stage that is not a node |
| TaskDag.DAG.GetParallelGroups | swarm/core/task_dag.py:75-97 | succeeds exactly without a reachable cycle or unknown stage; the groups concatenate to an execution order, every dependency lies in a strictly earlier group, and a group is opened only by a stage with dependencies |
| TaskDag.GroupsFlatten | swarm/core/task_dag.py:81-97 | the groups concatenate back to the order and none is empty |
| TaskDag.GroupsAreSound | swarm/core/task_dag.py:83-92 | every dependency of a stage is in a strictly earlier group |
| TaskDag.GroupsOpened | swarm/core/task_dag.py:85-92 | a group starts exactly at a stage with a dependency, or at the first stage |
| RecoveryPlan.PassSound | swarm/resilience/recovery_engine.py:146-152 | a pass keeps the ordered part dependency-ordered and loses no step; one without progress met only unready steps |
| RecoveryPlan.StuckMeansCycle | swarm/resilience/recovery_engine.py:152-155 | steps that are all unready contain a dependency cycle |
| RecoveryPlan.PassesComplete | swarm/resilience/recovery_engine.py:141-156 | with known dependencies: success gives a dependency-ordered permutation, failure a cycle; for distinct ids success holds exactly without a cycle |
| RecoveryPlan.OrderedIsFixed | swarm/resilience/recovery_engine.py:143-156 | a plan already in dependency order comes back unchanged |
| RecoveryPlan.SortingIsIdempotent | swarm/resilience/recovery_engine.py:131-156 | sorting a sorted plan changes nothing |
| RecoveryPlan.RecoveryPlan.ExecutionOrder | swarm/resilience/recovery_engine.py:131-156 | raises for an unknown dependency; otherwise, for distinct ids, exactly for a cycle; else a dependency-ordered permutation |
| RateLimiting.RateLimiterV2.CheckResetLocked | swarm/resilience/rate_limiter_v2.py:117-123 | counters and warnings are cleared exactly on a new UTC day |
| RateLimiting.RateLimiterV2.PruneRpmLocked | swarm/resilience/rate_limiter_v2.py:125-128 | the popping loop leaves the pruned window and touches no other model |
| RateLimiting.RateLimiterV2.GetUsed | swarm/resilience/rate_limiter_v2.py:136-139 | reads the counter after a day check |
| RateLimiting.RateLimiterV2.AcquireEx | swarm/resilience/rate_limiter_v2.py:155-193 | verdict and whole new state, in the order daily, rpm, concurrent |
| RateLimiting.RateLimiterV2.Release | swarm/resilience/rate_limiter_v2.py:200-207 | gives back one slot, never below zero |
| RateLimiting.RateLimiterV2.Record429 | swarm/resilience/rate_limiter_v2.py:217-221 | one more use without a day check |
| RateLimiting.RateLimiterV2.Reset | swarm/resilience/rate_limiter_v2.py:227-236 | clears counters and windows of one model or all, never the slots |
| RateLimiting.UtcDayMeaning | swarm/resilience/rate_limiter_v2.py:119-119 | a UTC day is 86400 seconds, counted from the epoch |
| RateLimiting.WarnsExactly | swarm/resilience/rate_limiter_v2.py:186-189 | a grant warns exactly if it brings the day's count to four fifths of the limit; the other warnings of the day stay |
| RateLimiting.ResetMeaning | swarm/resilience/rate_limiter_v2.py:227-236 | a reset forgets counts, windows and warnings of one model or all, and leaves slots, day and 429s alone |
| RateLimiting.AcquiredShifts | swarm/resilience/rate_limiter_v2.py:179-184 | only the slot count of the model moves, by one exactly on success, and it was below the limit |
| RateLimiting.ReleasedShifts | swarm/resilience/rate_limiter_v2.py:200-204 | a release moves only that slot count, by minus one, and changes nothing when no slot is taken |
| RateLimiterRuns.StepWindow | swarm/resilience/rate_limiter_v2.py:173-185 | what any call does to a window: append after pruning on a grant, otherwise keep or prune |
| RateLimiterRuns.StepUsed | swarm/resilience/rate_limiter_v2.py:166-186 | what any call does to the daily counter |
| RateLimiterRuns.NeverNegative | swarm/resilience/rate_limiter_v2.py:200-207 | in every run, however often `release` is called, no slot count is negative |
| RateLimiterRuns.PrunedWindowIsRecent | swarm/resilience/rate_limiter_v2.py:125-128 | in every run without `reset` whose readings come in lock order, the pruned window is exactly the grants of the last 60 seconds, in time order |
| RateLimiterRuns.RpmDenialIsExact | swarm/resilience/rate_limiter_v2.py:168-177 | in such runs "rpm" is refused exactly when the quota has room and that many calls really were granted in the last 60 seconds |
| RateLimiterRuns.PrunedWithSkew | swarm/resilience/rate_limiter_v2.py:125-128 | with readings at most d behind, the pruned window holds every grant of the last 60 - d seconds and none older than 60 + d |
| RateLimiterRuns.RpmDenialWithSkew | swarm/resilience/rate_limiter_v2.py:164-177 | with readings at most d behind, "rpm" means that the limit's worth of calls was granted in the last 60 + d seconds, and that many in the last 60 - d mean "rpm" |
| RateLimiterRuns.RpmBoundWithSkew | swarm/resilience/rate_limiter_v2.py:155-193 | in every run without `reset` whose clock readings lie at most d behind those of earlier lock holders, any span of 60 - d seconds holds at most `get_rpm(m)` grants |
| RateLimiterRuns.RpmBound | swarm/resilience/rate_limiter_v2.py:155-193 | in every run without `reset` whose readings come in lock order, any span of 60 seconds holds at most `get_rpm(m)` grants |
| RpmScenario.Crossing | swarm/resilience/rate_limiter_v2.py:164-185 | for every limit n and every lag d up to a minute, a run with readings at most d behind that grants n calls at 0, one at 60 and n - 1 at 60 - d |
| RpmScenario.CountCrossed | swarm/resilience/rate_limiter_v2.py:164-185 | of these 2n calls every span from 0 longer than 60 - d seconds holds at least 2n - 1 |
| RpmScenario.RpmBoundIsExact | swarm/resilience/rate_limiter_v2.py:155-193 | all runs without `reset` and with readings at most d behind keep `get_rpm(m)` over spans of a given length exactly if the length is at most 60 - d |
| RateLimiterRuns.DailyInvariant | swarm/resilience/rate_limiter_v2.py:117-123 | in every run without `reset` whose readings come in lock order, the counter covers all grants of its day, and no grant lies after that day |
| RateLimiterRuns.DailyQuota | swarm/resilience/rate_limiter_v2.py:166-186 | in such runs no UTC day sees more acquires succeed than the daily limit |
| CircuitBreaking.PctMeaning | swarm/enterprise/core/circuit_breaker.py:78-91 | the ratio tests in integers, and what they say for a limit that is not positive |
| CircuitBreaking.DrainIsRepeatedDequeue | swarm/enterprise/core/circuit_breaker.py:120-144 | one drain returns what dequeuing to the end at the same moment would |
| CircuitBreaking.DequeueMeaning | swarm/enterprise/core/circuit_breaker.py:120-129 | a dequeue skips what has waited for more than an hour, hands out the first other request and keeps all behind it |
| CircuitBreaking.DrainMeaning | swarm/enterprise/core/circuit_breaker.py:131-144 | a drain hands out, in order, what has waited for at most an hour |
| CircuitBreaking.HalfOpenExit | swarm/enterprise/core/circuit_breaker.py:83-94 | a check on its own day takes a HALF_OPEN circuit to OPEN exactly at a spent quota and to CLOSED, with its probes cleared, exactly below four fifths of it; other circuits stay |
| CircuitBreaking.NewDay | swarm/enterprise/core/circuit_breaker.py:67-87 | the first check of a day closes all circuits and clears all probes, except that it opens its own circuit at a spent quota; the queues stay |
| CircuitBreaking.ResetDailyMeaning | swarm/enterprise/core/circuit_breaker.py:150-157 | a daily reset closes every circuit and empties every queue |
| CircuitBreaking.CircuitBreaker.CheckAndUpdate | swarm/enterprise/core/circuit_breaker.py:60-95 | whole new state of breaker and limiter, rollover included |
| CircuitBreaking.CircuitBreaker.AllowRequest | swarm/enterprise/core/circuit_breaker.py:97-108 | CLOSED passes, HALF_OPEN passes while probes are left and counts them, OPEN does not |
| CircuitBreaking.CircuitBreaker.Enqueue | swarm/enterprise/core/circuit_breaker.py:110-118 | appends exactly while fewer than 100 requests wait |
| CircuitBreaking.CircuitBreaker.Dequeue | swarm/enterprise/core/circuit_breaker.py:120-129 | drops stale requests from the front and returns the oldest left |
| CircuitBreaking.CircuitBreaker.Drain | swarm/enterprise/core/circuit_breaker.py:131-144 | returns the live requests in order and empties the queue |
| CircuitBreaking.CircuitBreaker.ResetDaily | swarm/enterprise/core/circuit_breaker.py:150-157 | closes known circuits, clears their probes and all queues |
| BreakerRuns.EvaluatedCircuit | swarm/enterprise/core/circuit_breaker.py:67-95 | the circuit of every model after a check, from a state that is not HALF_OPEN |
| BreakerRuns.NeverHalfOpen | swarm/enterprise/core/circuit_breaker.py:88-93 | over any number of days without `reset` HALF_OPEN is never entered |
| BreakerRuns.CheckIsMemoryless | swarm/enterprise/core/circuit_breaker.py:60-95 | without `reset` a check opens exactly when today's quota is spent, whatever happened before |
| BreakerRuns.GateSavesQuota | swarm/enterprise/core/circuit_breaker.py:83-87 | after the gate passed, an acquire at the same moment is not refused for "daily" unless the limit is not positive |
| BreakerRuns.UsedNeverFalls | swarm/resilience/rate_limiter_v2.py:117-139 | within a day no call but `reset` lowers the used count |
| BreakerRuns.SpentStaysSpent | swarm/resilience/rate_limiter_v2.py:117-139 | a spent quota stays spent for the rest of the UTC day |
| BreakerRuns.OpenUntilRollover | swarm/enterprise/core/circuit_breaker.py:60-108 | a circuit found OPEN is found OPEN by every later check of that day |
| BreakerRuns.HalfOpenEntry | swarm/enterprise/core/circuit_breaker.py:88-90 | HALF_OPEN is entered exactly from OPEN, on the same day, with quota left |
| BreakerRuns.ProbeStep | swarm/enterprise/core/circuit_breaker.py:102-106 | how every step moves the probe counter |
| BreakerRuns.ProbeBound | swarm/enterprise/core/circuit_breaker.py:102-107 | in every run, resets and oscillation included, at most three probes pass between two clearings of the counter |
| BreakerRuns.FirstInFirstOut | swarm/enterprise/core/circuit_breaker.py:110-144 | in every run the queue of a model holds the last requests to arrive, at most 100, in the order of arrival: every request that is gone arrived before every one that waits |
| FallbackExecution.AdvanceKeepsShape | swarm/enterprise/core/fallback_chain.py:162-226 | every attempt keeps the trace in blocks, one per level: full of errors, or errors and one skip, or errors and the success |
| FallbackExecution.ShapeBounds | swarm/enterprise/core/fallback_chain.py:162-235 | attempts are at most levels times retries; a success is the last entry, the only one, and made by the reported level's model |
| FallbackExecution.TotalSleep | swarm/enterprise/core/fallback_chain.py:183-225 | total sleep is at most levels * (2^(max_retries-1) - 1 + 0.5) seconds |
| FallbackExecution.LeakExactly | swarm/enterprise/core/fallback_chain.py:180-193 | a lone attempt leaks exactly when the window is full and, half a second later, window, quota and slots have room |
| FallbackExecution.RunIsSane | swarm/enterprise/core/fallback_chain.py:157-235 | every execution ends, with a trace of the right shape and a bounded sleep, whatever gates and calls do |
| FallbackExecution.AttemptShifts | swarm/enterprise/core/fallback_chain.py:166-226 | an attempt changes the slot count by one exactly when it ends in "rate_limit:None" |
| FallbackExecution.RunLeaks | swarm/enterprise/core/fallback_chain.py:162-235 | a finished execution changed the slot count of m by exactly its "rate_limit:None" entries for m |
| FallbackExecution.ResultBounds | swarm/enterprise/core/fallback_chain.py:157-235 | for the result of every execution: attempts and sleep are bounded, and success is reported exactly if the last entry is a success, the only one, made by the model and level named |
| FallbackExecution.ExecutionTells | swarm/enterprise/core/fallback_chain.py:157-235 | every trace entry at level 1 tried the primary, at level 2 the first fallback, at level 3 the second; the trace starts at the primary, stays on a level after an error with retries left, goes to the next after anything else, and ends at a success or on the last level; the answer is the model and level of the last entry |
| FallbackExecution.PrimaryAnswers | swarm/enterprise/core/fallback_chain.py:166-214 | when the first gate and acquire let it through and the call succeeds, the primary answers after one attempt and no sleep |
| FallbackExecution.RunSleeps | swarm/enterprise/core/fallback_chain.py:182-225 | an execution sleeps 2^(k-1) seconds after the k-th error on a level unless retries are used up, and half a second for each rpm wait, and nothing else |
| FallbackExecution.AttemptCounts | swarm/enterprise/core/fallback_chain.py:180-193 | within a day an attempt uses up one call of the quota exactly if it called the model, leaked a slot or met a spent quota, which also counts two 429s |
| FallbackExecution.AttemptQueues | swarm/enterprise/core/fallback_chain.py:168-174 | an attempt queues its request exactly if the circuit refused it and fewer than 100 wait |
| FallbackExecution.FallbackChainExecutor.Allow | swarm/enterprise/core/fallback_chain.py:168-168 | the breaker's answer, from its own limiter or the executor's when they are the same |
| FallbackExecution.FallbackChainExecutor.Attempt | swarm/enterprise/core/fallback_chain.py:166-227 | one attempt: gate, acquire, wait, second acquire, call, release; new limiter and breaker state |
| FallbackExecution.FallbackChainExecutor.TryLevel | swarm/enterprise/core/fallback_chain.py:165-226 | the retry loop of a level is the same stretch of the run, and its variables agree with the trace |
| FallbackExecution.FallbackChainExecutor.Execute | swarm/enterprise/core/fallback_chain.py:140-235 | result, trace, sleep, limiter and breaker are those of the whole run; trace, answer and sleep are as `ExecutionTells` and `RunSleeps` say; an unknown role changes nothing |
| Admission.ProcessStepBalance | swarm/enterprise/core/fallback_chain.py:168-214 | one locked step moves the slot count by what the process now holds and has leaked |
| Admission.SlotsBalance | swarm/enterprise/core/fallback_chain.py:162-226 | in every interleaving of any number of executions the slot count is the calls holding a slot plus the leaked slots, so at most ten calls to a model are in flight |
| Admission.QuiescentSlots | swarm/enterprise/core/fallback_chain.py:189-214 | when all have finished, what is still taken is what the traces report as leaked |
| Admission.LeakStep | swarm/enterprise/core/fallback_chain.py:184-193 | a step leaks exactly when it is a granted second acquire |
| Admission.LeaksNeverReturn | swarm/enterprise/core/fallback_chain.py:184-193 | the leaked slots never become fewer |
| Admission.LeaksShrinkCapacity | swarm/resilience/rate_limiter_v2.py:179-184 | after n leaks at most 10 - n calls run at once ever again; after ten no acquire succeeds |
| Admission.SoloAttempt | swarm/enterprise/core/fallback_chain.py:166-227 | the interleaved steps taken without interruption are one attempt of the sequential method |
| Admission.SoloRun | swarm/enterprise/core/fallback_chain.py:140-235 | a process left alone finishes with exactly the limiter, breaker and trace of one call of the sequential method |
| AdmissionRuns.RunIsSeen | swarm/enterprise/core/fallback_chain.py:166-226 | every interleaving of executions leaves limiter and breaker where the run of their own calls leaves them |
| AdmissionRuns.LimiterRun | swarm/enterprise/core/circuit_breaker.py:60-108 | every run of limiter and breaker leaves the limiter where the run of its own calls does |
| AdmissionRuns.LimiterInStep | swarm/resilience/rate_limiter_v2.py:164-165 | the limiter's calls in an interleaving lag no more than the interleaving does |
| AdmissionRuns.TakenIsGranted | swarm/enterprise/core/fallback_chain.py:180-193 | the slots that executions take, leaked ones included, are the limiter's grants |
| AdmissionRuns.SpanBound | swarm/enterprise/core/fallback_chain.py:180-193 | in every interleaving without `reset` whose readings lie at most d behind, any span of 60 - d seconds sees at most `get_rpm(m)` slots taken |
| AdmissionRuns.DayBound | swarm/enterprise/core/fallback_chain.py:180-193 | in every interleaving without `reset` whose readings come in lock order, no UTC day sees more slots taken than the daily limit |
| AdmissionRuns.NoneHalfOpen | swarm/enterprise/core/circuit_breaker.py:88-93 | in such interleavings HALF_OPEN is never entered |
| AdmissionRuns.ProbesBounded | swarm/enterprise/core/circuit_breaker.py:102-107 | in every interleaving at most three probes of a model pass between two clearings of its counter |
| LeakScenario.LeakingCall | swarm/enterprise/core/fallback_chain.py:180-193 | a caller that meets a full window leaks one more slot, is answered by the next level, and leaves the next caller in the same place |
| LeakScenario.LeaksHappen | swarm/enterprise/core/fallback_chain.py:180-193 | for every n up to ten, some run from an empty system with a clock that never runs back leaks exactly n slots and finishes |
| LeakScenario.TenLeaks | swarm/resilience/rate_limiter_v2.py:179-182 | after ten of them nothing runs, quota and window have room, and the model is refused as "concurrent" |
| TaskQueues.KeyIsUrgency | swarm/resilience/task_queue.py:45-51 | the keys compare as urgency does, from critical over high, normal and low to background, then age, then id |
| TaskQueues.StringLessMeaning | swarm/resilience/task_queue.py:132-141 | ids compare at their first difference, a proper prefix first |
| TaskQueues.InsertFacts | swarm/resilience/task_queue.py:132-141 | an insertion keeps strict order and unique ids, adds the item and nothing else |
| TaskQueues.RemoveFacts | swarm/resilience/task_queue.py:151-156 | a removal keeps order, drops that id and nothing else |
| TaskQueues.LoadKeepsOrder | swarm/resilience/task_queue.py:208-220 | reloading what was saved gives the same order with RUNNING reset to PENDING |
| TaskQueues.LoadMeaning | swarm/resilience/task_queue.py:208-220 | reopening makes each RUNNING task PENDING with one more attempt and changes nothing else |
| TaskQueues.HeadComesFirst | swarm/resilience/task_queue.py:292-305 | in a sorted queue the item handed out comes before all others by urgency, then age |
| TaskQueues.DequeueKeepsPlace | swarm/resilience/task_queue.py:292-305 | the item handed out stays first |
| TaskQueues.DequeueTwice | swarm/resilience/task_queue.py:292-305 | two dequeues in a row return the same task and count two attempts |
| TaskQueues.PushBack | swarm/resilience/task_queue.py:331-342 | removing an item and pushing it back under its key restores its place |
| TaskQueues.PriorityQueue.Push | swarm/resilience/task_queue.py:132-141 | the scan inserts before the first larger key; `KeyIsUrgency` says which that is |
| TaskQueues.PriorityQueue.Pop | swarm/resilience/task_queue.py:143-146 | takes the first item |
| TaskQueues.PriorityQueue.RemoveById | swarm/resilience/task_queue.py:151-156 | drops the first item with that id, if any |
| TaskQueues.PriorityQueue.Lookup | swarm/resilience/task_queue.py:361-366 | the search loop finds the item with that id, if any |
| TaskQueues.Disk.ReplaceQueue | swarm/resilience/task_queue.py:226-251 | the queue file is replaced as a whole |
| TaskQueues.Disk.AppendHistory | swarm/resilience/task_queue.py:253-261 | the history grows by one line |
| TaskQueues.TaskQueue.constructor | swarm/resilience/task_queue.py:173-220 | opening loads and recovers the queue file and writes nothing |
| TaskQueues.TaskQueue.Persist | swarm/resilience/task_queue.py:244-251 | the file becomes what memory holds |
| TaskQueues.TaskQueue.Enqueue | swarm/resilience/task_queue.py:266-290 | an invalid priority changes nothing; otherwise a PENDING item with no attempts is pushed, then saved, in this order |
| TaskQueues.TaskQueue.Dequeue | swarm/resilience/task_queue.py:292-305 | the first item, marked RUNNING, counted and put back, then saved; in a sorted queue it is the most urgent and, within its priority, the oldest |
| TaskQueues.TaskQueue.Complete | swarm/resilience/task_queue.py:311-324 | history line first, then the queue file without the item |
| TaskQueues.TaskQueue.Fail | swarm/resilience/task_queue.py:326-347 | buried with a history line when attempts are used up or on request, else put back as PENDING |
| TaskQueues.TaskQueue.Cancel | swarm/resilience/task_queue.py:349-359 | history line first, then the queue file without the item |
| TaskQueueRuns.PlanCore | swarm/resilience/task_queue.py:266-359 | no operation changes a task's type, payload, priority, retry limit or creation time; a task leaves memory only with its own history line |
| TaskQueueRuns.NoTaskLost | swarm/resilience/task_queue.py:208-359 | in every reachable state, whatever crashed and when, a task whose `enqueue` returned is in the queue file or the history, unchanged in its core |
| TaskQueueRuns.AlwaysOrdered | swarm/resilience/task_queue.py:132-224 | memory and file are strictly ordered, most urgent first and oldest first within a priority, hold only PENDING and RUNNING items, and reopening gives the same order |
| TaskQueueRuns.MostUrgentFirst | swarm/resilience/task_queue.py:292-305 | in every reachable state `dequeue` hands out a task of the most urgent priority in memory, and of these none is older; it is RUNNING with one more attempt and stays in front |
| TaskQueueRuns.ExactlyOnePlace | swarm/resilience/task_queue.py:266-359 | without crashes an accepted task is in exactly one of queue file and history, there exactly once |
| TaskQueueRuns.HistoryTellsTheEnd | swarm/resilience/task_queue.py:311-359 | every history line was written by an operation that ended its task: completed, with the result given, cancelled, or failed with attempts used up or on request |
| TaskQueueRuns.RetryBound | swarm/resilience/task_queue.py:326-347 | if at no point more than k calls of `fail` for an id exceed its hand-outs, it is put back fewer than `max_attempts` + k times, after double hand-outs and with crashes anywhere; k = 0 is the case that every `fail` follows a new dequeue |
| RetryScenario.Unpaired | swarm/resilience/task_queue.py:326-342 | for every `max_attempts` of at least 1 and every k, a run with k unpaired calls of `fail` that puts the task back `max_attempts` - 1 + k times |
| RetryScenario.RetryBoundIsExact | swarm/resilience/task_queue.py:292-347 | all runs with at most k unpaired calls stay below a bound exactly if it is at least `max_attempts` + k |
| RetryScenario.PairingIsNeeded | swarm/resilience/task_queue.py:292-347 | all of them stay below `max_attempts` exactly if k is 0 |
| TaskQueueRuns.RunningFailsArePaired | swarm/resilience/task_queue.py:292-347 | calling `fail` only on RUNNING items gives k = 0 |
| TaskQueueRuns.FailIsFree | swarm/resilience/task_queue.py:336-342 | a `fail` of a pending item puts it back without spending an attempt |
| LearningCurves.DenominatorPositive | swarm/intelligence/learning_tracker.py:302-304 | two or more points give a positive denominator, so the VOLATILE branch is dead |
| LearningCurves.ErrorOfLine | swarm/intelligence/learning_tracker.py:301-311 | the squared error of any line is that of the fit plus two squares |
| LearningCurves.FitIsLeastSquares | swarm/intelligence/learning_tracker.py:298-306 | the fitted line is the only one with the least squared error |
| LearningCurves.RSquaredRange | swarm/intelligence/learning_tracker.py:309-312 | R squared is in [0, 1], and for values not all equal it is 1 exactly if they lie on a line |
| LearningCurves.RSquaredIsExplained | swarm/intelligence/learning_tracker.py:309-312 | R squared is the share of the variation that the fitted slope explains, and 0 for equal values |
| LearningCurves.LineIsRecovered | swarm/intelligence/learning_tracker.py:305-319 | values on a line are fitted by that line: the trend is IMPROVING for a slope of at least 0.01, DECLINING for at most -0.01, and STABLE between |
| LearningCurves.LearningCurve.RecalculateTrend | swarm/intelligence/learning_tracker.py:285-328 | slope, R squared, trend and projection are those of the sums; below three points the projection stays |
| LearningCurves.LearningCurve.UpdateLearningCurve | swarm/intelligence/learning_tracker.py:266-282 | appends, keeps the last 100 points and refits |
| TokenBuckets.RefillFacts | swarm/resilience/rate_limiter.py:70-79 | a refill keeps the bounds and adds at most what flowed in |
| TokenBuckets.AttemptMeaning | swarm/resilience/rate_limiter.py:70-94 | an attempt refills the bucket up to its capacity, then takes exactly the request if there is enough and nothing otherwise; one above the capacity changes nothing |
| TokenBuckets.BoundsNeedNonNegative | swarm/resilience/rate_limiter.py:81-94 | a request keeps every bucket within 0 and its capacity exactly if it is not negative |
| TokenBuckets.WaitIsExact | swarm/resilience/rate_limiter.py:96-103 | an attempt after a delay succeeds exactly if the delay is at least the reported wait |
| TokenBuckets.RunAccounts | swarm/resilience/rate_limiter.py:70-94 | what a run granted and what is left is at most the capacity plus what flowed in |
| TokenBuckets.RunConserves | swarm/resilience/rate_limiter.py:70-94 | in every run the tokens granted, left and spilled over the brim are exactly those there at the start plus those that flowed in |
| TokenBuckets.BurstBound | swarm/resilience/rate_limiter.py:70-94 | tokens granted between t0 and t1 are at most capacity + refill_rate * (t1 - t0), whatever came before, and the bounds hold throughout |
| TokenBuckets.TokenBucket.Refill | swarm/resilience/rate_limiter.py:70-79 | nothing happens unless time has passed |
| TokenBuckets.TokenBucket.TryAcquire | swarm/resilience/rate_limiter.py:81-94 | raises above the capacity; else refills and takes the tokens if there are enough; counts either way |
| TokenBuckets.TokenBucket.TimeToAvailable | swarm/resilience/rate_limiter.py:96-103 | refills and reports the wait |
| RetryEngines.BackoffRange | swarm/resilience/retry_engine.py:71-101 | every delay lies in [0, max_delay], whatever is drawn |
| RetryEngines.DelaysAreScheduled | swarm/resilience/retry_engine.py:71-101 | for every strategy, delay by delay: FIXED repeats the initial delay; LINEAR is its multiples; EXPONENTIAL starts with it and doubles; EXPONENTIAL_JITTER is the doubling sequence times 1 + factor * (2 * draw - 1); DECORRELATED_JITTER lies between the initial delay and three times the one before, in proportion to the draw; all cut at max_delay |
| RetryEngines.JitteredSchedule | swarm/resilience/retry_engine.py:85-89 | with jitter every delay stays within 1 - factor and 1 + factor of the doubling sequence |
| RetryEngines.DecorrelatedSchedule | swarm/resilience/retry_engine.py:90-97 | every decorrelated delay is at most three times the one before |
| RetryEngines.DecorrelatedRange | swarm/resilience/retry_engine.py:90-101 | decorrelated delays never fall below the initial delay |
| RetryEngines.DelaysPrefix | swarm/resilience/retry_engine.py:150-156 | a longer schedule on the same draws starts with the shorter one |
| RetryEngines.BackoffSchedule.Compute | swarm/resilience/retry_engine.py:141-161 | the loop computes the scheduled delays, as each strategy promises them, and their sum |
| RetryEngines.RetryEngine.NextSleep | swarm/resilience/retry_engine.py:221-228 | the next delay of the schedule, cut to the time left, or none when the deadline has passed |
| RetryEngines.RetryEngine.Execute | swarm/resilience/retry_engine.py:185-238 | calls, sleeps and ending unfold as the policy says, one record per call; `SleepsAreScheduled` and `DeadlineMeaning` say how long the sleeps are |
| RetryEngines.SleepsAreTheSchedule | swarm/resilience/retry_engine.py:197-238 | without a deadline the i-th sleep is the i-th scheduled delay, and giving up means that all attempts were used |
| RetryEngines.SleepsAreScheduled | swarm/resilience/retry_engine.py:197-238 | without a deadline the sleeps of an execution are those its strategy promises |
| RetryEngines.DeadlineMeaning | swarm/resilience/retry_engine.py:222-236 | with a deadline each sleep is the scheduled delay or the time left, whichever is less, and attempts are given up early only when a call ended at or after the deadline |
| RetryEngines.EngineFollowsSchedule | swarm/resilience/retry_engine.py:141-238 | an execution that fails to the end without a deadline sleeps for exactly the computed schedule |
| RetryEngines.SleepRange | swarm/resilience/retry_engine.py:222-236 | each sleep is the scheduled delay or less, and in [0, max_delay] |
| RetryEngines.OneLateCall | swarm/resilience/retry_engine.py:224-228 | only the last call can start at or after the deadline |
| RetryEngines.SleepsFitTimeout | swarm/resilience/retry_engine.py:187-236 | with an exact sleeper all sleeps fit into the total timeout |
| InMemoryCaches.InMemoryCache.Get | swarm/enterprise/core/cache_manager.py:60-74 | a hit moves the key to the end, an expired one is dropped, both counted |
| InMemoryCaches.InMemoryCache.Set | swarm/enterprise/core/cache_manager.py:76-84 | stores at the end and drops from the front to the bound; a negative bound raises |
| InMemoryCaches.InMemoryCache.Delete | swarm/enterprise/core/cache_manager.py:86-88 | drops the key and says whether it was there |
| InMemoryCaches.CacheRefinesMap | swarm/enterprise/core/cache_manager.py:60-93 | in every run: unique keys, at most max_size, listed by last touch, agreeing with an unbounded map, and missing a live key only after max_size others were touched |
| InMemoryCaches.HitIsLatestSet | swarm/enterprise/core/cache_manager.py:60-74 | a hit returns the value of the latest `set` of that key, unexpired |
| InMemoryCaches.LifeOfKey | swarm/enterprise/core/cache_manager.py:60-84 | in every run a key set at t and left alone is found with its value up to t + ttl, or for ever without a positive ttl, unless max_size others were touched since, and never after |
| InMemoryCaches.RecentKeysStay | swarm/enterprise/core/cache_manager.py:76-84 | a live key is found while fewer than max_size distinct others were touched since its own last touch |
| InMemoryCaches.ListedByLastTouch | swarm/enterprise/core/cache_manager.py:71-82 | key order is the order of last touch, and the size is at most max_size |
| InMemoryCaches.OldKeysGo | swarm/enterprise/core/cache_manager.py:81-83 | the bound is sharp: a key still there after max_size others were touched owes it to one of those having been removed |
| ContextEntries.LookupIsSearch | swarm/intelligence/context_manager.py:176-177 | a key lookup equals a search of all entries, and there is one entry per scope and key |
| ContextEntries.ExactUnlessLost | swarm/intelligence/context_manager.py:130-131 | the agent index holds exactly the ids of each creator just when nothing was lost to it |
| ContextEntries.DropKeepsIndexes | swarm/intelligence/context_manager.py:445-453 | dropping an entry keeps the three indexes exact, up to the lost ids, which become no more |
| ContextEntries.AddKeepsIndexes | swarm/intelligence/context_manager.py:128-131 | adding an entry under a free key keeps them exact up to the same lost ids; only loading one with an empty creator loses it |
| ContextEntries.UpdateKeepsIndexes | swarm/intelligence/context_manager.py:178-191 | rewriting in place needs no change of the indexes and loses nothing |
| ContextEntries.RankMeaning | swarm/intelligence/context_manager.py:467-476 | the ranks compare LOW, MEDIUM, HIGH, CRITICAL in this order, and equal priorities by access count |
| ContextEntries.SortIsRanked | swarm/intelligence/context_manager.py:467-476 | the sort lists the same ids once, lowest rank first; `RankMeaning` says which that is |
| ContextEntries.DoomedEvicts | swarm/intelligence/context_manager.py:478-483 | giving up the head of the list, CRITICAL excepted, is an eviction: the scope fits or holds only CRITICAL, no more than the excess goes, nothing CRITICAL goes, and what goes ranks no higher than what stays |
| ContextEntries.EnforcedEvicts | swarm/intelligence/context_manager.py:455-483 | for every visiting order of the ids, what is enforced is such an eviction |
| ContextEntries.EvictionMeaning | swarm/intelligence/context_manager.py:455-483 | a full scope loses no HIGH entry while a MEDIUM or LOW one is left, no MEDIUM while a LOW one is, of equal priorities none read more often than one that stays, never a CRITICAL one, and no more than brings it to its 200, 100, 50 or 20 entries |
| ContextEntries.SurvivesAlways | swarm/intelligence/context_manager.py:458-483 | an entry is kept for every visiting order exactly if it is CRITICAL or enough others rank below it, and evicted for every order exactly if it is not CRITICAL and too few others rank no higher |
| ContextManagers.HierarchicalContextManager.constructor | swarm/intelligence/context_manager.py:89-114 | the entries of the file; exactly those with an empty creator are lost to the agent index |
| ContextManagers.HierarchicalContextManager.LoadState | swarm/intelligence/context_manager.py:116-137 | the entries of the file; scope and key index are exact, and so is the agent index but for the entries with an empty creator |
| ContextManagers.HierarchicalContextManager.SaveState | swarm/intelligence/context_manager.py:139-157 | the file becomes what memory holds |
| ContextManagers.HierarchicalContextManager.ExpireEntry | swarm/intelligence/context_manager.py:445-453 | drops the entry everywhere and counts it |
| ContextManagers.HierarchicalContextManager.EnforceScopeLimit | swarm/intelligence/context_manager.py:455-483 | what the sort of some visiting order leaves, which is an eviction of that scope and gives up its least important entries |
| ContextManagers.HierarchicalContextManager.Set | swarm/intelligence/context_manager.py:159-230 | rewrites the entry under the key, or adds one and evicts the least important of its scope (`EvictionMeaning`); then saves; created is always present plus expired, every entry in memory is in the file under its scope and key, and the lost ids only shrink |
| ContextManagers.HierarchicalContextManager.Get | swarm/intelligence/context_manager.py:232-263 | the indexed search does what searching the entries scope by scope does, and leaves the file alone |
| ContextManagers.HierarchicalContextManager.Search | swarm/intelligence/context_manager.py:249-263 | the loop over the scopes, each looked up in the key index |
| ContextManagers.HierarchicalContextManager.GetEntry | swarm/intelligence/context_manager.py:265-272 | the entry unless expired, in which case it is dropped |
| ContextManagers.HierarchicalContextManager.Delete | swarm/intelligence/context_manager.py:274-281 | drops the entry under the key, if any |
| ContextManagers.HierarchicalContextManager.DeleteById | swarm/intelligence/context_manager.py:283-289 | drops the entry with that id, if any |
| ContextManagers.HierarchicalContextManager.CleanupExpired | swarm/intelligence/context_manager.py:372-381 | drops exactly the expired entries and counts them |
| ContextManagers.HierarchicalContextManager.ClearScope | swarm/intelligence/context_manager.py:383-389 | drops exactly the entries of the scope and counts them |
| ContextManagers.GetMeaning | swarm/intelligence/context_manager.py:244-263 | `get` answers from the first scope searched with a live entry the agent may see, and fails only if there is none |
| ContextManagers.GetEverywhere | swarm/intelligence/context_manager.py:244-263 | without a scope, GLOBAL answers before TASK, AGENT and EPHEMERAL, and nothing is found exactly if no scope can answer |
| ContextManagers.GetLeaves | swarm/intelligence/context_manager.py:252-260 | `get` drops only expired entries under that key and changes only the counters of the one returned |
| ContextManagers.SetAgainThenGet | swarm/intelligence/context_manager.py:177-193 | after setting a key that is there, `get` finds the value exactly while the deadline that counts has not passed and the agent may see it; only value, priority and lifetime have changed |
| ContextManagers.SetNewThenGet | swarm/intelligence/context_manager.py:195-230 | after setting a new key, the same with the lifetime asked for or that of the scope (none, 3600, 1800 or 300 seconds), provided the entry was kept |
| ContextManagers.NewEntryKept | swarm/intelligence/context_manager.py:222-230 | from the state before `set`: the new entry is kept for every visiting order exactly if it is CRITICAL or enough others rank below it, and evicted by its own `set` for every order exactly if it is not CRITICAL and too few others rank no higher |
| ContextRuns.StepKeepsSound | swarm/intelligence/context_manager.py:159-389 | every call keeps one entry per scope and key, in memory and on file, and everything in memory on file |
| ContextRuns.RestartUndoesRemoval | swarm/intelligence/context_manager.py:139-157 | an entry that any call took out of memory (deleted, cleared, expired or evicted) is back after a restart exactly if that call and all later ones before the restart saved nothing, that is, were not `set`; if its key was not set again, the key is free after the restart exactly if one was |
| ContextRuns.Restart | swarm/intelligence/context_manager.py:116-137 | a restart has the entries of the file, and an exact agent index just when none of them has an empty creator |
| ContextRuns.DeleteThenRestart | swarm/intelligence/context_manager.py:274-281 | whatever ran before, a restart right after a deletion brings the same entry back under the key, with all else that the last `set` wrote |
| ContextRuns.DeleteSetThenRestart | swarm/intelligence/context_manager.py:159-281 | with a `set` of any other key in between, the key stays free |
| AuditChains.LogEndsLedger | swarm/intelligence/constitutional_audit.py:137-200 | in every run, restarts included, the log is the end of the full ledger: each entry carries the hash before it, and `last_hash` is the final one |
| AuditChains.DroppedExactly | swarm/intelligence/constitutional_audit.py:161-165 | something was dropped exactly if a check was recorded with 5000 entries before it |
| AuditChains.LogSize | swarm/intelligence/constitutional_audit.py:161-170 | from then on the log holds 5000 entries up to the latest check and all since |
| AuditChains.VerifyExactly | swarm/intelligence/constitutional_audit.py:415-427 | verification succeeds exactly while nothing was dropped, and afterwards reports entry 0 |
| AuditChains.RemovalIsFound | swarm/intelligence/constitutional_audit.py:421-427 | taking out one entry of a sound log is reported at its place, unless it was the last or repeats the hash before it |
| AuditChains.OnlyHashesCount | swarm/intelligence/constitutional_audit.py:421-427 | changes that keep all hashes are not seen |
| AuditChains.ConstitutionalAudit.constructor | swarm/intelligence/constitutional_audit.py:566-584 | the log read back, with the last hash of its last entry |
| AuditChains.ConstitutionalAudit.AuditCheck | swarm/intelligence/constitutional_audit.py:137-175 | records the check, truncates, then records the violations, and saves |
| AuditChains.ConstitutionalAudit.AuditViolation | swarm/intelligence/constitutional_audit.py:177-201 | records one violation and saves |
| AuditChains.ConstitutionalAudit.RecordViolationResolved | swarm/intelligence/constitutional_audit.py:203-228 | records the resolution of a known violation and saves; an unknown one changes nothing |
| AuditChains.ConstitutionalAudit.VerifyAuditChain | swarm/intelligence/constitutional_audit.py:415-427 | the scan reports the first broken link, which exists exactly if something was dropped and is entry 0 |
| AlertManagers.AlertManager.Evaluate | swarm/observability/alert_manager.py:180-229 | all rules in order; the alerts returned are those added; counts stay exact; `StatusStep` says what becomes of the others |
| AlertManagers.AlertManager.FireAlert | swarm/observability/alert_manager.py:247-279 | one more FIRING alert, in the history and active |
| AlertManagers.AlertManager.TryResolve | swarm/observability/alert_manager.py:281-292 | exactly the FIRING alerts of that rule are resolved and leave the active ones |
| AlertManagers.AlertManager.ResolveAlert | swarm/observability/alert_manager.py:294-306 | resolves an active alert; `firing_alerts` is the number of FIRING alerts |
| AlertManagers.AlertManager.SilenceAlert | swarm/observability/alert_manager.py:308-322 | silences an active alert; `firing_alerts` is the number of FIRING alerts |
| AlertRuns.RuleStepsProject | swarm/observability/alert_manager.py:184-227 | among rules with distinct ids, evaluating all does to one rule what evaluating it alone does |
| AlertRuns.AlertsAreFirings | swarm/observability/alert_manager.py:180-229 | in every run the alerts of a rule are the times it fires on its own |
| AlertRuns.StartOfStretch | swarm/observability/alert_manager.py:208-225 | the recorded start is the first evaluation of the stretch over which the condition has held |
| AlertRuns.FiresExactly | swarm/observability/alert_manager.py:192-221 | a rule fires exactly when the value compares with the threshold as its condition says, did so at every evaluation of its metric over a stretch of the duration, and the cooldown has passed |
| AlertRuns.AlertsApart | swarm/observability/alert_manager.py:200-221 | two alerts of a rule are at least its cooldown apart, and the first comes no earlier than the cooldown on the clock |
| AlertRuns.FiringMeansMet | swarm/observability/alert_manager.py:222-227 | an alert still FIRING was fired at a time since which every evaluation of its metric found the condition true |
| AlertStatus.StatusStep | swarm/observability/alert_manager.py:222-322 | what each operation does to each alert there is: evaluating resolves it exactly if it is FIRING and a rule of its id is found false; `resolve` and `silence` change it unless it is resolved; nothing else touches it |
| AlertStatus.FiringExactly | swarm/observability/alert_manager.py:180-322 | in every run an alert was added because its rule fired, keeps rule, value and time, and is FIRING exactly if every evaluation of that metric since found the condition true and nobody resolved or silenced it |
| AlertStatus.AddedSomewhere | swarm/observability/alert_manager.py:180-229 | every alert was added by one of the operations |

## Left out

- Model calls, webhooks, prompts and their text: a call succeeds or fails as a parameter says; a webhook changes nothing modelled.
- Files, JSON, locks and `OSError`: a file is its abstract content, replaced or appended atomically; history appends succeed; `clear` and the file lock's timeout are not modelled.
- Several processes on one queue directory: each would overwrite the file with its own memory, so one process is modelled.
- Two readings of the clock inside one locked step, and clocks that run back: one reading per step, in order.
- RateLimiterRuns.PrunedWindowIsRecent: assumes that readings come in the order of the locks, as if `acquire_ex` read the clock under its lock; it reads it just before; `PrunedWithSkew` does not.
- RateLimiterRuns.RpmDenialIsExact: assumes the same; `RpmDenialWithSkew` does not.
- RateLimiterRuns.RpmBound: assumes the same; `RpmBoundWithSkew` does not.
- RateLimiterRuns.DailyInvariant: assumes the same, and that `reset` is not called.
- RateLimiterRuns.DailyQuota: assumes the same, and that `reset` is not called.
- AdmissionRuns.DayBound: assumes the same, and that `reset` is not called.
- AdmissionRuns.NoneHalfOpen: assumes the same, and that `reset` is not called.
- Exceptions that are not `Exception` inside `execute`: the slot they would keep is not counted.
- Reading a `defaultdict` inserts its default; the model reads without inserting, which `stats` outputs could tell apart.
- Objects shared with callers: queue items and context entries are values here, so a caller changing a returned item is not modelled; alerts are shared between history and active alerts as in the source.
- Audit entries: principles, severities, descriptions and metadata are not modelled, because verification does not read them; `agent_reports` likewise.
- Context entries: tags, dependencies and metadata are payload that is stored and replaced, and are not modelled.
- `list_keys`, `list_entries`, `snapshot` and `export_context`: the first two change a set while iterating over it, which raises when an entry has expired.
- `TokenBucket.acquire` and `RateLimiter.aacquire`: they check and take in separate steps and may overdraw; the bound is about `try_acquire`.
- `on_retry` callbacks, `execute_with_callbacks`, statistics, `to_dict` and `to_mermaid`: no state that the properties speak of.
- Pipeline stages: the stage configuration is not modelled, because the sort reads only the name.
- Recovery steps: a step's metadata is not modelled; two steps that agree in all other fields count as equal for `remove`.
- Adding and removing alert rules while alerts are active: the rules are fixed.
- Python's recursion limit: `visit` (task_dag.py:53-67) calls itself once per stage of a chain, so a chain of about a thousand stages raises `RecursionError`; `get_execution_order` is modelled without that limit.
- Floating-point rounding: `float` is `real`.
- The agents, guards, classifiers, registries, metrics counters and snapshot archives of the repository: text matching, small tables and I/O.
