# SNP: scheduling, caching and hook management, proved

SNP runs pre-commit hooks. This project models the parts of it that have to be right for reasons
that are not visible in any single function: the dependency-graph algorithms that order hooks and
tasks, the phase-by-phase execution of hook chains, the two schedulers whose workers and submitters
interleave freely, the caches, ordered file locking, the installation of git hooks and the change
detector. Everything is stated for all inputs, all iteration orders of hash maps (chosen by `:|`),
all outcomes of hooks and conditions, and, where steps interleave, for all interleavings.

| file | what it models |
|---|---|
| `Graphs.dfy`, `DepthFirstSearch.dfy` | dependency relations, chains, cycles, topological orders; the theorems every graph algorithm here rests on; the argument of both cycle searches |
| `TaskDependencyGraph.dfy` | tentative edge insertion with rollback, depth-first cycle check, Kahn's algorithm |
| `HookExecution.dfy`, `ParallelExecution.dfy` | ordering the hooks of a run, running them one after the other or as a parallel batch, aggregating the results |
| `ChainGraph.dfy`, `ChainPlanner.dfy`, `ChainExecutor.dfy` | hook chains: graph, validation, levels; plans and critical paths; execution |
| `TaskResolver.dfy` | the task resolver: recursive cycle check and submission by peeling a mutable graph |
| `LockFreeScheduler.dfy`, `WorkStealing.dfy` | the two schedulers as interleaved atomic steps, and their operations as paths of such steps |
| `LruList.dfy`, `MultiTierCache.dfy`, `LockFreeCache.dfy` | the two caches, against a plain map and against a recency list |
| `PathNames.dfy`, `StableSorting.dfy`, `OrderedLocking.dfy` | path spellings and lock-file names, the lock hierarchy, multi-lock acquisition, and many processes locking at once |
| `HookInstaller.dfy` | installing and uninstalling git hooks over a directory seen as a map |
| `FileChangeDetector.dfy` | the bounded cache of file states and what a second run reports |

Code that updates fields in place is a class here; its methods are proved against functions and
predicates on values, and the lemmas are about those. A scheduler is a state, a set of atomic
actions with `Enabled` and `Apply`, and the theorem that every path of enabled actions keeps an
invariant; the class beside it performs its operations as such paths.

`dafny verify dfyconfig.toml` checks the whole project.

## What the proofs turned up

Where the code falls short of what one would expect, a lemma gives a concrete witness and another the
exact condition under which it does not.

- A hook that lists itself as a dependency passes chain validation. One such hook leaves the whole
  chain without levels: the run succeeds with nothing executed and nothing skipped
  (`ChainExecutors.ExecuteChain`, `ChainExecutors.SelfListerAloneRuns`). If it also depends on a hook
  without dependencies, planning never ends (`ChainExecutors.SelfListerOnRoot`); planning ends exactly
  when no self-listing hook does (`ChainPlanners.PlanningEndsIff`).
- In a sequential run a hook can be neither executed nor skipped. Two independent critical hooks under
  the default strategies are enough (`ChainExecutors.LostByDefault`). Which hooks a run loses is
  `ChainExecutors.LostIff`; the chains that lose none, in whatever order their levels list the hooks,
  are characterised by `ChainExecutors.NothingLostIff`.
- The pending counter of the lock-free scheduler reads zero while a task sits in a queue whose
  submission has not been counted yet, so a shutdown can return early; and it can stand below zero
  (`LockFreeSchedulers.ZeroPendingWhileQueued`, `LockFreeSchedulers.PendingWrapsBelowZero`). When it is
  below zero is `LockFreeSchedulers.BelowZeroIff`; when zero can be trusted is
  `LockFreeSchedulers.ZeroPendingMeaning`.
- Two submissions to the work-stealing scheduler under one id share a result channel, and one of them
  never hears of its result (`WorkStealing.SharedIdLosesChannel`); every submission keeps its channel
  exactly when no id is reused while a channel is registered under it (`WorkStealing.ChannelsExactIff`).
- A hook that times out in a parallel run is reported under the name "unknown", so the report accounts
  for every hook exactly when no other hook times out (`ParallelExecution.AccountedIff`).
- The task resolver remembers what it has completed. Dependencies are certain to go out first exactly when
  no task of the batch depends on one completed before (`TaskResolvers.OrderGuaranteedIff`); a batch that is
  handed in a second time may go out in any order (`TaskResolvers.SecondTimeAnyOrder`). With a filled cache
  of ready tasks the submission ends exactly when the cache lists the whole batch
  (`TaskResolvers.RoundsEndIff`), and the cache alone sets the order.
- The timestamp cache evicts an entry with the smallest timestamp; it is the least recently used one for
  every scan order exactly when that one has the smallest timestamp, alone
  (`LockFreeCaches.VictimIsLastIff`). Two entries stored in one millisecond, or with the clock set back in
  between, are enough for a wrong choice (`LockFreeCaches.TieChoosesWrongly`,
  `LockFreeCaches.SetBackChoosesWrongly`).
- The lock order prevents deadlock exactly when no two of the paths tie, no two have the same lock file, and
  no request repeats a path (`OrderedLocking.DeadlockFreeIff`). Paths without a level are ordered by the
  length of their spelling, and `FileLockManager` never gives a path a level, so two paths of equal length
  are enough for a deadlock (`OrderedLocking.TiesDeadlock`). So are `a` and `a.tmp`, whose lock file is the
  same (`OrderedLocking.StandInBlocksItself`), and two spellings of one path with a third path of a length
  between them, as `a/b`, `a///b` and `wxyz` (`OrderedLocking.TwoSpellings`).
- Installing and then uninstalling restores the hooks directory exactly under a condition on each listed
  type that depends on the flags; with the default flags: no `.legacy` file, and no hook that already
  carried the marker (`HookInstaller.RoundTripByName`; without a list, `HookInstaller.RoundTripByFinding`).
  An old `.legacy` file without a hook comes back as a hook (`HookInstaller.OldBackupComesBack`).
- The change detector holds up to `cache_size` + 1 entries, and a second run is silent up to exactly
  that many different files (`FileChangeDetectors.SecondRunIsQuiet`). Its content hash is never compared:
  "unchanged" can be trusted exactly for files whose content never changes without a change of time or
  size (`FileChangeDetectors.UnchangedIsRightIff`).

The multi-tier cache answers correctly because a stale copy in L2 is never younger than the entry of L1
that hides it (`MultiTierCaches.StaleIsOlder`, part of its invariant).

## Preconditions the code needs

- Entries of one chain with the same hook id are the same, and task ids of one batch are distinct: nodes
  are keyed by id. The validation of configurations rejects repeated hook ids (src/validation.rs:596-603).
- `ChainExecutors.ExecuteChain` promises nothing for the chains whose planning never ends; they are
  exactly those its third precondition excludes (`ChainExecutors.ExecutionEndsIff`).
- `TaskResolvers.DependencyResolver.ResolveAndSubmit` promises nothing for a filled cache that does not list
  the whole batch: those are the calls that never return (`TaskResolvers.RoundsEndIff`).
- The second tier has a capacity of at least one, as its LRU structure demands.

## Model

| member | source | states |
|---|---|---|
| `Graphs.StuckHasCycle` | src/concurrency.rs:331-340 | a nonempty set in which everything depends on something in the set contains a cycle; this is why a scheduler that finds nothing ready may report one |
| `Graphs.OrderMakesAcyclic` | src/concurrency.rs:366-401 | a list that puts dependencies first and mentions everything that has any rules out cycles |
| `Graphs.CyclicIffSelfReaching` | src/hook_chaining.rs:436-468 | a graph is acyclic exactly when nothing reaches itself; connects cycles to strongly connected components |
| `TaskDependencyGraphs.RepeatedDependencyIsHarmless` | src/concurrency.rs:249-262 | adding an edge that is already there cannot create a cycle |
| `TaskDependencyGraphs.RollbackRestores` | src/concurrency.rs:249-264 | removing all entries equal to a rejected one gives back the edge map exactly, because a rejected edge was not there before |
| `TaskDependencyGraphs.TaskDependencyGraph.AddTask` | src/concurrency.rs:214-217 | the graph stays well-formed and acyclic |
| `TaskDependencyGraphs.TaskDependencyGraph.AddDependency` | src/concurrency.rs:219-268 | succeeds exactly when both tasks are known and no cycle arises; each error case; on error the edge map is unchanged; acyclicity is kept in every run |
| `TaskDependencyGraphs.DryQueue` | src/concurrency.rs:331-343 | when Kahn's queue runs dry, everything is out if and only if the graph is acyclic |
| `TaskDependencyGraphs.PendingAfter` | src/concurrency.rs:316-328 | processing a task settles each of its occurrences in a dependency list, duplicates included |
| `TaskDependencyGraphs.DegreePositive` | src/concurrency.rs:320-321 | an in-degree about to be decremented is positive: no underflow |
| `TaskDependencyGraphs.KahnDecrement` | src/concurrency.rs:318-327 | one decrement keeps the degree and queue invariant, for every order and with duplicate edges |
| `TaskDependencyGraphs.TaskDependencyGraph.BuildTables` | src/concurrency.rs:272-301 | in-degrees count list entries and the adjacency is the reversed multigraph; fails exactly on a dependency that is no task |
| `TaskDependencyGraphs.TaskDependencyGraph.ResolveExecutionOrder` | src/concurrency.rs:270-343 | Ok exactly when every dependency is a task and there is no cycle; then a permutation of the tasks, dependencies first; a graph built by the two insertions always resolves |
| `DepthFirstSearch.BackEdgeClosesCycle` | src/concurrency.rs:383-394 | a dependency found on the recursion stack closes a cycle |
| `TaskDependencyGraphs.TaskDependencyGraph.DfsCycleCheck` | src/concurrency.rs:366-401 | fails only if there is a cycle; otherwise the stack is restored and everything visited is listed dependencies first |
| `TaskDependencyGraphs.TaskDependencyGraph.DetectCycles` | src/concurrency.rs:345-363 | succeeds if and only if the graph is acyclic |
| `HookExecution.DepMapMeaning` | src/execution.rs:777-782 | the relation built from a hook list holds exactly between a hook and the entries of any hook with its id |
| `HookExecution.LookupIsPermutation` | src/execution.rs:788-796 | looking the ordered ids up returns a permutation of the hooks if and only if ids are distinct |
| `HookExecution.ResolveHookDependencies` | src/execution.rs:759-799 | Ok exactly when every listed dependency is a hook and no cycle exists; then dependencies first, and a permutation exactly when ids are distinct or nobody depends on anything; of a repeated id the first hook runs |
| `HookExecution.EveryHookHasOneFate` | src/execution.rs:1109-1173 | counting what met each fate gives each hook exactly as often as it was in the run |
| `HookExecution.FailFastStops` | src/execution.rs:1112-1116 | under fail-fast at most one hook fails and all later ones are skipped |
| `HookExecution.AccountIff` | src/execution.rs:1109-1173 | the account of a run in terms of what the hooks did: a hook fails exactly if it ran unsuccessfully or the engine erred, and is skipped exactly for one of the three reasons |
| `HookExecution.WithFateSelects` | src/execution.rs:1087-1173 | a result list holds exactly the results of the positions with that fate, in order |
| `HookExecution.FatesUnique` | src/execution.rs:1109-1173 | what becomes of each hook is determined by the outcomes |
| `HookExecution.ExecutionResult.AddResult` | src/execution.rs:216-233 | executed = passed + failed, success iff none failed, modified files are the duplicate-free union of all results: kept by every call |
| `HookExecution.ExecutionResult.CollectFiles` | src/execution.rs:220-225 | the file list stays duplicate-free, keeps its order and gains exactly the missing files |
| `HookExecution.ExecutionResult.AddSkipped` | src/execution.rs:235-237 | the counts stay as they are |
| `HookExecution.ExecuteHooksSequential` | src/execution.rs:1087-1173 | the three result lists are exactly the hooks with each fate, in order, and together every hook once |
| `ParallelExecution.ExecuteHooksParallel` | src/execution.rs:1021-1065 | the three lists in hook order, broken tasks after the failed ones; success exactly when nothing failed or broke off |
| `ParallelExecution.AccountedIff` | src/concurrency.rs:658-681 | every hook is accounted for under its own name exactly when only hooks of that very name time out |
| `ParallelExecution.ExecuteHooks` | src/execution.rs:720-757 | every batch: not run exactly when it cannot be scheduled; one after the other exactly under fail-fast, with a dependency, with a hook that may not run beside others, with at most one hook or one slot, otherwise all at once; what became of each hook in either case; under fail-fast nothing but skips after a failure |
| `ParallelExecution.ListedMeaning` | src/execution.rs:1021-1065 | a complete report of a parallel run: passed in hook order, failed followed by what broke off, and the skipped |
| `ChainGraphs.BuildGraph` | src/hook_chaining.rs:384-434 | for every list of hooks: a node has the data of the last hook with its id, edges and dependents come from the lists of all; levels exist exactly when all dependencies are known and not circular |
| `ChainGraphs.MirrorsIff` | src/hook_chaining.rs:389-418 | edges and dependents mirror the nodes' dependencies exactly when no hook lists a known one that the last hook with its id leaves out; so with distinct ids |
| `ChainGraphs.SearchGraphReverses` | src/hook_chaining.rs:436-455 | the graph searched for cycles is built from the edges and runs exactly against the dependencies |
| `ChainGraphs.DetectCycles` | src/hook_chaining.rs:436-468 | builds that graph and reports its components with more than one member; none exactly when no two hooks depend on each other |
| `ChainGraphs.FindMissing` | src/hook_chaining.rs:471-484 | finds a dependency that is no hook exactly when there is one |
| `ChainGraphs.ValidateDependencies` | src/hook_chaining.rs:470-500 | accepts exactly the graphs whose dependencies are known and in which no two distinct hooks depend on each other; the reported cycle is the first component with more than one member |
| `ChainGraphs.AcyclicIffNoMutualNoSelf` | src/hook_chaining.rs:457-465 | acyclic means no two hooks depend on each other and no hook lists itself |
| `ChainGraphs.ValidatedLevels` | src/hook_chaining.rs:470-557 | for a validated chain the levels cover every hook if and only if no hook lists itself |
| `ChainGraphs.SelfDependencyPassesValidation` | src/hook_chaining.rs:461-464 | a graph that is accepted and has no levels; what then happens to the chain is stated by `SelfListerAloneRuns` |
| `ChainGraphs.DependencyGraph.ReadyNodes` | src/hook_chaining.rs:508-524 | the next level is every unplaced node whose dependencies are placed, each once |
| `ChainGraphs.DependencyGraph.PeelNext` | src/hook_chaining.rs:508-552 | a level keeps the partition; an empty one means the rest is circular or depends on something unknown |
| `ChainGraphs.DependencyGraph.CalculateExecutionLevels` | src/hook_chaining.rs:502-557 | terminates; succeeds exactly when all dependencies are known and not circular; then the levels partition the nodes and only levels changed |
| `ChainGraphs.LevelIsLongestChain` | src/hook_chaining.rs:516-552 | a node's level is the length of the longest chain of dependencies below it |
| `ChainGraphs.LevelsUnique` | src/hook_chaining.rs:502-557 | levels do not depend on the order nodes are looked at |
| `ChainPlanners.TraceLongestPath` | src/hook_chaining.rs:714-748 | ends wherever following the dependents ends, with or without levels, and returns a chain of dependents from the hook that no other such chain outlasts; of equally long ones it follows the dependent listed first |
| `ChainPlanners.PlanningEndsIff` | src/hook_chaining.rs:682-748 | for an accepted chain the search for the critical path ends exactly when no self-listing hook depends, directly or not, on a hook without dependencies |
| `ChainPlanners.RecursionDepth` | src/hook_chaining.rs:714-748 | in a leveled graph the recursion nests exactly as deep as there are levels |
| `ChainPlanners.ExtendToRoot` | src/hook_chaining.rs:692-703 | looking only at hooks without dependencies loses no longest chain |
| `ChainPlanners.FindCriticalPath` | src/hook_chaining.rs:682-711 | a chain of dependents that no chain from a hook without dependencies outlasts |
| `ChainPlanners.CreatePlan` | src/hook_chaining.rs:572-680 | one phase per level, and on leveled graphs a critical path of maximum duration in the whole graph; what modes, estimates and parallelism mean is stated by the next five rows |
| `ChainPlanners.SequentialEstimate` | src/hook_chaining.rs:617-628 | under the sequential strategy the estimate is the sum of all hooks' durations, each once |
| `ChainPlanners.PhaseEstimate` | src/hook_chaining.rs:610-626 | a phase in parallel mode is estimated at a duration that one of its hooks has and none exceeds, one in sequential mode at the sum of its hooks' |
| `ChainPlanners.EstimateIsSum` | src/hook_chaining.rs:628-628 | under every strategy the estimate is the sum of the phases' |
| `ChainPlanners.PhaseModes` | src/hook_chaining.rs:582-607 | which phases run sequentially, and how many hooks at a time the others run, for each strategy |
| `ChainPlanners.MaxParallelismMeaning` | src/hook_chaining.rs:646-666 | one if sequential; otherwise what the widest phase has, but at least two |
| `ChainPlanners.EstimateBoundsEveryChain` | src/hook_chaining.rs:610-628 | for any durations and every strategy no chain of dependents takes longer than the estimate |
| `ChainPlanners.UniformPlan` | src/hook_chaining.rs:396-396 | with equal durations the critical path has one hook per level, and a non-sequential plan's estimate equals its duration |
| `ChainExecutors.TransitiveDependenciesRanEarlier` | src/hook_chaining.rs:977-983 | whatever a hook that ran depends on, directly or not, ran earlier and succeeded |
| `ChainExecutors.SequentialPhaseComplete` | src/hook_chaining.rs:1011-1056 | a sequential phase runs all it could exactly when at most its last hook breaks it |
| `ChainExecutors.ChainRun.RunHook` | src/hook_chaining.rs:1013-1054 | the executed and failed sets and `success` stay what the executed list says |
| `ChainExecutors.ChainRun.SelectExecutable` | src/hook_chaining.rs:974-1007 | splits a phase into the hooks that can run and the skipped ones, and adds a record for exactly those with a dependency that did not run or failed |
| `ChainExecutors.FailedAmongMeaning` | src/hook_chaining.rs:997-1003 | a record lists every dependency that ran and failed as often as it is listed, in order, and nothing else |
| `ChainExecutors.FailuresComplete` | src/hook_chaining.rs:993-1173 | the records of a finished run: exactly the skipped hooks with a dependency that did not run or failed, after a fail-fast stop with one that ran and failed; what each record lists |
| `ChainExecutors.ChainRun.RunPhase` | src/hook_chaining.rs:1009-1143 | runs the selected hooks in order; in sequential mode up to the first that breaks the phase |
| `ChainExecutors.PhaseSettles` | src/hook_chaining.rs:964-1146 | after a phase every hook of the level has run, is skipped, or stood behind one that broke the phase |
| `ChainExecutors.SettledStays` | src/hook_chaining.rs:964-1146 | later phases cannot change the account of an earlier hook |
| `ChainExecutors.ChainRun.ExecutePhase` | src/hook_chaining.rs:964-1146 | one phase turns the run into what the reference run has after that phase, and keeps the failure records exact |
| `ChainExecutors.ChainRun.SkipRemaining` | src/hook_chaining.rs:1148-1173 | after a fail-fast stop exactly the hooks of the remaining phases are skipped, with their failed dependencies recorded |
| `ChainExecutors.ChainRun.ExecutePlan` | src/hook_chaining.rs:963-1174 | the loop over the phases produces exactly the reference run |
| `ChainExecutors.PlayedIsFinal` | src/hook_chaining.rs:963-1174 | every run ends safe and settled: nothing runs twice or is both run and skipped, dependencies succeeded before, a fail-fast stop comes right after the first failing level |
| `ChainExecutors.PlanChain` | src/hook_chaining.rs:936-946 | valid exactly for chains with known dependencies and no two hooks that depend on each other; a plan for all their hooks, or without phases if a hook lists itself |
| `ChainExecutors.ExecuteChain` | src/hook_chaining.rs:935-1179 | rejects exactly what validation rejects; otherwise runs as the reference run says if no hook lists itself, with a complete record of failed dependencies, and succeeds with nothing executed, skipped or recorded if one does |
| `ChainExecutors.ExecutionEndsIff` | src/hook_chaining.rs:682-748 | the chains it promises nothing for are exactly those whose planning never ends |
| `ChainExecutors.SelfListerAloneRuns` | src/hook_chaining.rs:935-1179 | a run of a chain whose one hook lists itself: nothing executed, nothing skipped, success |
| `ChainExecutors.SelfListerOnRoot` | src/hook_chaining.rs:714-748 | an accepted chain of two hooks whose planning never ends |
| `ChainExecutors.RunOrSkipped` | src/hook_chaining.rs:1148-1173 | no hook is both; with a non-sequential strategy every hook is executed or skipped, fail-fast stops included |
| `ChainExecutors.LostIff` | src/hook_chaining.rs:1011-1056 | a sequential run leaves a hook neither executed nor skipped exactly when it could run and a failing hook of its level ended the phase before its turn |
| `ChainExecutors.NothingLostIff` | src/hook_chaining.rs:1011-1056 | all orders of the levels account for all hooks exactly when no reached level holds a phase-ending hook that can run beside another that can |
| `ChainExecutors.LostByDefault` | src/hook_chaining.rs:1045-1055 | a run with the default strategies and two independent critical hooks in which the second is neither executed nor skipped |
| `ChainExecutors.ExecutedSetMeaning` | src/hook_chaining.rs:976-1007 | without fail-fast and sequential phases the executed hooks are those whose conditions hold and whose dependencies executed and succeeded, recursively |
| `ChainExecutors.ExecutedSetUnique` | src/hook_chaining.rs:976-1007 | that recursive description has one solution |
| `ChainExecutors.OrderDoesNotMatter` | src/hook_chaining.rs:1057-1103 | two such runs of one chain, with any orders and any of these strategies, execute, skip and fail the same hooks |
| `TaskResolvers.KnownCycles` | src/lock_free_scheduler.rs:1257-1266 | passing over unknown dependencies hides no cycle |
| `TaskResolvers.HasCycle` | src/lock_free_scheduler.rs:1244-1275 | finds a cycle only if there is one; otherwise restores the stack and finishes everything it visited |
| `TaskResolvers.DetectCircularDependencies` | src/lock_free_scheduler.rs:1225-1242 | errs exactly on a cycle, self-loops included |
| `TaskResolvers.DependencyResolver.BuildDependencyGraph` | src/lock_free_scheduler.rs:999-1039 | the graph is the batch's dependency relation; errs exactly on an unknown dependency and names it |
| `TaskResolvers.DependencyResolver.GetReadyTasks` | src/lock_free_scheduler.rs:1042-1069 | the filled cache, or each uncompleted node without incoming edges, once |
| `TaskResolvers.NoneReady` | src/lock_free_scheduler.rs:1127-1131 | if nothing is ready while tasks are left, there is a cycle |
| `TaskResolvers.SubmitStep` | src/lock_free_scheduler.rs:1085-1092 | removing a submitted node and its edges keeps graph, map and output consistent; dependencies stay first if the task was ready |
| `TaskResolvers.DependencyResolver.SubmitAnyway` | src/lock_free_scheduler.rs:1129-1137 | the fallback submits what is left, each once |
| `TaskResolvers.DependencyResolver.SubmitInOrder` | src/lock_free_scheduler.rs:1118-1147 | terminates; every task once whatever the graph; the loop takes tasks dependencies first until it stalls, the fallback the rest; a filled cache sets the order |
| `TaskResolvers.StalledMeaning` | src/lock_free_scheduler.rs:1121-1145 | without cycles the loop takes exactly the tasks that neither are completed nor depend, directly or not, on one that is |
| `TaskResolvers.FallbackIff` | src/lock_free_scheduler.rs:1127-1136 | the fallback is taken exactly when there is a cycle or a task of the batch was completed before |
| `TaskResolvers.OrderGuaranteedIff` | src/lock_free_scheduler.rs:1054-1065 | every order a batch may go out in puts dependencies first exactly when no task depends on one completed before |
| `TaskResolvers.SecondTimeAnyOrder` | src/lock_free_scheduler.rs:1061-1063 | a batch that was completed before may go out in any order |
| `TaskResolvers.RoundsEndIff` | src/lock_free_scheduler.rs:1045-1048 | taking the same cache round after round ends exactly when it lists the whole batch |
| `TaskResolvers.DependencyResolver.ResolveAndSubmit` | src/lock_free_scheduler.rs:1106-1154 | errs exactly on a cycle or an unknown dependency; otherwise every task once, in a possible order, dependencies first if no task depends on one completed before; with a filled cache in the order of the cache; what is marked completed |
| `LockFreeSchedulers.StepKeepsLocated` | src/lock_free_scheduler.rs:242-332 | every atomic step leaves each token in exactly the one queue its place names, or in none |
| `LockFreeSchedulers.StepKeepsPending` | src/lock_free_scheduler.rs:274-337 | the pending counter follows the submissions counted minus the tasks marked, with wrap-around |
| `LockFreeSchedulers.StepKeepsCompleted` | src/lock_free_scheduler.rs:335-341 | the completed counter counts the tasks marked completed, until a reset |
| `LockFreeSchedulers.StepKeepsFailed` | src/lock_free_scheduler.rs:344-348 | the failed counter counts the tasks marked failed, until a reset |
| `LockFreeSchedulers.RunKeepsInv` | src/lock_free_scheduler.rs:242-348 | places and counters are right after every interleaving |
| `LockFreeSchedulers.PendingIsConserved` | src/lock_free_scheduler.rs:242-348 | modulo word width, pending = queued + taken but unmarked - what circulates uncounted (pushed but not counted, or marked without being held), in every interleaving |
| `LockFreeSchedulers.ResetIff` | src/lock_free_scheduler.rs:404-410 | the statistics are those of the whole run exactly if it does not reset them |
| `LockFreeSchedulers.CountsWithoutReset` | src/lock_free_scheduler.rs:404-410 | in every interleaving without a reset, submitted, completed and failed count what they say |
| `LockFreeSchedulers.LockFreeTaskScheduler.ResetStats` | src/lock_free_scheduler.rs:404-410 | the statistics start afresh, what is pending stays |
| `LockFreeSchedulers.QuiescentConservation` | src/lock_free_scheduler.rs:242-348 | between operations and without reset, submitted = pending + completed + failed, stray marks included; without them pending is zero exactly when every task is finished |
| `LockFreeSchedulers.ZeroPendingMeaning` | src/lock_free_scheduler.rs:413-434 | at any moment at which pending is zero, everything is finished exactly when nothing is pushed but uncounted, in hand or being marked, and nothing was marked astray |
| `LockFreeSchedulers.BelowZeroIff` | src/lock_free_scheduler.rs:335-348 | at any moment the counter stands below zero exactly when more circulates uncounted than is queued or taken |
| `LockFreeSchedulers.Shutdown` | src/lock_free_scheduler.rs:413-434 | succeeds at the first zero it reads within its time; what that says about the tasks |
| `LockFreeSchedulers.ZeroPendingWhileQueued` | src/lock_free_scheduler.rs:265-275 | a run in which pending is zero while a task is queued |
| `LockFreeSchedulers.PendingWrapsBelowZero` | src/lock_free_scheduler.rs:335-337 | a run in which pending wraps below zero |
| `LockFreeSchedulers.RunAges` | src/lock_free_scheduler.rs:300-348 | no task is lost: tokens never vanish and never move back |
| `LockFreeSchedulers.HandedOutOnce` | src/lock_free_scheduler.rs:300-332 | a task handed to a worker is never handed out again, in any continuation |
| `LockFreeSchedulers.FirstInFirstOut` | src/lock_free_scheduler.rs:300-332 | of two tasks of one local queue the later one never leaves it first, in any interleaving |
| `LockFreeSchedulers.LockFreeTaskScheduler.SubmitTask` | src/lock_free_scheduler.rs:242-279 | a path of atomic steps; the task lands in the chosen local queue, or in the shared one exactly when that is full |
| `LockFreeSchedulers.LockFreeTaskScheduler.StealTask` | src/lock_free_scheduler.rs:300-332 | the front of its own queue, else of the first other one that has something, else of the shared one; empty-handed exactly when all are empty; the exact new state |
| `LockFreeSchedulers.LockFreeTaskScheduler.MarkTask` | src/lock_free_scheduler.rs:335-348 | whatever task is named: the pending counter and one result counter change, and only a held task changes its place |
| `WorkStealing.SubmissionsPerWorker` | src/lock_free_scheduler.rs:640-645 | of any number of rounds of three submissions per worker every worker gets two a round, the first one another third of all |
| `WorkStealing.StepKeepsLocated` | src/lock_free_scheduler.rs:628-762 | each atomic step keeps every task in the queue its place names |
| `WorkStealing.StepKeepsChannels` | src/lock_free_scheduler.rs:628-632 | a registered channel belongs to the unfinished submission registered last under its id |
| `WorkStealing.ChannelsKeptIff` | src/lock_free_scheduler.rs:628-632 | a step costs some submission its channel exactly when it registers an id under which a channel is registered |
| `WorkStealing.ChannelsExactIff` | src/lock_free_scheduler.rs:628-707 | in a run, channels are registered for exactly the unfinished submissions at every moment if and only if no id in use is registered again |
| `WorkStealing.SharedIdLosesChannel` | src/lock_free_scheduler.rs:628-632 | two submissions under one id, the first of which has no channel any more |
| `WorkStealing.StepKeepsWorkers` | src/lock_free_scheduler.rs:683-708 | a worker runs the task that is executing in it and no other |
| `WorkStealing.StepKeepsActive` | src/lock_free_scheduler.rs:584-626 | the active counter is the number of started loops that have not exited; it never underflows |
| `WorkStealing.RunKeepsInv` | src/lock_free_scheduler.rs:628-762 | all of it after every interleaving |
| `WorkStealing.EveryTaskInOnePlace` | src/lock_free_scheduler.rs:628-762 | in every interleaving, ids repeating or not, a submission is in one queue, in one worker, finished or on its way to a queue, and nowhere else |
| `WorkStealing.ExecutedOnce` | src/lock_free_scheduler.rs:673-709 | no task is taken for execution twice, in any continuation |
| `WorkStealing.ActiveCounterMeaning` | src/lock_free_scheduler.rs:949-971 | after start the counter is zero exactly when all loops have exited |
| `WorkStealing.NothingTakenAfterZero` | src/lock_free_scheduler.rs:949-971 | from then on no task is taken, and no unfinished task ever finishes |
| `WorkStealing.RotationVisitsOthersOnce` | src/lock_free_scheduler.rs:745-759 | the rotated loop looks at every other worker exactly once; its last turn is the worker itself |
| `WorkStealing.SearchCoversAll` | src/lock_free_scheduler.rs:726-762 | an unsuccessful search without spurious failures means all queues were empty |
| `WorkStealing.FirstInFirstOut` | src/lock_free_scheduler.rs:734-755 | of two tasks of one worker's queue the later one never leaves it first, in any interleaving |
| `WorkStealing.MissPath` | src/lock_free_scheduler.rs:745-761 | trying positions in vain is a path of steps that change nothing but the worker's position |
| `WorkStealing.FoundPath` | src/lock_free_scheduler.rs:734-754 | misses and a final take lead to a state in which the worker runs the front task of that source |
| `WorkStealing.WorkStealingScheduler.SubmitTask` | src/lock_free_scheduler.rs:628-659 | a path of steps for any id; the task goes to the end of the chosen worker's queue, or of the shared one without load balancing; the channel exists before the task can be seen; channels stay exact exactly when the id had none |
| `WorkStealing.WorkStealingScheduler.FindTask` | src/lock_free_scheduler.rs:726-762 | the front of the own queue if that yields, else of the shared one, else of the nearest other worker's, going upwards and round, that yields; otherwise nothing changes; attempts are counted on other workers' queues only |
| `WorkStealing.WorkStealingScheduler.WorkerTurn` | src/lock_free_scheduler.rs:673-723 | one turn of the loop: leaves exactly on shutdown, otherwise runs the task a search finds, if any, and drops its channel |
| `WorkStealing.WorkStealingScheduler.Start` | src/lock_free_scheduler.rs:583-625 | all loops begin and are counted; starting again changes nothing |
| `LruLists.PushKeeps` | src/cache.rs:521-547 | the LRU stays within its capacity and duplicate-free |
| `LruLists.RoomForAll` | src/cache.rs:521-547 | nothing is displaced while the capacity covers all keys ever put |
| `MultiTierCaches.DemoteKeeps` | src/cache.rs:521-547 | moving an entry down keeps freshness, staleness order and completeness, whatever it displaces |
| `MultiTierCaches.StoreKeeps` | src/cache.rs:476-495 | storing a current entry in L1 over an older copy in L2 keeps the invariant |
| `MultiTierCaches.PutKeeps` | src/cache.rs:276-293 | a put makes its value the only one a lookup can see |
| `MultiTierCaches.AgeKeeps` | src/cache.rs:394-434 | ageing out by creation time cannot bring a stale copy back |
| `MultiTierCaches.MultiTierCache.Get` | src/cache.rs:205-273 | nothing or the latest value since invalidation or clear; exactly the plain map while at most `l2MaxEntries` keys were put and none aged out; the new tiers; the key becomes the one of L1 used last; hits and misses add up |
| `MultiTierCaches.MultiTierCache.PromoteToL1` | src/cache.rs:476-495 | the entry moves up; only a least recently used entry moves down for it; capacities hold |
| `MultiTierCaches.MultiTierCache.MakeRoomInL1` | src/cache.rs:276-290 | below capacity nothing happens, at it one least recently used entry is demoted |
| `MultiTierCaches.MultiTierCache.FindLruInL1` | src/cache.rs:549-572 | an entry whose last access is minimal, none exactly when L1 is empty |
| `MultiTierCaches.MultiTierCache.Demote` | src/cache.rs:521-547 | L1 loses the key, L2 gains it in front; a displaced or replaced entry of L2 is counted |
| `MultiTierCaches.MultiTierCache.Put` | src/cache.rs:276-293 | the value is the latest; the exact new contents of both tiers; while the clock moves on, L1 is exactly a list in order of use that loses its end at capacity |
| `MultiTierCaches.UseNow` | src/cache.rs:74-77 | a key that is got or put is the one used last, and timestamps keep telling the order of use |
| `MultiTierCaches.VictimIsEnd` | src/cache.rs:549-572 | what is demoted has the timestamp of the end of that list, and is the end if timestamps differ |
| `MultiTierCaches.JustUsedStays` | src/cache.rs:549-572 | what was got or put last is not demoted while anything else is in L1 |
| `MultiTierCaches.MultiTierCache.Invalidate` | src/cache.rs:296-315 | the key is gone from both tiers and from the plain map |
| `MultiTierCaches.MultiTierCache.Clear` | src/cache.rs:318-342 | everything is gone and counting starts afresh |
| `MultiTierCaches.MultiTierCache.MoveToL2` | src/cache.rs:461-466 | a key of L1 is demoted, any other call changes nothing |
| `MultiTierCaches.MultiTierCache.EvictOlderThan` | src/cache.rs:394-434 | each tier keeps exactly its entries from the cutoff on, L2 in the same order |
| `LockFreeCaches.FrontInOrder` | src/lock_free_cache.rs:77-105 | an entry stamped no earlier than any other belongs at the front: timestamps keep telling the order of use |
| `LockFreeCaches.VictimIsLastIff` | src/lock_free_cache.rs:164-176 | for every scan order the victim has the smallest timestamp; it is the end of the list for all of them exactly when the end has the smallest timestamp, alone |
| `LockFreeCaches.EndIsOldest` | src/lock_free_cache.rs:164-176 | while the timestamps tell the order of use, the end of the list has the smallest one |
| `LockFreeCaches.StorePair` | src/lock_free_cache.rs:90-105 | two insertions give a cache with any two timestamps |
| `LockFreeCaches.TieChoosesWrongly` | src/lock_free_cache.rs:164-176 | after two insertions in one millisecond one scan evicts the entry used last |
| `LockFreeCaches.SetBackChoosesWrongly` | src/lock_free_cache.rs:164-176 | with the clock set back in between, every scan does |
| `LockFreeCaches.PopAllSurvivors` | src/lock_free_cache.rs:234-262 | removing exactly the expired keys, in whatever order collected, leaves the others in order |
| `LockFreeCaches.LockFreeCache.Get` | src/lock_free_cache.rs:77-87 | with any clock: a hit moves the key to the front of the list, a miss changes nothing; map and list agree; timestamps keep telling the order of use unless the clock was set back |
| `LockFreeCaches.LockFreeCache.Insert` | src/lock_free_cache.rs:90-105 | with any clock: the whole new contents; the size bound and size = inserts - evictions - removes hold; a new key at capacity costs an entry with the smallest timestamp, and this is the push of the reference list exactly if that was the end of the list |
| `LockFreeCaches.LockFreeCache.FindOldest` | src/lock_free_cache.rs:164-176 | some scan of all entries with a running minimum |
| `LockFreeCaches.LockFreeCache.EvictLru` | src/lock_free_cache.rs:164-183 | an oldest entry goes and is counted; the end of the list if it is the oldest, alone |
| `LockFreeCaches.LockFreeCache.Remove` | src/lock_free_cache.rs:108-110 | the key leaves the list, the others keep their order |
| `LockFreeCaches.LockFreeCache.CollectExpired` | src/lock_free_cache.rs:244-255 | exactly the keys created before the cutoff |
| `LockFreeCaches.LockFreeCache.EvictExpired` | src/lock_free_cache.rs:234-262 | exactly the entries created before the cutoff go; evictions grow by as many as the size shrinks |
| `LockFreeCaches.LockFreeCache.Clear` | src/lock_free_cache.rs:128-130 | the list is empty |
| `LockFreeCaches.LockFreeCache.ResetStats` | src/lock_free_cache.rs:156-161 | counters are zero, contents untouched |
| `StableSorting.SortIsStable` | src/file_lock.rs:544-551 | sorted, a permutation, and equal keys keep their order |
| `StableSorting.StableSortIsUnique` | src/file_lock.rs:544-551 | those properties determine the result |
| `StableSorting.SortKeepsNoDup` | src/file_lock.rs:544-551 | sorting repeats exactly what was repeated |
| `PathNames.NameIsLast` | src/file_lock.rs:407-410 | the name that the extension is taken from is the last component of the path |
| `PathNames.LockFileName` | src/file_lock.rs:407-410 | the lock file lies beside the path, named after it with `.lock`, or `.tmp.lock` if it has no extension |
| `PathNames.SameLockFileIff` | src/file_lock.rs:407-410 | for all spellings: two paths have one lock file exactly if they have the same components or one is the other, without extension, plus `.tmp` |
| `OrderedLocking.LockHierarchy.AddPath` | src/file_lock.rs:510-516 | the ordering stays sorted by current levels and lists exactly the levelled paths, different spellings being one path |
| `OrderedLocking.LockHierarchy.ValidateOrder` | src/file_lock.rs:522-542 | passes exactly when listed levels never go down; otherwise names the first descent and the listed path before it |
| `OrderedLocking.LockHierarchy.SortByHierarchy` | src/file_lock.rs:544-551 | the slice becomes its stable sort in place, and passes validation |
| `OrderedLocking.SortKeyMeaning` | src/file_lock.rs:544-551 | a path is sorted by its level, or else by the length of its spelling as a 32-bit number |
| `OrderedLocking.SortedPassesCheck` | src/file_lock.rs:522-551 | sorted lists pass validation whatever unlisted paths lie between |
| `OrderedLocking.FileLockManager.AcquireMultipleOrdered` | src/file_lock.rs:263-288 | all or nothing: every path in hierarchy order, or, at the first refusal, the held locks and the active count as before; what roll-back forgets |
| `OrderedLocking.FileLockManager.RollBack` | src/file_lock.rs:277-281 | gives back exactly what the call had taken |
| `OrderedLocking.LocksAreExclusive` | src/file_lock.rs:263-288 | in every interleaving, time-outs included, no lock file is held twice |
| `OrderedLocking.OrderPreventsDeadlock` | src/file_lock.rs:268-287 | processes that take lock files in strictly increasing key order never form a group waiting on itself |
| `OrderedLocking.SomebodyMoves` | src/file_lock.rs:269-287 | unless all are finished, somebody can acquire or release without a time-out |
| `OrderedLocking.RunsAreShort` | src/file_lock.rs:269-287 | every run ends: at most two steps for each lock requested |
| `OrderedLocking.OrderedLockingIsLive` | src/file_lock.rs:263-288 | without ties, repetitions and shared lock files: no deadlock at any moment, and a run without time-outs that cannot go on has served everybody |
| `OrderedLocking.TiesDeadlock` | src/file_lock.rs:544-551 | two tied paths requested in opposite orders deadlock |
| `OrderedLocking.AloneIffNoRepeats` | src/file_lock.rs:263-288 | one process alone is never in its own way, in any run, exactly when no two entries of its request have one lock file |
| `OrderedLocking.DeadlockFreeIff` | src/file_lock.rs:263-288 | all systems of processes with requests from a set of paths are deadlock-free in all runs if and only if no two of the paths tie, no two have the same lock file and, unless there are none, no request may repeat one; whatever files the lock names stand for |
| `OrderedLocking.LockFilesApartIff` | src/file_lock.rs:407-410 | where names of one file differ in spelling only, the lock files are apart exactly when no two paths have the same components and none is another one plus `.tmp` |
| `OrderedLocking.StandInBlocksItself` | src/file_lock.rs:407-410 | a request for a path and its stand-in deadlocks without a tie or a repetition |
| `OrderedLocking.SpellingsCross` | src/file_lock.rs:544-551 | two paths with one lock file and a third of a length between: two processes cross, without a tie and without a request that has one lock file twice |
| `OrderedLocking.TwoSpellings` | src/file_lock.rs:544-551 | two spellings of one path are such paths |
| `HookInstaller.ParseInvertsAsStr` | src/install.rs:27-57 | a name parses to a type exactly when it is the type's name |
| `HookInstaller.NamesApart` | src/install.rs:748-751 | hook names and backup names never collide |
| `HookInstaller.ScriptCarriesMarker` | src/install.rs:761-800 | every generated script is recognised as one of SNP's |
| `HookInstaller.InstallSlotTwice` | src/install.rs:385-393 | a hook just installed is found installed, whatever the flags |
| `HookInstaller.InstalledSlots` | src/install.rs:237-259 | order and repetition of the list do not matter; every other file stays |
| `HookInstaller.InstallIsIdempotent` | src/install.rs:237-259 | a second installation changes no file |
| `HookInstaller.SecondInstallReportsNothing` | src/install.rs:237-264 | and reports nothing installed |
| `HookInstaller.ReportMeaning` | src/install.rs:240-259 | installed, backed up, overwritten and failed name exactly the listed types the original directory calls for |
| `HookInstaller.UninstallReportMeaning` | src/install.rs:288-320 | removed names exactly the listed types whose hook was SNP's, restored those that had a backup too |
| `HookInstaller.RoundTripByName` | src/install.rs:288-307 | install then uninstall is the identity exactly when each listed type is restorable under the flags used; every combination of flags, duplicates allowed |
| `HookInstaller.FindInstalledMeaning` | src/install.rs:544-555 | finds exactly SNP's hooks, and fails exactly when some hook cannot be read |
| `HookInstaller.IsSnpMeaning` | src/install.rs:527-541 | a hook is SNP's exactly if it is text with the marker in it; it cannot be read exactly if it is no text |
| `HookInstaller.RoundTripByFinding` | src/install.rs:280-307 | the same for uninstalling whatever is found, with its exact condition, also when a hook cannot be read |
| `HookInstaller.OldBackupComesBack` | src/install.rs:488-507 | an old backup without a hook: installing and uninstalling with restore brings it back as the hook, under all flags |
| `HookInstaller.GoodPrefixMeaning` | src/install.rs:236-239 | the types handled are those named before the first bad name |
| `HookInstaller.GitHookManager.RestoreHook` | src/install.rs:611-654 | succeeds exactly with a backup, which moves back |
| `HookInstaller.GitHookManager.InstallSingleHook` | src/install.rs:370-467 | the file operations change exactly this type's two files, to their installed state; outcome in every case |
| `HookInstaller.GitHookManager.UninstallSingleHook` | src/install.rs:470-524 | only a hook of SNP's is removed; its backup takes its place and is used up |
| `HookInstaller.GitHookManager.InstallHooks` | src/install.rs:190-267 | each refusal leaves the directory alone; a bad name ends the call but keeps what was installed before it; the full report |
| `HookInstaller.GitHookManager.UninstallHooks` | src/install.rs:270-325 | the listed types, or all found; an unreadable hook stops the search before anything is removed; the full report |
| `HookInstaller.GitHookManager.FindInstalledSnpHooks` | src/install.rs:544-555 | the names of exactly the installed hooks, or an error on an unreadable one |
| `FileChangeDetectors.CheckKeepsBound` | src/file_change_detector.rs:367-384 | no check lets the cache exceed `cache_size` + 1 entries |
| `FileChangeDetectors.RunKeepsBound` | src/file_change_detector.rs:128-149 | nor does any run |
| `FileChangeDetectors.FirstRunRecords` | src/file_change_detector.rs:128-199 | while the distinct files fit, a first run evicts nothing and records every file |
| `FileChangeDetectors.NothingReported` | src/file_change_detector.rs:128-199 | a run that reports nothing held every file in the cache |
| `FileChangeDetectors.SecondCheckIgnoresContent` | src/file_change_detector.rs:176-192 | recorded by one check and checked again after any change: the answer depends on time and size only |
| `FileChangeDetectors.UnchangedIsRightIff` | src/file_change_detector.rs:176-192 | under every configuration, "unchanged" is said only of unchanged content exactly if time and size tell apart the contents the file can have and be checked with |
| `FileChangeDetectors.SecondRunIsQuiet` | src/file_change_detector.rs:128-199 | a second run over unchanged files reports nothing exactly when all exist, the watcher named none, and at most `cache_size` + 1 are different |
| `FileChangeDetectors.TakingOldest` | src/file_change_detector.rs:398-409 | dropping the first of a list sorted by age never drops something newer than what stays |
| `FileChangeDetectors.OldThenOldest` | src/file_change_detector.rs:391-409 | nor does dropping by age first |
| `FileChangeDetectors.FreshSurvive` | src/file_change_detector.rs:386-413 | above the limit nothing older than an hour survives, and everything younger does as far as the limit allows |
| `FileChangeDetectors.FileChangeDetector.CreateCachedFileInfo` | src/file_change_detector.rs:342-364 | fails exactly on a file that has to be read and cannot be; otherwise the digest of the content, or of name, size and time |
| `FileChangeDetectors.FileChangeDetector.HasFileChanged` | src/file_change_detector.rs:152-199 | every case of the answer and of the cache, failing exactly on a file that has to be read and cannot be; "unchanged" implies time and size as last recorded |
| `FileChangeDetectors.FileChangeDetector.UpdateFileCache` | src/file_change_detector.rs:367-384 | evicts as allowed, then records; the bound is kept |
| `FileChangeDetectors.FileChangeDetector.EvictOldEntries` | src/file_change_detector.rs:386-413 | nothing up to the limit; above it old entries and then the oldest, down to the limit |
| `FileChangeDetectors.FileChangeDetector.GetChangedFiles` | src/file_change_detector.rs:128-149 | the changed files in order, by one check each; a failure ends the run; a forced refresh returns all |

## Left out

- Process spawning, language plugins, environments, resource pools, the event bus, file contents of hooks: a hook's outcome and whether its conditions hold are parameters. So is whether the environments of a parallel run can be set up.
- The caching of hook results and the user output. A hook that is not meant for the current stage is one more outcome of the engine.
- petgraph's component search: its result on the search graph is a parameter specified as the classes of mutual reachability. Queues are sequences with atomic push and pop.
- ExecuteChain: requires that entries with one hook id are the same, and so does `PlanChain`. Otherwise the later one gives the node its data (`BuildGraph`) while the executor finds the earlier one by its id. An engine error while a hook runs, which abandons the whole chain, is not an outcome here.
- Per-phase result records, the message log between hooks, retries and timeouts of single hooks, pipeline mode (which no plan uses); durations are whole numbers of seconds.
- ResolveAndSubmit: requires distinct task ids. The table of waiting tasks, which nothing fills, and failing submissions are left out.
- The third cache tier, which never returns anything; cache sizes, rates and averages; overflow of 64-bit statistics in the caches.
- LockFreeCache.Insert: one caller at a time, because two inserters may pick the same victim; timestamps stay below the largest 64-bit number.
- Stolen and duration counters of the lock-free scheduler as separate interleaved steps; `StealTask` counts stolen tasks when it runs alone.
- A work-stealing scheduler without workers: two submissions out of three divide by zero there; the model sends all of them to the shared queue.
- Notifications and idle waits of the worker loop, utilisation metrics, load-balance reports.
- Shared locks, stale locks, the average acquisition time: whether an attempt is granted is a parameter, and so is which file the operating system opens under a name, as long as that does not change during a run. Paths are counted in characters, one byte each, and separated as on Unix.
- Text of hook scripts beyond the header with the marker, file permissions, backup clean-up by age, failing file operations.
- Different spellings of one path in the change detector: a path there stands for all of them.
- The persistent store of the change detector, which is not implemented in the program, and its watcher: the set of reported files is a parameter of a run.
