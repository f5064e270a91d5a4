# Verified model of Mustard's coordination core

This project models the parts of Mustard in which several objects or many steps must stay in step with
each other, and proves what they promise. It needs Dafny 4.11 and nothing else:
`dafny verify dfyconfig.toml`.

- **Plan scheduler.** `DependencyGraph`, `CycleDetection`, `DependencyResolver` (depth-first cycle search
  and the topological sort), `TaskQueue`, `ScheduleLog`, `Reloading` (one plan after another),
  `Dispatcher` and `Orchestrator`. A worker is an arbitrary outcome: while the run loop waits, any tasks
  in flight finish, completed or failed, so every theorem about a run quantifies over every schedule.
- **Permission protocol.** `PermissionChecker` decides; `PermissionGateway` holds the intent engine, the
  approval manager, the mode manager and the gateway as classes whose listeners call each other as the
  original's do, nested and re-entrant. Each method is proved to have the effect of a flat step of
  `PermissionWorld`; `PermissionSafety` proves the invariant of those steps, `PermissionTheorems` what
  follows for every run and `ApprovalOrigins` where approvals come from. Ids are fresh values, timers are
  steps that may fire while armed, the risk verdict and the sensitive-file match are arbitrary inputs.
- **Globs.** `GlobMatch` is the compiler from globs to regular expressions, `Regex` an independent parser
  and semantics of the expressions it emits, `GlobPaths` the matching rules on top.
- **Allocators.** `RateLimiter` (sliding window and cooldown) and `ZoneManager` (editing zones).
- **Index agreement and retention.** `FileOps` (the document's five collections), `NestedTree` (the tree
  built from the flat list) and `HistoryRotation` (three deletion passes over the session logs).
- **Tokens.** `Base64url` (RFC 4648, section 5) and `Jwt` (the compact form of RFC 7515, section 7.1).

Code that changes things step by step is modelled by classes and methods with loops; each is proved
against a specification function or a state property, and the theorems are lemmas about those. Clock
readings, random ids, the deletion results of the file system and the outcomes of workers are parameters
or nondeterministic choices.

## What the code does otherwise than promised

The model follows the code. Where a promise turned out false, a lemma gives an input and another one the
exact condition, except for the sort, where only a sufficient condition is given.

- The success reported for a plan is that of everything the dispatcher ever ran. It can be trusted for a
  first plan exactly if that is acyclic and names only known ids (`Orchestrator.FirstPlanIff`,
  `Orchestrator.SelfDependentPlan`), and for a later one exactly under the condition of
  `Orchestrator.SuccessIsExactIff`: after an earlier failure it says failure
  until a step under the same id is run again (`Orchestrator.SecondPlan`), and a task left over from an
  earlier plan may fail in its name (`Orchestrator.LeftoverTask`).
- `resolve` can emit an id before or without its dependencies when the id was listed before with others
  (`DependencyResolver.ReplacedEntryMisleads`); it does not if no entry that names dependencies is replaced
  (`DependencyResolver.Resolve`).
- Adding a task under an id that is already used can leave active tasks with an uncompleted dependency
  (`TaskQueue.RunStaysSupportedIff`, `TaskQueue.ReAddedDependency`).
- `propose` throws after the gateway rejected an intent that the engine's own policy then tries to approve
  (`PermissionTheorems.ProposeThrowsIff`, `PermissionTheorems.AskModeThrows`).
- `**` does not cross line terminators (`GlobMatch.CompilerPreservesMeaningIff`); the leading-segment law
  fails for globs that themselves start with `**/` (`GlobPaths.PrefixLawIff`); the base-name rule also
  applies to globs such as `a**`, which the documentation excludes (`GlobPaths.FullPathRuleIff`).
- `resetAt` is no time of release when `maxOperations` is below one (`RateLimiter.ResetAtIsExactIff`), and
  during a cooldown it can be too early exactly if the cooldown is shorter than the window
  (`RateLimiter.CooldownResetIsReliableIff`, `RateLimiter.ShortCooldown`).
- A human request removes the AI claims it overlaps even when it is then refused because of another human
  claim, the requester's own included (`ZoneManager.LostToOthersIff`, `ZoneManager.RefusedYetOverridden`).
- A claim that is the empty string stays behind on a renamed file's old path (`FileOps.RenameLeavesIff`,
  `FileOps.EmptyClaimStaysBehind`).
- A file listed before another file whose directory it names gets children instead of staying a leaf,
  unless a file listed still earlier had already made its path a directory
  (`NestedTree.FilesBecomeLeavesIff`, `NestedTree.OrderMatters`).
- A token is still accepted in the second it expires (`Jwt.SignThenVerify`), and verification throws on a
  correctly signed null payload although it is documented never to throw (`Jwt.ThrowsIff`,
  `Jwt.NullPayloadThrows`).

## Model

| member | source | states |
|---|---|---|
| `CycleDetection.DetectCycle` | packages/queue/src/dependency-resolver.ts:89-107 | For every node list, a repeated id counting with its last dependency list: `None` if and only if the dependency relation has no closed walk; otherwise the report is a closed walk in which each id depends on the next and the last on the first, without repeats except for `[a, a]`. Terminates. |
| `CycleDetection.CycleSearch.Dfs` | packages/queue/src/dependency-resolver.ts:122-154 | Visiting one id either returns such a cycle or finishes it with everything it depends on, listed in dependency order; the recursion terminates because the set of visited ids grows. |
| `CycleDetection.CycleSearch.Reconstruct` | packages/queue/src/dependency-resolver.ts:138-148 | Following the parent links from the top of the recursion reaches the repeated id and spells out the cycle; the walk ends because it moves down the stack. |
| `CycleDetection.AllFinishedIsAcyclic` | packages/queue/src/dependency-resolver.ts:99-106 | If the search finishes every listed id, no closed walk exists, through listed or unlisted ids. |
| `DependencyGraph.EscapeFreeSetHasCycle` | packages/queue/src/dependency-resolver.ts:60-82 | A finite set in which every id has a dependency inside the set contains a cycle: why the sort leaves nothing behind. |
| `DependencyGraph.TopologicalExcludesCycle` | packages/queue/src/dependency-resolver.ts:60-82 | No closed walk passes through an id of a topological order. |
| `DependencyResolver.Resolve` | packages/queue/src/dependency-resolver.ts:19-83 | For every node list: an error if and only if the relation is cyclic, and then a real cycle; otherwise all ids that earn a place, each once and after what it earned it by: as many finished dependencies, counted over all entries of the id with repetition, as its last entry names. Unless an id is listed again after an entry that names dependencies, that puts every dependency before its dependents and leaves out exactly the ids whose transitive dependencies are not all listed. |
| `DependencyResolver.Drain` | packages/queue/src/dependency-resolver.ts:60-82 | The work queue ends with exactly the ids that earn a place, for every list: in-degrees count what an id still lacks, and exactly the ids that lack nothing have been queued, once each. |
| `DependencyResolver.KahnIsComplete` | packages/queue/src/dependency-resolver.ts:68-82 | On an acyclic list in which the last entry of each id counts, what the emptied queue leaves is a sorted order of exactly the grounded ids. |
| `DependencyResolver.ReplacedEntryMisleads` | packages/queue/src/dependency-resolver.ts:46-58 | On the list `a` needing `x`, `a` again needing `y`, `x`, and `y` needing an unknown `z`, whatever the loop emits holds `a` without its dependency `y`. |
| `DependencyResolver.ClosedListIsSortedWhole` | packages/queue/src/dependency-resolver.ts:15-19 | If every dependency is listed, the order holds every node. |
| `TaskQueue.PromoteOnce` | packages/queue/src/task-queue.ts:213-226 | One pass of the readiness update reaches its fixpoint: afterwards no pending task has all dependencies completed, and a second pass changes nothing. |
| `TaskQueue.LifecycleKeepsSupported` | packages/queue/src/task-queue.ts:106-161 | Every lifecycle step keeps: a ready, running, completed or failed task has all dependencies completed; a completed task stays completed. |
| `TaskQueue.AddKeepsSupportedIff` | packages/queue/src/task-queue.ts:37-65 | Adding a task under an id keeps that property if and only if no active task depends on the id: overwriting a reused id can break it. |
| `TaskQueue.RunStaysSupportedIff` | packages/queue/src/task-queue.ts:37-204 | Over any sequence of queue calls, clearing included, that property holds throughout if and only if no call re-adds an id that another active task depends on. |
| `TaskQueue.FreshRunIsSafe` | packages/queue/src/task-queue.ts:37-204 | Over any sequence of queue calls that never adds an id the queue holds, the property holds at every moment, and a task once completed stays completed until the queue is cleared. |
| `TaskQueue.ReAddedDependency` | packages/queue/src/task-queue.ts:37-65 | A run on which re-adding a completed task leaves a ready one with an uncompleted dependency. |
| `TaskQueue.TaskQueue.Add` | packages/queue/src/task-queue.ts:37-65 | The new task is stored under its id with its initial status; a reused id is overwritten in place in the insertion order. |
| `TaskQueue.TaskQueue.UpdateReadyTasks` | packages/queue/src/task-queue.ts:213-226 | The in-place loop computes the simultaneous promotion of all pending tasks whose dependencies are completed. |
| `TaskQueue.TaskQueue.GetNext` | packages/queue/src/task-queue.ts:70-94 | After the update, the least ready task by priority, then creation time, then insertion order; null exactly when none is ready. |
| `TaskQueue.TaskQueue.Start` | packages/queue/src/task-queue.ts:106-114 | Moves a ready task to running, or fails and changes nothing. |
| `TaskQueue.TaskQueue.Complete` | packages/queue/src/task-queue.ts:119-132 | Moves a running task to completed and promotes its dependents, or fails and changes nothing. |
| `TaskQueue.TaskQueue.Fail` | packages/queue/src/task-queue.ts:137-146 | Moves a running task to failed, or fails and changes nothing. |
| `TaskQueue.TaskQueue.Cancel` | packages/queue/src/task-queue.ts:151-161 | Moves any task that is neither completed nor cancelled to cancelled, or fails and changes nothing. |
| `TaskQueue.TaskQueue.GetStats` | packages/queue/src/task-queue.ts:180-197 | The counters are the numbers of tasks with each status, and the total is that of all tasks. |
| `Dispatcher.Dispatcher.LoadPlan` | packages/orchestrator/src/dispatcher.ts:49-61 | Every step of the plan becomes a task with its dependencies, ready if it has none; of steps with the same id the last one counts, and a step that reuses the id of an earlier task, whatever became of it, replaces it; all run invariants hold again. |
| `Reloading.ReloadStep` | packages/orchestrator/src/dispatcher.ts:49-61 | With nothing in flight, a task added under an already started id starts over: the schedule without the events of the replaced task is still a well-behaved one. |
| `Dispatcher.Dispatcher.RunAll` | packages/orchestrator/src/dispatcher.ts:67-108 | For every order of completions and failures the loop terminates with nothing ready or running, every completed or failed task has that as its result and every other result is as before, and a task is left pending if and only if it depends, through any chain of tasks that waited when the plan was loaded, on a failed task, an unknown id or a cycle. With no slot at all it ends at once and starts nothing. |
| `Dispatcher.Dispatcher.FillSlots` | packages/orchestrator/src/dispatcher.ts:72-89 | Starts ready tasks until the slots are full or nothing can be started, each of them for the first time. |
| `Dispatcher.Dispatcher.Wait` | packages/orchestrator/src/dispatcher.ts:101-102 | The wait as nondeterminism: any tasks in flight finish, completed or failed, in any order. |
| `Dispatcher.Dispatcher.TaskCompleted` | packages/orchestrator/src/dispatcher.ts:141-142 | Completing a task in flight promotes its dependents and keeps every run invariant. |
| `Dispatcher.Dispatcher.HasPendingWork` | packages/orchestrator/src/dispatcher.ts:264-267 | The loop test: some task is pending or ready. |
| `ScheduleLog.AtMostOnce` | packages/orchestrator/src/dispatcher.ts:72-88 | In every run no task is started twice and none finishes twice; a step that reuses an id is a new task. |
| `ScheduleLog.DependenciesFirst` | packages/orchestrator/src/dispatcher.ts:72-88 | In every run each dependency of a started task has completed before the start. |
| `ScheduleLog.ConcurrencyBound` | packages/orchestrator/src/dispatcher.ts:72 | At every moment of every run at most `maxConcurrency` tasks are in flight. |
| `ScheduleLog.PendingIffStuck` | packages/orchestrator/src/dispatcher.ts:91-99 | In a quiescent state a task is pending if and only if a dependency path leads to a failed task, an unknown id or a cycle; every other task completed or failed. |
| `ScheduleLog.SoundPlanIff` | packages/orchestrator/src/dispatcher.ts:95 | No task is doomed from the start if and only if the plan is acyclic and names only known ids. |
| `Orchestrator.Orchestrator.ExecutePlan` | packages/orchestrator/src/orchestrator.ts:152-170 | Loading a plan after any earlier ones and running it gives a finished continuation of the schedule; and wherever the condition below holds as the plan is loaded, the success reported is that every step of the plan completed. |
| `Orchestrator.SuccessIsExactIff` | packages/orchestrator/src/orchestrator.ts:129-130 | For a plan loaded after any earlier plans, finished or stuck, under fresh or reused ids: the success test says in every run whether the plan's steps completed if and only if a failure that no run can replace is on record exactly if some step is stuck from the start, and otherwise no earlier task can still run that no step needs. |
| `Orchestrator.FirstPlanIff` | packages/orchestrator/src/orchestrator.ts:129-130 | For the first plan: if and only if it is acyclic and names only known ids. |
| `Orchestrator.LaterPlanIff` | packages/orchestrator/src/orchestrator.ts:166-167 | When all earlier tasks have ended and no failed id is used again: if and only if an earlier failure is on record exactly if some step is stuck. |
| `Orchestrator.LyingRun` | packages/orchestrator/src/orchestrator.ts:129-130 | Wherever that condition fails, a run on which the test is wrong. |
| `Orchestrator.SelfDependentPlan` | packages/orchestrator/src/orchestrator.ts:129-130 | The plan whose one step depends on itself: no step runs, the test says success, the step is pending. |
| `Orchestrator.SecondPlan` | packages/orchestrator/src/orchestrator.ts:166-167 | A plan `[a]` that failed, then a plan `[b]` that completes: the test says failure. |
| `Orchestrator.LeftoverTask` | packages/orchestrator/src/orchestrator.ts:166-167 | A plan that brings an id an earlier task was waiting for: that task runs too, and the test cannot be trusted. |
| `PermissionChecker.DecideIsSound` | packages/collab-permissions/src/permission-checker.ts:191-288 | For all rule and policy tables: never an immediate approval; rejection exactly of what the mode forbids; plan mode holds the rest; elsewhere the policy's approver count, and a countdown exactly for non-critical intents the mode auto-approves. |
| `PermissionGateway.PermissionGateway.HandleProposed` | packages/collab-permissions/src/permission-gateway.ts:188-243 | The handler's effect on all three objects, listener cascades included, is that of the flat step: reject, hold, or open a request and track the pair. |
| `PermissionGateway.PermissionGateway.HandleApproved` | packages/collab-permissions/src/permission-gateway.ts:245-250 | An approved request forgets its pair and approves its intent if that is still pending; the nested cascade terminates. |
| `PermissionGateway.PermissionGateway.HandleRejected` | packages/collab-permissions/src/permission-gateway.ts:252-263 | A rejected or expired request forgets its pair and rejects its intent if that is still pending; the nested cascade terminates. |
| `PermissionGateway.PermissionGateway.DropRequestForIntent` | packages/collab-permissions/src/permission-gateway.ts:270-279 | Resolving an intent elsewhere cancels its request, whose own echo finds nothing to do. |
| `PermissionGateway.PermissionGateway.HandleModeChanged` | packages/collab-permissions/src/permission-gateway.ts:286-301 | The loop of nested cancels and invalidations has the effect of cancelling all tracked requests and invalidating all tracked intents at once. |
| `PermissionGateway.ClearOneMore` | packages/collab-permissions/src/permission-gateway.ts:293-300 | One round of that loop adds one pair to what the simultaneous step handles. |
| `PermissionGateway.IntentEngine.Propose` | packages/collab-ai/src/intent-engine.ts:60-90 | Proposing, with every listener cascade, has the effect of the flat step; it throws exactly when the flat step says so, and else returns the intent the engine policy approved, or the intent as proposed, whatever the gateway has made of it. |
| `PermissionGateway.IntentEngine.Transition` | packages/collab-ai/src/intent-engine.ts:220-237 | A transition checks the expected status, replaces the intent and lets the gateway drop its request. |
| `PermissionGateway.IntentEngine.Invalidate` | packages/collab-ai/src/intent-engine.ts:163-178 | Any non-terminal intent becomes invalidated; a terminal one is an error that changes nothing. |
| `PermissionGateway.IntentEngine.PurgeOld` | packages/collab-ai/src/intent-engine.ts:185-197 | Deletes exactly the terminal intents older than the cutoff and counts them. |
| `PermissionGateway.ApprovalManager.Open` | packages/collab-permissions/src/approval-manager.ts:84-105 | Opens a waiting request with a countdown, else a timeout, else no timer. |
| `PermissionGateway.ApprovalManager.Approve` | packages/collab-permissions/src/approval-manager.ts:143-157 | Records each approver once and returns the request, granted exactly when the count is reached, with the cascade into gateway and engine; an error unless the request is waiting. |
| `PermissionGateway.ApprovalManager.Reject` | packages/collab-permissions/src/approval-manager.ts:160-163 | Denies a waiting request with its cascade; an error otherwise. |
| `PermissionGateway.ApprovalManager.Cancel` | packages/collab-permissions/src/approval-manager.ts:170-173 | Denies a waiting request with its cascade; an error otherwise. |
| `PermissionGateway.ApprovalManager.Fire` | packages/collab-permissions/src/approval-manager.ts:229-243 | A firing timer grants the request (countdown) or expires it (timeout), with the cascade. |
| `PermissionGateway.ApprovalManager.Finalize` | packages/collab-permissions/src/approval-manager.ts:252-269 | Disarms the timer, stores the final status and tells the gateway. |
| `PermissionGateway.ModeManager.SetMode` | packages/collab-permissions/src/mode-manager.ts:86-107 | A real change of mode stores it and clears everything tracked; setting the same mode does nothing. |
| `PermissionSafety.StepKeeps` | packages/collab-permissions/src/permission-gateway.ts:188-301 | Every step of the three objects keeps the joint invariant. |
| `PermissionSafety.RunKeeps` | packages/collab-permissions/src/permission-gateway.ts:188-301 | Every reachable state satisfies the joint invariant. |
| `PermissionTheorems.MapsAgree` | packages/collab-permissions/src/permission-gateway.ts:106-109 | In every reachable state the two id maps are mutually inverse, each tracked pair is a waiting request with a pending intent, and every waiting request the gateway opened is tracked. |
| `PermissionTheorems.ModeChangeClears` | packages/collab-permissions/src/permission-gateway.ts:286-301 | A mode change empties both maps, denies each tracked request, invalidates each tracked intent, and touches no other request or intent. |
| `PermissionTheorems.RequestLifecycle` | packages/collab-permissions/src/approval-manager.ts:218-269 | In every reachable state a request has emitted its creation and at most one terminal event; a timer is armed if and only if the request waits and was opened with one; approvals are distinct, fewer than the threshold while waiting, enough when granted. |
| `PermissionTheorems.HistoriesAreLegal` | packages/collab-ai/src/intent-engine.ts:130-178 | Over any run each intent's status history is a path of the documented lifecycle that ends in its current status. |
| `PermissionTheorems.TerminalForever` | packages/collab-ai/src/intent-engine.ts:163-178 | A terminal intent keeps its history and its content over any further run, unless it is purged. |
| `PermissionTheorems.StepSteps` | packages/collab-permissions/src/permission-gateway.ts:245-279 | No step, and no echo of a cancelled request, changes a resolution already made: every change of status is a lifecycle edge. |
| `PermissionTheorems.NoReturn` | packages/collab-ai/src/intent-engine.ts:185-197 | An id that has been used never comes back once its intent is purged. |
| `PermissionTheorems.ProposeThrowsIff` | packages/collab-ai/src/intent-engine.ts:85-87 | `propose` throws if and only if the engine's own policy matches an intent that the gateway has just rejected. |
| `PermissionTheorems.AskModeThrows` | packages/collab-permissions/src/types.ts:65-72 | Under the default rules it does throw: in ask mode the first proposal, with an engine policy that allows safe intents. |
| `PermissionTheorems.VerdictStands` | packages/collab-permissions/src/permission-gateway.ts:194-226 | The verdict and approver count recorded for a proposal are those of the tables and mode at that moment, for the rest of the run. |
| `PermissionTheorems.CriticalNeedsApprovers` | packages/collab-permissions/src/permission-checker.ts:239-259 | In every run without an engine policy and without direct engine approval, an intent judged sensitive or dangerous is approved only through the request its proposal opened, granted by the policy's number of distinct approvers, at least one, each of whom called for that request after the proposal; never by a countdown. |
| `ApprovalOrigins.ApprovalsComeFromCalls` | packages/collab-permissions/src/approval-manager.ts:143-157 | Every name among a request's approvals comes from a call of that approver for that request, made in the run after the request was opened. |
| `GlobMatch.GlobToRegExp` | packages/collab-permissions/src/glob-match.ts:45-70 | The translation loop with its index skips emits the recursive translation of the pattern. |
| `GlobMatch.CompileParses` | packages/collab-permissions/src/glob-match.ts:48-69 | For every pattern the emitted text is a well-formed expression and reads back as the intended items, so escaping is complete. |
| `GlobMatch.CompiledMeansStrict` | packages/collab-permissions/src/glob-match.ts:53-69 | For every pattern and every string the expression accepts exactly the glob semantics in which `**` does not cross line terminators. |
| `GlobMatch.CompilerPreservesMeaningIff` | packages/collab-permissions/src/glob-match.ts:7-11 | For a path: all patterns mean what the documentation says if and only if the path holds no line terminator. |
| `GlobPaths.PrefixLawIff` | packages/collab-permissions/src/glob-match.ts:40-43 | The law that `**/` + g accepts a path if and only if g accepts it or the part after one of its slashes holds on all paths without line terminators exactly for the globs g that do not start with `**/`, or that name a line terminator and so match no such path. |
| `GlobPaths.PrefixLawFails` | packages/collab-permissions/src/glob-match.ts:48-51 | For every other glob, a path for which that law fails. |
| `GlobPaths.FirstMatch` | packages/collab-permissions/src/glob-match.ts:93-98 | The first pattern of the list that matches, or null if none does. |
| `GlobPaths.FullPathRuleIff` | packages/collab-permissions/src/glob-match.ts:13-18 | The documented rule "patterns with `**` match the full path only" holds of the code, on all paths without line terminators, exactly for globs with a slash, without `**`, starting with `**`, or naming a line terminator or a backslash; `a**` breaks it. |
| `GlobPaths.RuleFails` | packages/collab-permissions/src/glob-match.ts:77-85 | For every other glob, a path on which code and documentation differ. |
| `GlobPaths.LiteralMustOccur` | packages/collab-permissions/src/glob-match.ts:77 | What a glob that names a character matches must hold that character: a glob naming a backslash never meets a normalised path. |
| `RateLimiter.RateLimiter.TryConsume` | packages/collab-ai/src/rate-limiter.ts:34-41 | Accepts exactly if the status check at the first clock reading does not limit, recording at the second; every cell stays what the calls so far make it. |
| `RateLimiter.RateLimiter.GetStatus` | packages/collab-ai/src/rate-limiter.ts:46-71 | The reported status is that of the stored cell at the given time. |
| `RateLimiter.RateLimiter.Record` | packages/collab-ai/src/rate-limiter.ts:98-118 | Pushes, prunes and possibly starts the cooldown of one agent and action, and touches no other. |
| `RateLimiter.RateLimiter.ResetAgent` | packages/collab-ai/src/rate-limiter.ts:78-81 | Forgets every window and cooldown of the agent and of no other. |
| `RateLimiter.NoWindowOverflows` | packages/collab-ai/src/rate-limiter.ts:34-118 | For any calls under a non-decreasing clock, no window (x - windowMs, x] holds more than `maxOperations` accepted operations of one agent and action since their last reset, although stored times are pruned and the clock is read twice. |
| `RateLimiter.RateLimiter.NeverOverflows` | packages/collab-ai/src/rate-limiter.ts:34-118 | The same, of the limiter object after any calls. |
| `RateLimiter.PruningIsExact` | packages/collab-ai/src/rate-limiter.ts:106-109 | Pruning loses nothing that a later check would count. |
| `RateLimiter.CooldownHolds` | packages/collab-ai/src/rate-limiter.ts:111-117 | Once an operation recorded at t fills the window, nothing is accepted before t + cooldownMs. |
| `RateLimiter.ResetAtIsExactIff` | packages/collab-ai/src/rate-limiter.ts:60-70 | Limited but not cooling down: limited at every time before `resetAt`, and free at `resetAt` if and only if `maxOperations` is at least 1. |
| `RateLimiter.NoLimitNoRelease` | packages/collab-ai/src/rate-limiter.ts:60-70 | With a limit below one an unused agent is limited, and still limited at the `resetAt` reported. |
| `RateLimiter.CooldownResetIsReliableIff` | packages/collab-ai/src/rate-limiter.ts:54-58 | For a limit of at least one and a positive cooldown: in every run an agent that is cooling down is free at the `resetAt` reported if and only if the cooldown is no shorter than the window. |
| `RateLimiter.ShortCooldown` | packages/collab-ai/src/rate-limiter.ts:54-58 | For every shorter cooldown a run on which it is not: as many calls as the limit admits, in one millisecond, whichever. |
| `RateLimiter.CooldownResetIsExactIff` | packages/collab-ai/src/rate-limiter.ts:54-58 | In a single cooling state: limited until `resetAt`, and free then if and only if the oldest stored operation has left the window by that time. |
| `ZoneManager.OverlapIffShared` | packages/collab-ai/src/zone-manager.ts:214-221 | On non-empty ranges `rangesOverlap` holds if and only if some position, in half-open lexicographic order, lies in both. |
| `ZoneManager.CaretOverlapIff` | packages/collab-ai/src/zone-manager.ts:214-221 | An empty range overlaps exactly the ranges it lies strictly inside, although it shares no position with them. |
| `ZoneManager.ClaimsAreExclusive` | packages/collab-ai/src/zone-manager.ts:29-92 | In every reachable state two claims of a file have different holders and do not overlap. |
| `ZoneManager.GrantedIff` | packages/collab-ai/src/zone-manager.ts:34-91 | A request is granted if and only if no active human claim overlaps it and, for an AI, no active claim of another participant does; a refusal names such a claim. |
| `ZoneManager.LostToOthersIff` | packages/collab-ai/src/zone-manager.ts:44-65 | A call by anyone but the holder removes a claim if and only if it clears all claims, the claim has expired, or it is an AI claim overlapped by a human request, granted or not. |
| `ZoneManager.RefusedYetOverridden` | packages/collab-ai/src/zone-manager.ts:44-65 | A run on which a human request is refused because of another human's claim and yet costs an AI its claim. |
| `ZoneManager.HumanClaimStays` | packages/collab-ai/src/zone-manager.ts:186-211 | Over any calls but clearing a human claim stays until its own holder releases it or claims on that file again. |
| `ZoneManager.ZoneManager.Claim` | packages/collab-ai/src/zone-manager.ts:29-92 | The branches of the original, with their loop of removals, come to the closed form of the outcome and of the claims left. |
| `ZoneManager.ZoneManager.GrantClaim` | packages/collab-ai/src/zone-manager.ts:162-184 | Replaces the participant's claims on the file by the new one. |
| `ZoneManager.ZoneManager.RemoveClaim` | packages/collab-ai/src/zone-manager.ts:186-195 | Removes exactly the participant's claims on the file. |
| `ZoneManager.ZoneManager.RemoveExpired` | packages/collab-ai/src/zone-manager.ts:197-207 | Keeps exactly the unexpired claims of every file. |
| `ZoneManager.ZoneManager.Release` | packages/collab-ai/src/zone-manager.ts:97-99 | Releases the participant's claims on one file. |
| `ZoneManager.ZoneManager.ReleaseAll` | packages/collab-ai/src/zone-manager.ts:104-108 | Releases the participant's claims on every file. |
| `ZoneManager.ZoneManager.GetFileClaims` | packages/collab-ai/src/zone-manager.ts:115-118 | Returns the active claims of the file. |
| `ZoneManager.ZoneManager.IsClaimedByOther` | packages/collab-ai/src/zone-manager.ts:135-141 | Whether some active claim of another participant touches the line. |
| `FileOps.CollectionsAgree` | packages/collab-sync/src/file-ops.ts:29-240 | After any calls of these operations the keys of `files`, the keys of `fileMeta` and the paths in `tree` are the same, no path is listed twice and every size is the length of the text. |
| `FileOps.StepKeepsAgreement` | packages/collab-sync/src/file-ops.ts:29-240 | Every call, successful or not, keeps that agreement. |
| `FileOps.NoneOutlivesItsFile` | packages/collab-sync/src/file-ops.ts:79-85 | If claims and locks are only put on existing files, no claim that names somebody and no lock outlives its file, over any calls. |
| `FileOps.RenameLeavesIff` | packages/collab-sync/src/file-ops.ts:107-142 | After a rename the old path has no text and no lock, and a claim exactly if that was the empty string; text, size and claim are on the new path. |
| `FileOps.EmptyClaimStaysBehind` | packages/collab-sync/src/file-ops.ts:126-131 | Three calls, create, an empty claim and a rename, that leave the old path claimed without a file. |
| `FileOps.DeleteUndoesCreateIff` | packages/collab-sync/src/file-ops.ts:29-85 | Deleting a file just created restores the document if and only if the bare path carried no claim and no lock. |
| `FileOps.RenameBackIff` | packages/collab-sync/src/file-ops.ts:91-143 | Renaming there and back restores the texts; the claims come back if and only if the other path carried none that interferes. |
| `FileOps.DeleteUndoesInsertIff` | packages/collab-sync/src/file-ops.ts:160-196 | Deleting what was inserted restores the text if and only if the index was not past the end, or nothing was inserted. |
| `FileOps.Document.CreateFile` | packages/collab-sync/src/file-ops.ts:29-60 | Adds text, metadata and tree entry, or fails on an existing path and changes nothing. |
| `FileOps.Document.DeleteFile` | packages/collab-sync/src/file-ops.ts:67-86 | Removes the path from all five collections, or fails and changes nothing. |
| `FileOps.Document.RenameFile` | packages/collab-sync/src/file-ops.ts:91-143 | Moves text, metadata, claim and tree entry and drops the lock, or fails and changes nothing. |
| `FileOps.Document.InsertText` | packages/collab-sync/src/file-ops.ts:160-174 | Inserts at the clamped index and refreshes the metadata. |
| `FileOps.Document.DeleteText` | packages/collab-sync/src/file-ops.ts:181-195 | Deletes the clamped range and refreshes the metadata. |
| `FileOps.Document.ReplaceText` | packages/collab-sync/src/file-ops.ts:202-218 | Deletes and inserts, then refreshes the metadata. |
| `FileOps.Document.RemoveFromTree` | packages/collab-sync/src/file-ops.ts:258-267 | The loop deletes the first entry with the path and no other. |
| `NestedTree.BuildNestedTree` | packages/collab-sync/src/file-ops.ts:272-295 | The loop over the flat list builds the tree by filing one node after the other. |
| `NestedTree.FilesAreConserved` | packages/collab-sync/src/file-ops.ts:272-295 | The files of the nested tree are exactly the flat nodes as a multiset, whatever the paths. |
| `NestedTree.EverythingIsPlaced` | packages/collab-sync/src/file-ops.ts:276-290 | Every node lies under the chain of directories that the leading segments of its path name, and sibling directories have distinct paths, whatever the paths. |
| `NestedTree.FilesBecomeLeavesIff` | packages/collab-sync/src/file-ops.ts:276-292 | For every flat list: all files become leaves if and only if every file that is a directory of a later file is preceded by a file that already made its path a directory. |
| `NestedTree.FilesBecomeLeaves` | packages/collab-sync/src/file-ops.ts:276-292 | When no file path is itself a directory of another, every file is a leaf, in any order. |
| `NestedTree.OrderMatters` | packages/collab-sync/src/file-ops.ts:283-289 | `/a` listed before `/a/b` gets it as a child; listed after it, `/a` stays a leaf even with `/a/c` still to come. |
| `NestedTree.PartsOfDirPath` | packages/collab-sync/src/file-ops.ts:277-282 | Splitting a joined directory path gives its segments back. |
| `HistoryRotation.RotateHistory` | packages/config/src/history.ts:183-280 | Bytes freed and bytes left make up the initial total whatever deletions fail; a session left that is too old could not be deleted; the count limit is exceeded by no more than the sessions its pass tried and failed to delete; the size limit is met or nothing left could be deleted; if all deletions succeed, what is left is the longest end of the list, oldest first, that meets all limits, and what was deleted is what came before it. |
| `HistoryRotation.LongestAllowedIff` | packages/config/src/history.ts:222-279 | That end meets the age limit and every non-zero limit, and every longer one violates some: the deletions are minimal. |
| `HistoryRotation.PassAccounts` | packages/config/src/history.ts:223-276 | Every pass frees exactly the bytes that are no longer left. |
| `HistoryRotation.AgePass` | packages/config/src/history.ts:222-235 | The first pass deletes the sessions that are too old, where the file system lets it. |
| `HistoryRotation.EnforceCount` | packages/config/src/history.ts:243-255 | The second pass deletes the oldest sessions beyond the count limit, where the file system lets it, and no others. |
| `HistoryRotation.SizePass` | packages/config/src/history.ts:258-277 | The third pass stops at the first point where the limit is met, and not before. |
| `HistoryRotation.SortSorts` | packages/config/src/history.ts:216-217 | Sorting orders by last entry and keeps every session. |
| `Base64url.RoundTrip` | packages/collab-server/src/jwt.ts:127-139 | Decoding undoes encoding for every byte string. |
| `Base64url.RestoreUndoesStrip` | packages/collab-server/src/jwt.ts:127-138 | Recomputing the padding from the length undoes stripping it, for every byte string. |
| `Base64url.OnlyUrlChars` | packages/collab-server/src/jwt.ts:127-133 | Encoded strings hold only the URL-safe alphabet: no dot, no padding. |
| `Jwt.ThreePartsIff` | packages/collab-server/src/jwt.ts:87-90 | A token splits into three given parts if and only if it is those parts, free of dots, joined by dots. |
| `Jwt.SignThenVerify` | packages/collab-server/src/jwt.ts:45-112 | Verifying a signed token under the same secret returns the payload extended with iat, exp and jti exactly up to and including exp. |
| `Jwt.ClaimsAreKept` | packages/collab-server/src/jwt.ts:50-56 | Signing keeps every claim of the caller but iat and exp, and a given jti. |
| `Jwt.AcceptedIff` | packages/collab-server/src/jwt.ts:80-112 | A token is accepted with a payload if and only if it is the correctly signed token of a text that reads as it, not null and not expired. |
| `Jwt.ThrowsIff` | packages/collab-server/src/jwt.ts:105-108 | Verification throws, against its documentation, exactly on a correctly signed token whose payload is null. |
| `Jwt.NullPayloadThrows` | packages/collab-server/src/jwt.ts:105-108 | Such a token: under any codec that reads back the null it writes, its properly signed text. |
| `Jwt.OtherSecretIff` | packages/collab-server/src/jwt.ts:95-108 | A signed token verifies under another secret if and only if both give the signed text the same code and the token has not expired or expiry is ignored. |

## Left out

- Merging, networking, undo and redo of the shared document, and `setFileContent`, which writes a text without metadata or tree entry: the "any calls" of `FileOps` are those of its own operations. The maps and the array of one replica are plain maps and sequences; text edits clamp their positions, and text handles held by callers are not modelled.
- Everything backed by SQLite (queue, memory, sessions, projects, teams): the behaviour is that of SQL and triggers.
- LLM providers, the planner and its parser, the agent loop, artifact hand-over between steps (no project id is set, so that path returns at once) and plan modification during approval.
- `dispatchNext`, `PermissionGateway.detach` and the `clear` and `destroy` methods of the intent engine and the approval manager: they step outside the invariants by design. `cancel` is modelled, but not during `runAll`.
- DependencyResolver.Resolve: among ids that have earned their place at the same time, which comes first is not stated.
- Dispatcher.Dispatcher.RunAll: one run at a time. A second plan approved while one is running starts a second loop over the same queue with slots of its own, and then neither the concurrency bound nor the rest is claimed.
- Listeners other than the gateway's own on the engine, the approval manager and the mode manager; `undo` of a mode, which is `setMode` again.
- The names in `requiredApprovers`: the code stores them and never looks at them, only the count matters.
- The concrete risk rules, sensitive patterns, mode tables and approval policies: theorems hold for all of them.
- `hasMore`, `getResult`, `list`, `countByStatus`, `getParticipantClaims`, `totalClaims`, `exportHistory` and similar queries: easy members.
- The HMAC algorithm and JSON text: an arbitrary function and an arbitrary reader and writer of values; the round trip assumes the reader undoes the writer on the signed payload. The constant-time comparison is plain equality.
- Strings are sequences of characters; UTF-16 surrogates, `toLowerCase` and the language table of `detectLanguage` (an arbitrary function here) are not modelled.
- NestedTree.BuildNestedTree: the tree is a value; the original's in-place descent through fresh nodes, and aliasing between them, is not captured.
- FileOps.Document.InsertText: positions outside the text are clamped; the text type's own treatment of them is that of its library and not part of this model.
- FileOps.Document.DeleteText: the same holds of its range.
- FileOps.Document.ReplaceText: the same holds of its range.
- PermissionTheorems.AskModeThrows: the default rules are modelled without `writeRequiresApproval` and `executeRequiresApproval`, which `decide` does not read.
- ZoneManager.ZoneManager.ReleaseAll: the order in which the original visits the files is not modelled; it makes no difference to the claims.
