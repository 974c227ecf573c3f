# openTiger: a verified model

This project models the parts of openTiger, an orchestrator for coding agents, that
are hardest to get right by reading them: protocols between processes that share
database tables, graph transformations, parsers with their printers, and a few loops
with real bounds. `dafny verify dfyconfig.toml` checks all of it.

| component | modules | what is proved about it |
|---|---|---|
| Merge queue of the judges | MergeQueueTable, MergeQueueProtocol, MergeQueueFencing, MergeQueueLifecycle, MergeQueueLease, MergeQueueJudge | fencing by claim tokens, absorbing states and attempt bounds, unique rows, leases, over every interleaving |
| Judging runs | RunJudgement, JudgementRetry | one winner per opening, version counts, recovery and the merge queue |
| Planning | Digraph, TaskDependencies, TransitiveReduction, PlanSaving, TaskTable, PlannerRunner | the transitive reduction computed in place, and reachability and acyclicity from the proposal to the task table |
| Plugins | PluginGraph, PluginLoader, PluginValidate | the marked depth-first search computes the well-founded plugins in order, and the validator agrees |
| Model answers | JsonScanner, JsonResponse | objects printed into prose are recovered exactly |
| Requirement files | LinePatterns, RequirementParser, RequirementLines, RequirementDocument, RequirementMarkdown, RequirementRoundTrip | parser and printer undo each other |
| Rate limiting | RateLimit | the sharp bound of the fixed window |
| Staging | StageChanges | retries shed paths, lose none, and end |
| Path globs | GlobPattern | what a compiled glob matches, and exactly when that is what it means |
| Quota backoff, .env export | QuotaRetry, EnvExport | bounds and limits; idempotence and its exact condition |

Options, Sequences and Text hold what several modules share.

## How the model is built

* A table is a map from ids to rows. Each SQL statement is one function on tables,
  executed atomically; a process is a sequence of such statements. The protocols are
  transition systems over these statements, and the code that runs them is a class
  whose methods execute one statement after the other, with arbitrary steps of other
  processes in between. A ghost history ties the two together.
* Clocks, settings, random tokens, git, `JSON.parse`, the overlap of paths and the
  result of a merge are parameters. Claim tokens are fresh by assumption, as
  `randomUUID` makes them. Clock readings of different processes are unrelated, except
  where a theorem about the lease or the rate limiter says otherwise.
* Loops and in-place updates of the source are loops and in-place updates here, each
  proved against a function or a predicate about which the theorems are then proved.
* Regular expressions are run by an explicit matcher that backtracks in the order
  section 22.2 of ECMA-262 prescribes.

## What the proofs found

* `recoverExpiredClaims` selects expired rows and then updates them by id alone. A
  row that finished in between goes back to pending (SplitSweepReopensMergedRow), and
  a claim made in between is taken away (SplitSweepStealsFreshClaim). Tokens still fence
  every other write. When exactly this happens: FinishedRowReopensIffStaleSweep for
  finished rows, BoundsBreakIffExhaustedRowSwept for the attempt bounds,
  SweepTakesClaimIff for claims. An atomic recovery rules out the first two
  (AtomicRecoveryIsBenign).
* `recoverAwaitingJudgeBacklog` checks for merge rows and then clears `judgedAt` without a
  guard, and so may reopen a run that is being merged (LateRecoveryReopensDuringMerge): exactly
  when its update is late (RecoveryReopensDuringMergeIff), which an atomic recovery never is.
* With a claim lifetime of five seconds or less the heartbeat always comes too late
  (FirstBeatInTimeIff).
* The warning of `sanitizeTaskDependencyIndexes` counts tasks, although its text speaks of
  dependencies; the model counts what the code counts.
* An empty list is printed as `- (none)` and read back as one item of that text, and no
  allowed path is read back as `**`; RoundTrip says what every blank becomes.
* Compiled globs mean what the globs mean on exactly the paths without a line terminator, which
  not even `**` matches, and without a character outside the basic plane, of which `?` takes
  only half (GlobsMeanAlikeIff).
* Two windows of the rate limiter can let 2*max-1 requests through at once, and never more; the
  plain limit holds exactly for a maximum of at most one and for windows of no length
  (LimitHoldsIff).
* Writing `.env` twice is not writing it once for a file with a line that is not replaced and
  ends in two carriage returns and a line feed, or in a carriage return at the end of the file
  (TwiceIsOnceIffNoStrayCr, LastCrIsLostSecond).

## Model

| member | source | states |
|---|---|---|
| `MergeQueueFencing.RunKeepsFences` | apps/judge/src/judge-merge-queue.ts:262-426 | Over every run of any number of workers: a claimed row carries exactly the token it was issued, every busy worker remembers what it was issued, and a token that was finalized has left the table |
| `MergeQueueFencing.FinalizeAppliesIffTokenCurrent` | apps/judge/src/judge-merge-queue.ts:393-426 | A finalize changes a row if and only if the caller's token is still that row's; it then writes the row's own current attempt count plus one, `failed` exactly on the last attempt, and touches no other row |
| `MergeQueueFencing.TokenNeverReturns` | apps/judge/src/judge-merge-queue.ts:356-375 | A token that left the table never comes back, over any run |
| `MergeQueueFencing.RevokedHolderNeverWrites` | apps/judge/src/judge-merge-queue.ts:393-426 | A worker whose claim was recovered, released or finalized never changes a row with it again, whatever happens in between |
| `MergeQueueFencing.RecoveryRevokes` | apps/judge/src/judge-merge-queue.ts:276-287 | Recovery and release take the token of every row they write and keep its attempt count |
| `MergeQueueFencing.AttemptsAreAppliedFinalizes` | apps/judge/src/judge-merge-queue.ts:514-739 | Over any run each token yields at most one applied finalize, and a row's attempt count is the number of finalizes applied to it, also when the catch block finalizes after an exception |
| `MergeQueueLifecycle.RowsAreKept` | apps/judge/src/judge-merge-queue.ts:165-426 | Rows are never deleted and never change identity; an active row was active before, was just inserted, or was swept |
| `MergeQueueLifecycle.IndexesHoldInEveryRun` | packages/db/src/migrations/0024_graceful_mathemanic.sql:39-42 | At most one active row per pull request and one row ever per (task, run) pair in every reachable state, under racing enqueues and split sweeps |
| `MergeQueueLifecycle.BenignSweepIsNotRefused` | apps/judge/src/judge-merge-queue.ts:276-287 | A recovery none of whose rows finished in the meantime is never refused by the index on active rows |
| `MergeQueueLifecycle.FinishedRowReopensIffStaleSweep` | apps/judge/src/judge-merge-queue.ts:266-287 | A step changes a finished row if and only if it is the update of a recovery that had selected a row which finished since, and the database did not refuse it |
| `MergeQueueLifecycle.FinishedRowsStayFinished` | apps/judge/src/judge-merge-queue.ts:514-646 | Merged and failed rows never change again over runs without such a stale recovery |
| `MergeQueueLifecycle.StepKeepsEscalatedOnce` | apps/judge/src/judge-merge-queue.ts:612-631 | No row's failure is escalated twice, and an escalation is owed only after a finalize wrote `failed` |
| `MergeQueueLifecycle.AtomicRecoveryIsBenign` | apps/judge/src/judge-merge-queue.ts:262-302 | When select and update of a recovery are one step, no recovery is stale |
| `MergeQueueLifecycle.LifecycleHoldsInEveryRun` | apps/judge/src/judge-merge-queue.ts:581-645 | With atomic recovery, in every reachable state: all fences hold, claim fields are set exactly while processing, active rows are below their attempt limit, failed rows exactly at it, merged rows between one and it, escalations at most once per row |
| `MergeQueueLifecycle.BoundsBreakIffExhaustedRowSwept` | apps/judge/src/judge-merge-queue.ts:266-287 | A step breaks the attempt bounds if and only if it is the update of a recovery that had selected a row which finished since on its last attempt, and the database did not refuse it |
| `MergeQueueLease.LeaseHeldThroughoutIff` | apps/judge/src/judge-merge-queue.ts:262-327 | Over runs of any length in which the holder's settings stay and nobody finalizes or releases the row: the claim is held throughout, with no recovery about to take it, if and only if no recovery looks for expired claims at or after the claim's deadline, which every beat moves |
| `MergeQueueLease.HeartbeatKeepsLease` | apps/judge/src/judge-merge-queue.ts:304-344 | So it is held if every beat comes less than the lifetime of a claim after the beat before it, or after the claim, and beats and selects read one clock; up to any moment before the last deadline. Recoveries may run at any time, but none may have selected the row before the claim and still have to write (SweepTakesClaimIff says what such a one does) |
| `MergeQueueLease.HeartbeatKeepsLeaseUpToBeat` | apps/judge/src/judge-merge-queue.ts:304-344 | In particular up to any such beat, with a new deadline a lifetime after it |
| `MergeQueueLease.PunctualHeartbeatKeepsLease` | apps/judge/src/judge-merge-queue.ts:329-344 | Beats late by less than the lifetime minus the interval, measured against the timer's nominal times, are such beats |
| `MergeQueueLease.OnTimeHolderFinalizes` | apps/judge/src/judge-merge-queue.ts:329-344 | Hence the finalize that ends such a processing is applied, and counted once |
| `MergeQueueLease.FirstBeatInTimeIff` | apps/judge/src/judge-merge-queue.ts:329-344 | The heartbeat interval leaves any slack if and only if the lease is longer than the five-second floor; otherwise the lease has run out at the first beat |
| `MergeQueueLease.DelayedStateIsReachable` | apps/judge/src/judge-merge-queue.ts:266-287 | A worker that has selected an expired claim and not yet updated it is reachable |
| `MergeQueueLease.DelayedStateIsDelayed` | apps/judge/src/judge-merge-queue.ts:266-287 | That state: the claim is still the first worker's, and the second worker's update is pending |
| `MergeQueueLease.SplitSweepReopensMergedRow` | apps/judge/src/judge-merge-queue.ts:266-287 | From there a row that was merged goes back to pending with all attempts used: why recovery must be atomic |
| `MergeQueueLease.SplitSweepStealsFreshClaim` | apps/judge/src/judge-merge-queue.ts:266-287 | From there a claim made after the select is taken away long before it expires |
| `MergeQueueLease.SweepTakesClaimIff` | apps/judge/src/judge-merge-queue.ts:266-287 | The update of a recovery takes a claim away, expired or not, if and only if its row had been selected and the database does not refuse the update |
| `MergeQueueJudge.SharedQueue.GetActiveQueueByPrNumber` | apps/judge/src/judge-merge-queue.ts:36-56 | Finds a pending or processing row of the pull request if and only if there is one |
| `MergeQueueJudge.SharedQueue.GetQueueBySourcePair` | apps/judge/src/judge-merge-queue.ts:58-73 | Finds the row of a (task, run) pair if and only if there is one |
| `MergeQueueJudge.SharedQueue.EnqueueMergeQueueItem` | apps/judge/src/judge-merge-queue.ts:165-260 | With other judges acting between its statements: every result with a queue id names a row that existed when read, active for that pull request or of that source pair; an insert refused with neither found means that the new id was taken, or that a row of the pull request was active at the insert and finished when read again |
| `MergeQueueJudge.SharedQueue.RecoverExpiredClaims` | apps/judge/src/judge-merge-queue.ts:262-302 | Requeues, after any steps of other judges, exactly the rows that had expired when it looked, and reports how many; raises, changing no row, if and only if the update would break the index on active rows |
| `MergeQueueJudge.SharedQueue.ReleaseMergeQueueClaimsByOwner` | apps/judge/src/judge-merge-queue.ts:741-758 | Exactly the processing rows of the owner return to pending without claim; every other row is unchanged |
| `MergeQueueJudge.SharedQueue.SelectCandidate` | apps/judge/src/judge-merge-queue.ts:351-363 | The candidate is first in dequeue order among the due rows; none is returned only if none is due |
| `MergeQueueJudge.SharedQueue.ClaimNextPendingQueueItem` | apps/judge/src/judge-merge-queue.ts:346-391 | Comes back empty-handed only when nothing was due or five races were lost; a claim holds the row with a token never issued before |
| `MergeQueueJudge.SharedQueue.ProcessQueueRow` | apps/judge/src/judge-merge-queue.ts:514-646 | Reports `merged` only for a row that this call moved to merged; an exception leaves the worker in the catch block with its claim |
| `MergeQueueJudge.SharedQueue.CatchFailure` | apps/judge/src/judge-merge-queue.ts:683-723 | While the claim is held: one attempt more on that row, status and escalation as the attempts left say, no other row touched; otherwise no row, count or escalation changes |
| `MergeQueueJudge.SharedQueue.ProcessBatch` | apps/judge/src/judge-merge-queue.ts:660-738 | At most three rows, each counted once; the rows counted as merged are distinct and, without a stale recovery, still merged on return |
| `MergeQueueJudge.SharedQueue.ProcessMergeQueue` | apps/judge/src/judge-merge-queue.ts:648-739 | One recovery, then the batch; a recovery refused by the index changes no row and ends it with an exception before any row is processed |
| `RunJudgement.BalancedInEveryRun` | apps/judge/src/judge-retry.ts:243-254 | In every interleaving judgementVersion is the number of judges that won the run, and wins exceed reopenings by one exactly while it is judged |
| `RunJudgement.WinsAreSeparated` | apps/judge/src/judge-retry.ts:243-254 | Two wins of one run have a reopening between them |
| `RunJudgement.OneWinnerPerOpening` | apps/judge/src/judge-retry.ts:243-254 | Of any number of judges claiming an open run, while nobody reopens it, exactly one wins |
| `RunJudgement.AtomicRecoveryOpensOneRun` | apps/judge/src/judge-retry.ts:152-235 | Checks and update in one step: the recovered run becomes the only open run of its task, no other run changes, and nothing of the task is being merged |
| `RunJudgement.RecoveryReopensDuringMergeIff` | apps/judge/src/judge-retry.ts:215-224 | The recovery's update reopens a run whose task is being merged if and only if it is late: the run it was told to clear is judged and its task has a pending or processing merge row by then |
| `RunJudgement.OnlyRestoresReopenDuringMergeIff` | apps/judge/src/judge-retry.ts:152-235 | Over runs of any length: while a task has a pending or processing merge row only explicit restores reopen runs of it, if and only if no recovery is late |
| `RunJudgement.AtomicRecoveriesAreNotLate` | apps/judge/src/judge-retry.ts:152-235 | A recovery whose update directly follows its checks is never late |
| `RunJudgement.LateRecoveryReopensDuringMerge` | apps/judge/src/judge-retry.ts:152-224 | With the checks and the update apart, a run enqueued for merging in between is reopened all the same |
| `JudgementRetry.JudgementTables.ClaimRunForJudgement` | apps/judge/src/judge-retry.ts:243-254 | Wins if and only if the run is finished and unjudged; a win is logged, sets judgedAt and adds one to the version, a loss changes nothing |
| `JudgementRetry.JudgementTables.ScheduleTaskForJudgeRetry` | apps/judge/src/judge-retry.ts:74-119 | Writes the retry count it read plus one, and on request clears judgedAt, in separate statements |
| `JudgementRetry.JudgementTables.LatestRecoverable` | apps/judge/src/judge-retry.ts:197-213 | The latest successful run of the task with a judgeable artifact, or none if there is none |
| `JudgementRetry.JudgementTables.RecoverTask` | apps/judge/src/judge-retry.ts:151-237 | Recovers a stuck task if and only if no merge row is active, no run is waiting, and a run can be judged; otherwise changes nothing |
| `JudgementRetry.JudgementTables.RecoverAwaitingJudgeBacklog` | apps/judge/src/judge-retry.ts:125-241 | Returns the number of updates made; none when no task was stuck, and with nothing done between checks and update each update directly follows its checks |
| `TaskDependencies.SanitizeTaskDependencyIndexes` | apps/planner/src/task-policies.ts:692-733 | The cleaned lists, and the number of tasks whose list changed |
| `TaskDependencies.SanitizedIsBackward` | apps/planner/src/task-policies.ts:692-712 | Every kept index is below its task, without duplicates, and every proposed index below its task is kept |
| `TaskDependencies.LengthTellsChange` | apps/planner/src/task-policies.ts:710-713 | Comparing lengths detects exactly the lists that needed correction |
| `TransitiveReduction.CanReach` | apps/planner/src/task-policies.ts:747-766 | For any plan, cyclic or not: begun with only its start visited, the search with its shared visited set finds the target if and only if it is reachable in the lists as they stand; a negative search has expanded every node it visited and met no edge to the target |
| `TransitiveReduction.ReduceInPlace` | apps/planner/src/task-policies.ts:770-795 | For any plan: each list loses exactly the dependencies another of its dependencies leads to in the lists as they stand at its turn, and exactly the edges lost are counted |
| `TransitiveReduction.ReduceRedundantDependencyIndexes` | apps/planner/src/task-policies.ts:735-805 | The plan itself when no edge is lost, else the rewritten lists, which for a plan that goes backward are its reduction; the reported number is the number of edges lost |
| `TransitiveReduction.InPlaceIsReduction` | apps/planner/src/task-policies.ts:770-795 | For a plan that goes backward, rewriting list by list gives what reducing every list by the plan that came in gives |
| `TransitiveReduction.ReductionKeepsReachability` | apps/planner/src/task-policies.ts:735-805 | Reduction keeps reachability between every pair of tasks |
| `TransitiveReduction.ReductionIsLeast` | apps/planner/src/task-policies.ts:735-805 | Every graph with the same reachability contains the reduction: it is the unique transitive reduction |
| `TransitiveReduction.NoEdgeIsRedundant` | apps/planner/src/task-policies.ts:780-790 | Removing any remaining edge disconnects its two tasks |
| `TransitiveReduction.CycleLosesBothEdges` | apps/planner/src/task-policies.ts:780-790 | Why the plan is sanitised first: run on a plan with a cycle, the code would drop both of two dependencies that imply each other |
| `PlanSaving.ApplyHotFilePlanning` | apps/planner/src/hot-file-planning.ts:70-126 | Adds the ids of overlapping backlog tasks, each once; the count is the number of tasks that overlap with the backlog, and none means no change |
| `PlannerRunner.HotFileEdgesIff` | apps/planner/src/hot-file-planning.ts:95-123 | A task depends on a backlog task afterwards if and only if it did before or overlaps it |
| `PlanSaving.SyncEdgesIff` | apps/planner/src/requirement-sync-task.ts:48-78 | After injection task k+1 depends on j+1 if and only if task k depended on j, and on 0 always |
| `PlanSaving.SyncKeepsBackward` | apps/planner/src/requirement-sync-task.ts:48-78 | Injection keeps every dependency below its task |
| `PlanSaving.SyncKeepsReachability` | apps/planner/src/requirement-sync-task.ts:48-78 | Injection changes no path between the tasks that were there |
| `TaskTable.Table.SaveTasks` | apps/planner/src/planner-tasks.ts:12-55 | One new row per task with its dependencies, old rows unchanged |
| `TaskTable.Table.ResolveDependencies` | apps/planner/src/planner-tasks.ts:58-96 | Every saved row ends with its own dependencies and the ids of its dependency indexes, no other row changes |
| `TaskTable.SavedReachability` | apps/planner/src/planner-tasks.ts:58-96 | The saved rows are connected exactly as the planned tasks are |
| `TaskTable.SavedTableIsAcyclic` | apps/planner/src/planner-tasks.ts:12-96 | Saving a backward plan under fresh ids keeps an acyclic table acyclic |
| `PlannerRunner.PlanTasks` | apps/planner/src/planner-runner.ts:189-228 | Sanitise, reduce and hot-file planning give a backward plan with the edges of the reduced sanitised proposal, and new row ids only from the backlog |
| `PlannerRunner.PlanCarriesOver` | apps/planner/src/planner-runner.ts:189-228 | Reachability among the saved rows equals reachability in the sanitised proposal |
| `PlannerRunner.SyncedPlanCarriesOver` | apps/planner/src/planner-runner.ts:510-525 | So it does with an injected sync task, on which every other saved row depends directly |
| `PlannerRunner.PlanAndSave` | apps/planner/src/planner-runner.ts:500-660 | The whole pipeline: an acyclic table stays acyclic, the proposal's reachability carries over, and the sync task is injected exactly when the plan has none |
| `PluginLoader.TopologicalSort.Visit` | packages/plugin-sdk/src/loader.ts:37-63 | The marked depth-first search terminates; a visited plugin ends sorted or with an error, and every error is of an unsound plugin |
| `PluginLoader.TopologicalSort.Sort` | packages/plugin-sdk/src/loader.ts:28-69 | Sorted are exactly the plugins from which every requires-path stays inside the candidates and never closes a cycle, each after what it requires; all others have an error |
| `PluginGraph.TopologicalIsSound` | packages/plugin-sdk/src/loader.ts:28-69 | A plugin listed after all it requires has only paths that stay inside and are free of repetition |
| `PluginGraph.AllSoundIffClosedAndAcyclic` | packages/plugin-sdk/src/loader.ts:28-69 | All plugins are sound if and only if the requires graph is closed and acyclic |
| `PluginLoader.DistinctParts` | packages/plugin-sdk/src/loader.ts:21-25 | The filter holds exactly the nonempty trimmed ids between the commas, each once |
| `PluginLoader.SelectCandidates` | packages/plugin-sdk/src/loader.ts:79-124 | Candidates are the first of their id, requested and compatible; every manifest is a candidate or has one inventory item that is not enabled |
| `PluginLoader.RequestedIff` | packages/plugin-sdk/src/loader.ts:17-26 | A plugin takes part if and only if the list is missing or blank or names its id |
| `PluginLoader.LoadPlugins` | packages/plugin-sdk/src/loader.ts:71-179 | For the list of enabled plugins as given in the environment: enabled are exactly the sound candidates, in topological order; every manifest and every unknown requested id has exactly one inventory entry, marked enabled exactly for the enabled plugins |
| `PluginLoader.ManifestOrderIrrelevant` | packages/plugin-sdk/src/loader.ts:71-179 | For manifests with distinct ids the candidates and their requirements do not depend on the manifest order |
| `PluginValidate.CheckDependencyCycles` | scripts/plugin-validate.ts:210-243 | No complaint if and only if the requires graph is closed and acyclic, that is if and only if every plugin is sound |
| `PluginValidate.ValidatorAgreesWithLoader` | scripts/plugin-validate.ts:210-243 | Of plugins with distinct ids the loader enables all if and only if the validator is silent and each is requested and compatible; so, without a list of enabled plugins and with matching versions, if and only if the validator is silent |
| `JsonScanner.ExtractBalancedObjectCandidates` | apps/planner/src/json-response.ts:22-76 | The index loop finds exactly what the recursive scan finds |
| `JsonScanner.CandidatesAreTheObjectsCutOut` | apps/planner/src/json-response.ts:22-76 | For any text: the candidates are the disjoint ordered substrings, each one whole object closed by its last brace and balanced outside strings, with no object in what is left - and nothing else is |
| `JsonScanner.PrintedObjectIsOne` | apps/planner/src/json-response.ts:22-76 | An object printed by sections 4 and 7 of RFC 8259, with any white space and any escapes, is one object to the scan: no brace in a string ends it |
| `JsonScanner.PrintedObjectsAreRecovered` | apps/planner/src/json-response.ts:22-76 | Printed objects with prose around and between them are returned exactly, in order |
| `JsonResponse.CollectJsonCandidates` | apps/planner/src/json-response.ts:78-97 | The trimmed non-blank candidates, each once, in the order code blocks, objects, whole text |
| `JsonResponse.DedupKeepsChoice` | apps/planner/src/json-response.ts:86-96 | Dropping repetitions never changes which candidate is chosen |
| `JsonResponse.ExtractJsonObjectFromText` | apps/planner/src/json-response.ts:99-121 | Returns the first candidate that parses and passes the guard, or fails when none does |
| `JsonResponse.FirstAcceptableObjectIsReturned` | apps/planner/src/json-response.ts:99-121 | An answer of prose and printed objects yields its first acceptable code block, whatever its code blocks are, and if none is acceptable its first acceptable object |
| `RequirementParser.ExtractSection` | apps/planner/src/parser.ts:41-75 | The line loop with its flags returns the trimmed lines under the first heading of that name, up to the next heading that is high enough |
| `RequirementParser.ExtractListItems` | apps/planner/src/parser.ts:78-91 | The captured list items, line by line |
| `RequirementParser.ExtractPaths` | apps/planner/src/parser.ts:138-163 | Paths in backticks, or list items that look like paths, with escaped wildcards restored |
| `RequirementParser.ParseRiskTable` | apps/planner/src/parser.ts:166-205 | The risk rows, without the header row |
| `RequirementParser.FirstNonEmptyLine` | apps/planner/src/parser.ts:98-114 | The first line that is neither blank nor a heading, without bullet and check box |
| `RequirementParser.ParseRequirementContent` | apps/planner/src/parser.ts:214-246 | All fields from their sections, with the fallbacks |
| `RequirementParser.DetectMissingRequirementFields` | apps/planner/src/parser.ts:248-287 | The absent fields in reporting order |
| `RequirementMarkdown.FormatRequirementMarkdown` | apps/planner/src/requirement-markdown.ts:19-58 | The pushed lines, joined, trimmed and ended with a line feed |
| `LinePatterns.PlannedMatch` | apps/planner/src/parser.ts:48-167 | A way through a pattern in which every part takes all it can, or gives back one character the next part needs, is what backtracking finds |
| `LinePatterns.NeedsWord` | apps/planner/src/parser.ts:172-172 | A pattern with an alternative of words matches no line without one of them |
| `RequirementLines.HeadingIsRead` | apps/planner/src/parser.ts:49-53 | A printed heading is read with its level and name |
| `RequirementLines.PlainItemIsReadIff` | apps/planner/src/parser.ts:83-87 | A printed trimmed one-line item is read back whole if and only if it does not begin with x, X or a bracket, or is nothing but that character |
| `RequirementLines.CheckboxItemIsRead` | apps/planner/src/parser.ts:83-87 | A printed check-box item is read back whole |
| `RequirementLines.BacktickedPathIsRead` | apps/planner/src/parser.ts:144-149 | A printed path is read back, unless it escapes a wildcard |
| `RequirementLines.RiskRowIsRead` | apps/planner/src/parser.ts:172-201 | A printed risk row is read back, also with empty cells |
| `RequirementDocument.SectionOfDocument` | apps/planner/src/parser.ts:41-75 | In a document of headings and bodies the section of a name is the body under its first heading and what lower headings add |
| `RequirementRoundTrip.RoundTrip` | apps/planner/src/requirement-markdown.ts:19-58 | Reading back what was written gives every field, texts trimmed, blanks replaced by the printed placeholders, no path read as every path |
| `RequirementRoundTrip.RoundTripIsExactIffComplete` | apps/planner/src/parser.ts:214-246 | A well-formed requirement comes back unchanged, but for rawContent, if and only if no field is blank and no text has white space around it |
| `RequirementRoundTrip.OnlyPathsAndRisksCanBeMissing` | apps/planner/src/parser.ts:248-287 | In a written file only the allowed paths and the risks are ever reported missing, each exactly when there were none |
| `RateLimit.MemoryRateLimiter.Cleanup` | apps/api/src/middleware/rate-limit.ts:25-32 | Removes exactly the entries whose window has ended |
| `RateLimit.MemoryRateLimiter.Increment` | apps/api/src/middleware/rate-limit.ts:73-86 | Counts in the running window, or begins one when there is none or it has ended |
| `RateLimit.MemoryRateLimiter.Admit` | apps/api/src/middleware/rate-limit.ts:174-193 | Admits exactly while the window's count is within the limit; the last admitted request leaves nothing |
| `RateLimit.CleanupChangesNoAnswer` | apps/api/src/middleware/rate-limit.ts:25-32 | With a clock that never goes back, running the cleanup at any moments changes no decision |
| `RateLimit.FewerThanTwiceTheLimit` | apps/api/src/middleware/rate-limit.ts:73-193 | From a fresh start, whatever all clients do: no closed interval as long as a window lets more than 2*max-1 requests of one client through |
| `RateLimit.BoundIsReached` | apps/api/src/middleware/rate-limit.ts:73-193 | 2*max-1 requests do get through within one millisecond |
| `RateLimit.LimitHoldsIff` | apps/api/src/middleware/rate-limit.ts:73-193 | No closed interval as long as a window ever lets more than the maximum through if and only if the maximum is at most one or the window has no length |
| `StageChanges.StageChanges` | packages/vcs/src/git.ts:349-482 | The loop makes exactly the adds, and ends with exactly the outcome, of the recursive description |
| `StageChanges.SuccessCoversEveryPath` | packages/vcs/src/git.ts:385-461 | On success every requested path was part of an add git accepted, or is recorded as ignored or as missing and untracked |
| `StageChanges.BehavedGitNeedsFewAdds` | packages/vcs/src/git.ts:366-481 | If git names only paths it was given and add -A never misses a tracked path: at most n+1 adds, and neither the retry limit nor a round without progress is met |
| `StageChanges.LimitIsMet` | packages/vcs/src/git.ts:473-481 | Without that assumption the retry limit is met |
| `GlobPattern.CompileGlob` | apps/planner/src/inspection.ts:157-180 | The index loop that skips ahead writes the regular expression of the recursive description |
| `GlobPattern.CompiledIsRead` | apps/planner/src/inspection.ts:157-180 | The text, read by the grammar of section 22.2.1 of ECMA-262, has exactly the glob's terms: no character of the glob turns into syntax |
| `GlobPattern.MatchPath` | apps/planner/src/inspection.ts:157-180 | Matches if and only if the glob fits with its wildcards standing for UTF-16 code units, ** and ? not covering line terminators |
| `GlobPattern.MatchedIsMeantIff` | apps/planner/src/inspection.ts:157-180 | Whatever a compiled glob matches of a path, the glob means, for all globs, if and only if the path has no character outside the basic plane |
| `GlobPattern.GlobsMeanAlikeIff` | apps/planner/src/inspection.ts:157-180 | Every compiled glob means on a path what the glob means, its wildcards standing for characters, if and only if the path has no line terminator and no character outside the basic plane |
| `GlobPattern.UnmarkedGlobsMeanAlikeIff` | apps/planner/src/inspection.ts:157-180 | For the globs without ? if and only if the path has no line terminator |
| `GlobPattern.LineBreakIsRefused` | apps/planner/src/inspection.ts:157-180 | A path with a line break that is refused by `**` |
| `GlobPattern.MarkTakesHalf` | apps/planner/src/inspection.ts:173-176 | A character outside the basic plane is refused by `?` and matched by `??` |
| `GlobPattern.DirectoryAllowsItsFiles` | apps/planner/src/inspection.ts:147-155 | An allowed directory written with a slash allows exactly the paths below it whose rest has no line terminator |
| `GlobPattern.FilterFilesByAllowedPaths` | apps/planner/src/inspection.ts:189-206 | Exactly the files some allowed path matches and the allowed paths that match none, in order; an empty list allows everything |
| `QuotaRetry.DeterministicJitter` | packages/core/src/quota-retry.ts:103-113 | The 32-bit hash of the seed modulo the bound, hence never above it |
| `QuotaRetry.ComputeQuotaBackoff` | packages/core/src/quota-retry.ts:133-167 | Without a positive hint the wait lies between the clamped delays with the jitter within its share; with one it is the longer of hint and backoff, unjittered |
| `QuotaRetry.ExponentialGrowsOverall` | packages/core/src/quota-retry.ts:144-144 | More retries never shorten the backoff |
| `QuotaRetry.MaxDelayIsReached` | packages/core/src/quota-retry.ts:144-144 | After finitely many retries the longest delay is reached and kept |
| `QuotaRetry.ClockRetryDelayMs` | packages/core/src/quota-retry.ts:40-62 | The delay is positive, at most a day, and the first moment the clock shows the stated time |
| `EnvExport.EncodedHasNoBreak` | scripts/export-config-to-env.ts:177-185 | An encoded value never contains a line break |
| `EnvExport.ReplaceConfigLines` | scripts/export-config-to-env.ts:187-223 | The map over the lines with its set of remaining keys writes the described file and reports the described keys |
| `EnvExport.EveryKeyIsUpdatedOnce` | scripts/export-config-to-env.ts:191-217 | The reported keys are the configuration keys, each once |
| `EnvExport.LinesStayOrAreReplaced` | scripts/export-config-to-env.ts:195-205 | The first line of a key becomes its encoded value, every other line stays as it is |
| `EnvExport.ContentLines` | scripts/export-config-to-env.ts:219-222 | Reading the new file gives its lines back in order, without trailing blank lines and carriage returns at line ends |
| `EnvExport.EveryKeyIsWritten` | scripts/export-config-to-env.ts:187-223 | In the new file the first line that sets a configuration key sets it to its encoded value |
| `EnvExport.TwiceIsOnceIffNoStrayCr` | scripts/export-config-to-env.ts:187-223 | Writing the same configuration again changes nothing if and only if every line of the file that ends in two carriage returns before its line feed, or in one at the end of the file, is the first line of a configuration key |
| `EnvExport.LastCrIsLostSecond` | scripts/export-config-to-env.ts:187-223 | A file that ends in a carriage return loses it only when written a second time |

## Left out

Of the modelled components:

- `updatedAt` columns, event records, warnings, log lines and the text of messages.
- The merge queue: the blank-token check in `processQueueRow` and `processMergeQueue` (a claim always writes a token), the contents of an escalation, the documentation follow-up after a merge, exceptions of the database other than a refused index, and exceptions raised inside the catch block. Nothing in the repository calls `releaseMergeQueueClaimsByOwner`; it is modelled as a step any process may take.
- JudgementRetry.JudgementTables.RecoverTask: does not model steps of others between its reads, because the theorems need checks and update to be one step anyway; the update is modelled apart from the reads.
- Judging runs: parsing the pull-request number out of an artifact reference, and what judges decide about a run.
- Planning: how path overlap and target areas are computed (an oracle), the policies that only rewrite paths, commands and roles, and `ensureInitializationTaskForUninitializedRepo`.
- TransitiveReduction.CycleLosesBothEdges: does not say which plans with cycles keep their reachability; the planner sanitises first, so its plans go backward, and for those ReductionKeepsReachability holds.
- PluginLoader.LoadPlugins: does not model the final sort of the inventory by `localeCompare`, whose order depends on the locale; its contents are stated as a multiset. The compatibility check is equality of API versions.
- PluginValidate.CheckDependencyCycles: takes manifests whose `requires` is a list of strings; the shape checks of the validator are not part of this model.
- JsonResponse.CollectJsonCandidates: takes the fenced code blocks as an argument and the text after control characters and ANSI sequences have been removed.
- JsonResponse.ExtractJsonObjectFromText: does not model the parse error quoted in its message.
- RequirementParser: lower-casing is exact as far as ASCII results go, which is all that comparisons with section names and with `risk` need; other letters are left as they are.
- RequirementMarkdown.FormatRequirementMarkdown: takes the impact of a risk as one of the three values of its type.
- RateLimit: skipped paths, client identification and response headers other than the remaining count, the Redis store, and switching between stores.
- StageChanges.StageChanges: takes what the patterns extract from git's messages as git's answer, and does not model the collected output texts.
- GlobPattern.MatchPath: the reader of regular expressions covers the constructs a compiled glob can contain and refuses all others.
- QuotaRetry.ComputeQuotaBackoff: arithmetic is exact; floating-point rounding is not modelled, and delays are finite numbers.
- QuotaRetry.ClockRetryDelayMs: takes a fixed offset from UTC, so a change to or from daylight saving time during the wait is not modelled, nor is finding the time in the message.
- Strings are sequences of Unicode scalar values: a character outside the basic plane is one character here and two UTF-16 units in the source. GlobPattern and the jitter hash of QuotaRetry work on the units; the rest only looks for characters of the basic plane, which no half of another is. Lone surrogates, which `JSON.stringify` would escape, do not occur.

Of the repository: dispatcher lanes and leases, cycle-manager requeueing, judge evaluators, plugin internals, the runtime lock file of tasks (its takeover of stale locks is not atomic, so it has no mutual-exclusion theorem), matching conflict auto-fixes by title prefix, prompts, dashboard, routes and authentication: lookups and plumbing, or code without a clean statement to prove.
