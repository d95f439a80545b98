# A verified model of the n8n workflow back end

n8n runs workflows as executions. An execution can wait, be resumed by another process, start
sub-workflows that wait for each other, and use credentials whose types inherit from one another.
This project models the parts of the back end where that goes through shared, mutable state, and
proves what they keep under every order of events.

* **Resuming a waiting execution.** Several processes share one database row per execution. A
  waiting row is taken over by a conditional update. `ResumeProtocol` is the transition system of
  that row, of whoever runs the execution, and of every flow that tries to resume it, split where
  the code awaits, with failures that may or may not have taken effect. On it, `ResumeExecutors`
  proves who runs the execution and when a cancellation is final, `ResumeFlows` what a flow achieves,
  `ResumeData` where the data of a waiting row comes from, and `ResumeResults` that it shows a
  child's result; `ResumeRuns` holds runs in which such things fail. `ParentPatch` is what a finished
  child writes into its waiting parent. `ResumeFlow` has one method for each awaited segment of the
  code, each proved to be a step of that system. `ExecutionStore` and `WaitTracker` are the store,
  the timers and the retry loops as methods on mutable objects.
* **The registry of active executions** (`CapacityProtocol`, `ActiveExecutions`) and the queue
  behind the concurrency limit (`ConcurrencyQueue`). Entries are objects: the registry addresses
  them by execution id, their settle handlers by identity.
* **Credential overwrites** (`TypeHierarchy`, `CredentialTypes`, `OverwriteMerge`, `OverwriteForks`,
  `OverwriteRewrite`, `CredentialsOverwrites`). A worklist that grows while it is iterated, a memo whose contents
  depend on key order, and a table rewritten in place.
* **The OAuth base-type search** (`ProxyAuth`), **credential repair** with a shared cache
  (`CredentialRepair`), **the activation retry queue** (`RetrySchedule`, `ActivationQueue`) and
  **nested deadlines** (`Deadlines`).

Objects whose methods change fields are classes here, and each method is proved against a function
of the old state; the theorems are about those functions and about runs, which are sequences of
events applied one after another. Set iteration (`x :| x in s`) stands for an object's key order,
so what is proved holds in any key order.

## What the code does not guarantee

Several properties one might expect are false of the code. Each is kept as the code has it, with the
exact condition and a run from the start, or an input, that shows the failure.

* A flow that ends without error leaves a wait of the parent taken over or cancelled exactly if that
  wait has begun, that is, if the parent has been saved as waiting for it by then
  (`EndedFlowsLeaveParentClaimed`). A child that reports before its own wait is saved is lost, in the
  first wait and in every later one (`EarlyReportIsLost`).
* A waiting row or a takeover comes to hold data of an earlier wait exactly if a patch write or a claim
  takes effect on a waiting row with data read in an earlier wait; the claim compares no more than the
  status, the patch write nothing (`OwnDataExactlyWhen`). A leftover claim does so in
  `LeftoverFlowOverwritesSecondWait`, a leftover patch write in `LatePatchReplacesSecondWait`, after
  which even an up-to-date claim writes the first wait's data into the second.
* A resumed parent need not show a child's result if it is resumed directly, by a child without a
  result or with an empty stack (`UnpatchedClaim`), by a child of another wait
  (`ChildOfAnotherWaitClaims`), or by a child that began to report before the parent was saved
  (`EarlyReaderSkipsItsPatch`). Without these it always does (`ResumedParentCarriesChildResult`).
* A row marked as running has nobody running it exactly if, since its last wait began, whoever was about
  to run it outside a worker was told that a write of that status had failed, or a claim was committed
  and reported as failed before the execution was registered, or whoever ran it ended without saving
  (`AtMostOneExecutes`). After such a claim the retry takes the row for resumed by someone
  else (`LostClaimLeavesNobodyRunning`); the creator can lose its row in the same way
  (`LostStatusWriteLeavesNobodyRunning`).
* A cancelled row stays cancelled whatever happens exactly if its creator has started the execution, or
  has been taken out of the queue, and whoever still runs it has already marked it as running and runs
  it in the main process (`CancellationIsFinalExactlyWhen`). So a run stopped in the main process stays
  cancelled (`StoppedInMainProcess`), but one that had not been started yet runs all the same
  (`CancelledBeforeItsStart`), and a worker's last save overwrites the cancellation
  (`WorkerOverwritesCancellation`).
* A capacity slot is orphaned exactly when a step drops an entry that still holds one and has not
  settled (`OrphansExactlyWhenGuarded`, `StopWhileWaitingOrphans`).
* Removing a queued execution keeps the concurrency limit exactly if nobody else is queued
  (`LimitSurvivesExactlyWhen`, `RemovalExceedsLimit`). The comment on the service's `remove` says that
  it releases capacity; a queued execution holds none, and the code lets the next one through
  regardless.
* A live activation timer loses its handle exactly when a failing retry finds an entry whose timer
  is still live (`TimersHeldExactlyUnlessLeaked`, `RequeueDuringRetryLeaks`).
* After a leader steps down and takes over again, a due execution gets a timer exactly if it was
  not tracked before (`NewTermLeavesTrackedUnarmed`). Stepping down leaves no timer armed exactly if
  every armed one is still some entry's (`StopTracking`, `StartedTimerSurvivesStepDown`).
* Rewriting the table need not store the full merge. Of two keys below a type that has no entry itself,
  the one visited later is complete exactly if it defines all fields from above itself
  (`LaterSiblingIsIncomplete`). Keys that share no more of their chain with other keys than types
  without parents always are (`Rewritten`, in the contract of `SetPlainData`), and lookups do not
  depend on it (`Get`).
* Rewriting the entry of a type with two parents from their merges keeps the answer of its lookup
  exactly if the parents agree on every field they share and the type does not define, except for
  fields that the second parent defines and the first only inherits (`TwoParentsAgreeExactlyWhen`). If
  they agree on all of them, the answer is kept in any order of rewriting
  (`AgreeingParentsAnswerAlike`).

## Model

| member | source | states |
|---|---|---|
| ResumeProtocol.EachPeriodClaimedOnce | packages/cli/src/active-executions.ts:123-153 | in every run, with any number of processes, timers, polls, webhooks and child flows, no waiting period is taken over twice |
| ResumeExecutors.AtMostOneExecutes | packages/cli/src/active-executions.ts:115-157 | in every run at most one process runs the execution and none while it waits; a row marked as running has nobody running it exactly if, since its last wait began, a status write before the engine was reported as failed outside a worker, a claim was committed and reported as failed before registering the execution, or whoever ran it ended without saving |
| ResumeExecutors.LostStatusWriteLeavesNobodyRunning | packages/cli/src/workflow-runner.ts:473 | runs in which the creator's own status write, or the one before the engine starts, is committed and reported as failed, leaving the row running with nobody running it |
| ResumeExecutors.LostClaimLeavesNobodyRunning | packages/cli/src/wait-tracker.ts:164-170 | a run in which a claim is committed and reported as failed, and the retry ends without error with nobody running the execution |
| ResumeExecutors.CancellationIsFinalExactlyWhen | packages/cli/src/execution-lifecycle/execution-lifecycle-hooks.ts:667-684 | in every run a cancelled row stays cancelled in all continuations exactly if its creator has started it or been withdrawn, and whoever runs it has made its one status write and runs it in the main process, whose saves spare a cancelled row |
| ResumeExecutors.StoppedInMainProcess | packages/cli/src/executions/execution.service.ts:724-740 | an execution stopped while it runs in the main process stays cancelled in every continuation |
| ResumeExecutors.WorkerOverwritesCancellation | packages/cli/src/execution-lifecycle/execution-lifecycle-hooks.ts:783-789 | an execution stopped while a worker runs it can end as successful |
| ResumeExecutors.CancelledBeforeItsStart | packages/cli/src/active-executions.ts:119-121 | an execution cancelled before its creator starts it runs all the same |
| ResumeExecutors.SavesShow | packages/cli/src/execution-lifecycle/execution-lifecycle-hooks.ts:660-684 | what a run saves as progress, as waiting or as its end is in the row, and nobody runs it after its last save, unless the row was cancelled and the save spares it |
| ResumeExecutors.StartsShow | packages/cli/src/workflow-runner.ts:473 | starting, withdrawing and marking show on the row and say who runs it |
| ResumeExecutors.CancellationShows | packages/cli/src/executions/execution.service.ts:724-740 | a cancellation shows at once, with its data, and leaves the run to itself |
| ResumeRuns.WholeLife | packages/cli/src/wait-tracker.ts:120-229 | a run from the start through a wait, patch, resume and progress to a successful end with the data of the end |
| ResumeResults.ResumedParentCarriesChildResult | packages/cli/src/wait-tracker.ts:120-222 | however the children's reads, patch writes, re-reads and claims interleave and fail, and whatever is left over from other waits, every takeover writes what was saved for that wait, patched by reported children, and its stack head shows the output or the error of some child of that wait |
| ResumeFlows.EndedFlowsLeaveParentClaimed | packages/cli/src/wait-tracker.ts:194-229 | at the step that ends a flow without error, a wait of the parent is taken over or cancelled exactly if the parent had been saved as waiting for it by then, and it stays so for the rest of the run |
| ResumeFlows.FlowsEnd | packages/cli/src/wait-tracker.ts:238-252 | no step group is tried more often than allowed, and every flow has ended after twelve of its steps, whatever fails and whoever interferes |
| ResumeFlows.GivesUpExactlyWhen | packages/cli/src/wait-tracker.ts:194-252 | in every run, with any interference, a flow gives up exactly if a step fails for good, its step group has failed three times (once for a direct resume), or the row is found finished; any other failure starts the group over |
| ResumeFlows.SuccessLeadsOn | packages/cli/src/workflow-helpers.ts:487-571 | a successful step leads from reading to the patch of what was read, to its storage, to reading again, to the claim and to the end, and says what it does to the row |
| ResumeFlows.FailedStepMayHaveWritten | packages/cli/src/wait-tracker.ts:238-252 | a step reported as failed has stored its patch or taken the row over exactly if it took effect |
| ResumeProtocol.StepKeepsRow | packages/cli/src/active-executions.ts:138-148 | every single step keeps the claim and executor invariants, never undoes the resolution of a period, and never lowers the period |
| ResumeResults.StepKeepsCarry | packages/cli/src/workflow-helpers.ts:501-571 | every orderly step keeps: a flow past its own patch, the row it reads and the snapshot it will claim with show a child's result for as long as the row waits |
| ResumeFlows.EarlyReportIsLost | packages/cli/src/workflow-helpers.ts:501-503 | from every state a run reaches in which an engine runs the parent, a child that reports before the parent is saved as waiting for it ends without error and leaves the parent waiting, with that wait neither taken over nor cancelled |
| ResumeData.OwnDataExactlyWhen | packages/cli/src/active-executions.ts:131-148 | in every run waiting rows and takeovers hold data of their own wait at all times exactly if no patch write or claim takes effect on a waiting row with data read in another wait |
| ResumeData.StepOwnData | packages/cli/src/workflow-helpers.ts:569-571 | a single step, patch write or claim, puts data of another wait into a waiting row or a takeover exactly if the wait recorded with the data differs from the row's |
| ResumeData.TakeoversPatchOwnWait | packages/cli/src/workflow-helpers.ts:501-571 | in runs without such steps every takeover writes what was saved for its own wait, patched by reported children one after another |
| ResumeData.RunKeepsDerived | packages/cli/src/workflow-helpers.ts:552-571 | in every run data traced to a wait, in the row, in a pending write or in a takeover, is what was saved for that wait, patched by reported children |
| ResumeData.SavedByPark | packages/cli/src/execution-lifecycle/execution-lifecycle-hooks.ts:660-684 | what counts as saved for a wait is what some step of the run saved to begin it |
| ResumeData.PendingRemembersItsRead | packages/cli/src/wait-tracker.ts:125-146 | in every run the data a flow is about to write is what its last step read from the row, patched by its child if it is a patch, with the wait the row was in at that read |
| ResumeRuns.UnpatchedClaim | packages/cli/src/wait-tracker.ts:120-152 | a timer or webhook, a child without a result, or an empty stack: the takeover writes the data as it was saved, without any child's result |
| ResumeRuns.ChildOfAnotherWaitClaims | packages/cli/src/wait-tracker.ts:194-222 | a child of another wait: the takeover shows no result of a child of the present one |
| ResumeRuns.EarlyReaderSkipsItsPatch | packages/cli/src/workflow-helpers.ts:501-503 | a child that begins to report before its wait is saved skips its patch and still takes that wait over, with the data as it was saved |
| ResumeRuns.LastPatchWins | packages/cli/src/workflow-helpers.ts:476-481 | of two children that have read the same waiting parent the later write remains, and both get ready to claim with it |
| ResumeRuns.LeftoverFlowOverwritesSecondWait | packages/cli/src/active-executions.ts:131-143 | a run from the start in which a leftover flow takes the second wait over and replaces its data by the first wait's |
| ResumeRuns.LatePatchReplacesSecondWait | packages/cli/src/workflow-helpers.ts:569-571 | a run from the start in which a leftover patch write replaces the second wait's data by the first wait's, which is then taken over by an up-to-date claim |
| ResumeRuns.LatePatchChangesFinishedData | packages/cli/src/workflow-helpers.ts:569-571 | a patch written after the run has been saved as finished replaces the saved data |
| ParentPatch.PatchIdempotent | packages/cli/src/workflow-helpers.ts:501-571 | applying a child's patch twice in a row equals applying it once |
| ParentPatch.FlagsAreUnion | packages/cli/src/workflow-helpers.ts:515-526 | after any sequence of children the usage flags on the stack head are the union of the initial ones and all reports |
| ParentPatch.WaitingTaskAccumulates | packages/cli/src/workflow-helpers.ts:531-541 | flags reported while a waiting task exists are set on that task as well, and its output is left alone |
| ParentPatch.LatestOutcomesWin | packages/cli/src/workflow-helpers.ts:552-566 | the resume error is the latest failing child's and never cleared; the input is the latest successful child's output |
| ParentPatch.LatestLinksWin | packages/cli/src/workflow-helpers.ts:519-560 | the reported user and the linked child execution are the latest reported ones |
| ParentPatch.PatchesKeepTheRest | packages/cli/src/workflow-helpers.ts:505-549 | the runtime data names the latest reported user and the rest of the stack is untouched |
| ParentPatch.PatchesKeepRunData | packages/cli/src/workflow-helpers.ts:531-541 | after any number of children the parent's run data has the same nodes, other nodes keep their tasks, and the waiting node keeps all tasks but the flags of its last one |
| ParentPatch.GetLastExecutedNodeData | packages/cli/src/workflow-helpers.ts:83-116 | the last run of the last executed node, with pinned data instead in manual mode, and nothing exactly if that node has no run |
| ParentPatch.SummarizeUsage | packages/workflow/src/dynamic-credentials-helpers.ts:33-52 | each flag is reported exactly if some task of the run carries it; the user is reported exactly if there is actual usage and a non-empty name |
| ExecutionStore.ExecutionPersistence.UpdateExistingExecution | packages/cli/src/executions/execution-persistence.ts:227-254 | the write happens exactly if the row exists and meets the required status, not-finished and not-cancelled conditions, and changes only the given parts; the two status conditions together are an error, and an empty update is reported as done |
| ExecutionStore.UpdateParentExecutionWithChildResults | packages/cli/src/workflow-helpers.ts:487-572 | patches the row exactly if it waits, its stack is not empty and the child has a result; no other row changes |
| WaitTracker.WithRetry | packages/cli/src/wait-tracker.ts:238-252 | calls at most the allowed number of times, all but the last failing retryably, stops at the first success or permanent failure, and sleeps 100 * (2^(calls-1) - 1) in total |
| ResumeFlow.SoloFlowIsSequentialResume | packages/cli/src/wait-tracker.ts:194-252 | whatever fails and is retried, a flow that nobody interferes with leaves the row patched and taken over if it ends without error, and otherwise as it was, patched, or patched and taken over |
| ResumeFlow.SoloGivesUpExactlyWhen | packages/cli/src/wait-tracker.ts:194-252 | an undisturbed flow that has ended has given up exactly if a segment failed for good, a group failed three times, or the row was finished; otherwise, so with up to two transient failures in each group, the row is patched and taken over |
| ResumeFlow.FailedPatchIsTriedAgain | packages/cli/src/wait-tracker.ts:206-214 | a patch write that fails once, with or without effect, is tried again, and the parent is patched and resumed |
| ResumeFlow.ResumeFlow.ReadParent | packages/cli/src/workflow-helpers.ts:496-509 | the read for the patch is the protocol's step: it skips a parent that no longer waits or has an empty stack, and otherwise computes the patched data |
| ResumeFlow.ResumeFlow.WriteParent | packages/cli/src/workflow-helpers.ts:569-571 | the unconditional patch write is the protocol's step, also when it took effect but is reported as failed |
| ResumeFlow.ResumeFlow.ReadExecution | packages/cli/src/wait-tracker.ts:120-146 | the read for the claim is the protocol's step: a finished row ends the flow, any other is remembered |
| ResumeFlow.ResumeFlow.ClaimExecution | packages/cli/src/active-executions.ts:131-148 | the conditional update is the protocol's step: it takes the row over exactly if it waits, and losing it counts as success |
| ResumeFlow.ResumeFlow.Resume | packages/cli/src/wait-tracker.ts:194-252 | segment after segment the flow ends within twelve of them, leaving row and flow as the protocol's undisturbed run does |
| WaitTracker.WaitTracker.GetWaitingExecutions | packages/cli/src/wait-tracker.ts:82-110 | after a poll a due execution has an armed timer exactly if it was untracked or its timer was still armed; tracked ones keep theirs |
| WaitTracker.WaitTracker.StopExecution | packages/cli/src/wait-tracker.ts:112-118 | one execution stops being tracked and its timer is disarmed, the others stay armed |
| WaitTracker.WaitTracker.StopTracking | packages/cli/src/wait-tracker.ts:254-264 | the timers of all entries are disarmed and all entries stay, so tracked executions are all armed only if there are none; no timer is left exactly if every armed one was still some entry's |
| WaitTracker.StartedTimerSurvivesStepDown | packages/cli/src/wait-tracker.ts:120-122 | the timer of an execution started by other means than its timer is out of reach of a later step-down |
| WaitTracker.NewTermLeavesTrackedUnarmed | packages/cli/src/wait-tracker.ts:70-110 | in the next term a due execution gets an armed timer exactly if it was not tracked in the previous one |
| WaitTracker.WaitTracker.StartExecution | packages/cli/src/wait-tracker.ts:120-185 | the row becomes running exactly if it waited and its workflow is saved; missing, successful and unsaved ones are reported, one that someone else claimed is not an error; only a successful claim remembers the parent to be resumed next |
| WaitTracker.WaitTracker.Fire | packages/cli/src/wait-tracker.ts:102-106 | the timer is spent and its execution resumed exactly if it still waits |
| WaitTracker.WaitTracker.PatchWithRetry | packages/cli/src/wait-tracker.ts:206-214 | at most three tries; the parent is patched exactly if some try took effect, and patched once however often |
| WaitTracker.WaitTracker.StartWithRetry | packages/cli/src/wait-tracker.ts:216-222 | at most three tries; the row is started exactly if some try took effect, and a row that cannot be resumed is not tried again |
| WaitTracker.WaitTracker.ResumeParentExecution | packages/cli/src/wait-tracker.ts:194-229 | whatever fails, the row ends as it was, patched, or patched and started; the last if both groups succeed within their tries; a child without results or still waiting changes nothing |
| CapacityProtocol.SlotsAreConserved | packages/cli/src/active-executions.ts:77-193 | in every run the slots taken are exactly those held by a pending add or an entry, no reservation of a pending add, a failed add or an entry is released more than once, and failed or handled ones hold none |
| CapacityProtocol.CarefulRunsOrphanNothing | packages/cli/src/active-executions.ts:159-188 | if waiting entries are stopped or registered again only after their settle handler ran, no slot is orphaned and an empty registry holds none |
| CapacityProtocol.OrphansExactlyWhenGuarded | packages/cli/src/active-executions.ts:225-274 | a single step orphans a slot exactly when it drops an entry that holds one and has not settled |
| CapacityProtocol.StopWhileWaitingOrphans | packages/cli/src/active-executions.ts:225-236 | a run from the empty registry to a state in which nothing is registered and one slot stays taken |
| CapacityProtocol.EventKeepsAccounts | packages/cli/src/concurrency/concurrency-capacity-reservation.ts:19-36 | every synchronous segment keeps the slot accounts balanced and every reservation released at most once |
| CapacityProtocol.CarefulStepKeepsRegistered | packages/cli/src/active-executions.ts:172-188 | under that discipline an entry whose handler has not run stays the registered one of its execution |
| CapacityProtocol.FinalizeSettles | packages/cli/src/active-executions.ts:225-274 | finalising a registered execution, or stopping one that does not wait, settles its own entry and nothing else; stopping a waiting one only unregisters it |
| CapacityProtocol.SettleGivesBack | packages/cli/src/active-executions.ts:173-188 | the handler gives back exactly the slot its entry held and unregisters the execution, or keeps a waiting one without its attachment |
| CapacityProtocol.AddProceeds | packages/cli/src/active-executions.ts:77-170 | an add begins without a slot, takes one when granted unless it is an evaluation, gives it back on failure, and hands it to a new running entry registered for its execution |
| CapacityProtocol.RegisteredEntryChanges | packages/cli/src/active-executions.ts:378-380 | status and attachment change on the registered entry alone, and nothing changes without one |
| CapacityProtocol.ExecutionsComeAndGo | packages/cli/src/active-executions.ts:77-274 | an execution added and then finalised or stopped leaves nothing registered and no slot taken; one finalised while waiting stays registered without a slot |
| ActiveExecutions.ActiveExecutions.Register | packages/cli/src/active-executions.ts:159-170 | a new entry replaces whatever was registered under the id and takes over the reservation of its add |
| ActiveExecutions.ActiveExecutions.OnSettled | packages/cli/src/active-executions.ts:173-188 | the handler releases its own entry's reservation, keeps a waiting entry and otherwise removes by id |
| ActiveExecutions.ActiveExecutions.FailAdd | packages/cli/src/active-executions.ts:154-157 | a failed add gives its slot back and registers nothing |
| ActiveExecutions.ActiveExecutions.StopExecution | packages/cli/src/active-executions.ts:225-252 | a waiting entry is removed without settling, any other is settled and stays until its handler runs |
| ActiveExecutions.ActiveExecutions.FinalizeExecution | packages/cli/src/active-executions.ts:255-274 | settles whatever is registered under the id and does nothing for a missing id |
| ActiveExecutions.ActiveExecutions.SetStatus | packages/cli/src/active-executions.ts:378-380 | changes the status of the registered entry and reports a missing one |
| ConcurrencyQueue.ConcurrencyIsLimited | packages/cli/src/concurrency/concurrency-queue.ts:21-74 | in every run nobody waits while there is room, and the limit holds unless an execution is removed from among several queued ones |
| ConcurrencyQueue.FirstInFirstOut | packages/cli/src/concurrency/concurrency-queue.ts:21-43 | who finds no room goes to the end of the queue, and a slot that is given back goes to the first of it |
| ConcurrencyQueue.RemovalTakesOut | packages/cli/src/concurrency/concurrency-queue.ts:44-54 | removing takes out the first occurrence of the execution, keeps the others in order, and lets the first of them through |
| ConcurrencyQueue.LimitSurvivesExactlyWhen | packages/cli/src/concurrency/concurrency-queue.ts:44-54 | an event exceeds the limit exactly if it removes a queued execution beside which others are queued |
| ConcurrencyQueue.RemovalExceedsLimit | packages/cli/src/concurrency/concurrency-queue.ts:44-54 | a run from the empty queue after which two executions run under a limit of one |
| ConcurrencyQueue.ConcurrencyQueue.RemoveExecution | packages/cli/src/concurrency/concurrency-queue.ts:44-54 | takes the first matching execution out and starts the next one exactly if it was queued beside others |
| CredentialTypes.GetParentTypes | packages/cli/src/credential-types.ts:26-38 | terminates on every acyclic hierarchy, returns exactly the strict ancestors, in the order of the queue that each element's own list is appended to; on a linear chain their first occurrences come nearest first |
| CredentialTypes.ParentListIsAncestors | packages/cli/src/credential-types.ts:26-38 | that queue order holds exactly the strict ancestors, and nearest first on a linear chain |
| CredentialTypes.WorklistCost | packages/cli/src/credential-types.ts:31-35 | why the growing worklist ends: processing an element pays for everything it appends |
| TypeHierarchy.ChainIsAncestors | packages/cli/src/credential-types.ts:26-38 | on a linear chain the nearest-first list holds exactly the types reached along extends paths |
| OverwriteMerge.SoundTableAnswersAlike | packages/cli/src/credentials-overwrites.ts:210-223 | a table whose entries each lie between the raw entry and the true merge answers every lookup like the raw table |
| OverwriteMerge.NearestDefines | packages/cli/src/credentials-overwrites.ts:210-223 | the nearest-wins merge field by field: a field comes from the first type that defines it |
| OverwriteMerge.LookupIsEffective | packages/cli/src/credentials-overwrites.ts:210-223 | reversing, filtering and assigning the entries of the duplicated parent list is the nearest-wins merge along the chain |
| OverwriteForks.TwoParentsAgreeExactlyWhen | packages/cli/src/credentials-overwrites.ts:196-223 | for any type with two parents of single inheritance, and whatever other entries have been rewritten: once its own entry has been rewritten from the parents' merges, the lookup gives the raw table's answer exactly if the parents agree on the fields they share and the type does not define, except for fields that the second defines and the first only inherits |
| OverwriteForks.AgreeingParentsAnswerAlike | packages/cli/src/credentials-overwrites.ts:196-223 | if they agree on all of them, the lookup gives the raw table's answer whatever has been rewritten in whatever order |
| OverwriteForks.ForkLookup | packages/cli/src/credentials-overwrites.ts:210-223 | the lookup of such a type ranks its own entry first, then the first parent's, the second's, what lies above the first, and what lies above the second |
| OverwriteMerge.LookupAnswers | packages/cli/src/credentials-overwrites.ts:210-223 | in any hierarchy the lookup in a rewritten table answers exactly if the type or an ancestor has a raw entry, with exactly the fields they define, values they give them, and the type's own first |
| OverwriteMerge.ReloadStable | packages/cli/src/credentials-overwrites.ts:64-84 | a table rewritten, saved and rewritten again answers like the raw table |
| CredentialsOverwrites.CredentialsOverwrites.SetPlainData | packages/cli/src/credentials-overwrites.ts:110-123 | visiting the keys in any order leaves entries that are sound for the raw table; a key no other key inherits from has all fields of its known direct parents' raw entries, the last parent's values first after its own; and a key on a chain of its own has the full merge |
| CredentialsOverwrites.CredentialsOverwrites.GetOverwrites | packages/cli/src/credentials-overwrites.ts:178-208 | returns what the recursive merge returns, fills only the memo, and terminates on acyclic hierarchies |
| OverwriteRewrite.ResolveReturns | packages/cli/src/credentials-overwrites.ts:178-208 | the recursive merge returns at least the type's raw entry and, for a known type new to the memo, all fields of its known direct parents' raw entries; every field is drawn from the type or an ancestor; on a chain it is at most the true merge, and all of it if the first type the memo knows has its own in the table |
| OverwriteRewrite.SingleParentIsMergedIn | packages/cli/src/credentials-overwrites.ts:196-205 | a rewritten key that inherits from one type without parents holds that type's raw fields below its own, whatever other keys there are |
| OverwriteRewrite.LaterSiblingIsIncomplete | packages/cli/src/credentials-overwrites.ts:181-205 | of two keys below a type without an entry the later one gets its own entry back, which is the full merge exactly if it defines all fields from above itself |
| CredentialsOverwrites.CredentialsOverwrites.Get | packages/cli/src/credentials-overwrites.ts:210-223 | on a linear chain the nearest-type-wins merge of the raw table, whatever the memo and the table hold; for two agreeing parents the raw table's answer; in any hierarchy the nearest-wins merge of the table along the parent list, with the fields and values of the raw entries of the type and its ancestors |
| CredentialsOverwrites.CredentialsOverwrites.SetData | packages/cli/src/credentials-overwrites.ts:125-138 | what is persisted is the rewritten table, with its parents' fields merged in as above |
| CredentialsOverwrites.CredentialsOverwrites.ApplyOverwrite | packages/cli/src/credentials-overwrites.ts:140-176 | in any hierarchy, replaces exactly the missing, null and blank fields that the lookup of the type defines, unless the type is skip-listed and some other value differs from its overwrite |
| CredentialsOverwrites.ApplyAndCheck | packages/cli/src/credentials-overwrites.ts:140-176 | applying twice equals applying once, stored values are kept, a credential is managed exactly if applying changes some field, and no longer managed once applied |
| CredentialsOverwrites.CredentialsOverwrites.UsesManagedAuth | packages/cli/src/credentials-overwrites.ts:259-267 | true exactly if applying what the lookup finds would change a field it names, in any hierarchy |
| CredentialsOverwrites.CredentialsOverwrites.SupportsManagedAuth | packages/cli/src/credentials-overwrites.ts:229-231 | true exactly if the type or one of its ancestors has a raw entry, in any hierarchy |
| CredentialsOverwrites.FillEmptyFields | packages/cli/src/credentials-overwrites.ts:166-173 | the loop sets exactly the empty fields the overwrite names |
| CredentialsOverwrites.ReloadAgrees | packages/cli/src/credentials-overwrites.ts:125-138 | an instance that loads what another saved gives the same answer as the one that saved |
| ProxyAuth.ExtendsProxyAuthBaseType | packages/cli/src/load-nodes-and-credentials.ts:370-381 | terminates on every hierarchy, cyclic or not, and is true exactly if a base type is reachable through listed types |
| ProxyAuth.Search | packages/cli/src/load-nodes-and-credentials.ts:370-381 | a failed search leaves every type it added to the shared set fully expanded |
| ProxyAuth.ClosedSetHasNoBasePath | packages/cli/src/load-nodes-and-credentials.ts:373-380 | no walk along extends edges leaves an expanded set, and none in it ends in a base type |
| CredentialRepair.ReplaceInvalidCredentials | packages/cli/src/workflow-helpers.ts:307-436 | every visited reference becomes the record of its id and type, or the only one of its name, or stays; unsafe type names, empty slots, managed credentials and disabled nodes are untouched; the cache stays sound; and the queries are bounded by the distinct references |
| CredentialRepair.DirectFindsTheRecord | packages/cli/src/workflow-helpers.ts:338-431 | in terms of the stored records: a reference with an id stored under its type names that record; without, it names the only record of its name, type and project, if there is exactly one; otherwise it stays as it was |
| CredentialRepair.FoundOnce | packages/cli/src/workflow-helpers.ts:346-356 | the query by name returns one record exactly if one index of the stored records holds a match, and then that record |
| CredentialRepair.RepairByName | packages/cli/src/workflow-helpers.ts:338-369 | agrees with the uncached lookup by name, with one query exactly if the cache has no answer |
| CredentialRepair.RepairById | packages/cli/src/workflow-helpers.ts:371-431 | agrees with the uncached lookup by id and then name, with no query if the cache has an answer and at most two otherwise |
| CredentialRepair.RepairNode | packages/cli/src/workflow-helpers.ts:318-433 | one node's slots repaired in any order, skipping disabled nodes, within the query budget of its new references |
| CredentialRepair.DirectIdempotent | packages/cli/src/workflow-helpers.ts:338-431 | the uncached lookup applied to its own result changes nothing, up to the spelling of a bare name |
| CredentialRepair.RepairIdempotent | packages/cli/src/workflow-helpers.ts:307-436 | a second repair leaves every slot as the first one did, up to that spelling |
| CredentialRepair.FoundAsOftenAsStored | packages/@n8n/db/src/repositories/credentials.repository.ts:416-422 | the records of that name and type with project scope shared with the project are found as often as they are stored, and no others |
| RetrySchedule.QuietRunsNeverDouble | packages/cli/src/active-workflow-manager.ts:876-970 | if nothing is queued for a workflow while a retry of it is in flight, each workflow has at most one live timer or retry, its entry holds the timer, and removal leaves none behind |
| RetrySchedule.TimersHeldExactlyUnlessLeaked | packages/cli/src/active-workflow-manager.ts:909-931 | a single event leaves a live timer without an entry holding it exactly if a failing retry overwrites the handle of a live one |
| RetrySchedule.RequeueDuringRetryLeaks | packages/cli/src/active-workflow-manager.ts:909-951 | a run from the empty queue into that state, and the timer it leaves live |
| RetrySchedule.TimeoutFollowsFailures | packages/cli/src/active-workflow-manager.ts:914-931 | in every interleaving an entry charged with k non-isolate failures waits min(1000 * 2^k, 86400000) |
| RetrySchedule.CapReachedAt | packages/cli/src/constants.ts:112-113 | the cap is reached from the 17th failure on and not before |
| RetrySchedule.EnqueueArms | packages/cli/src/active-workflow-manager.ts:940-951 | queuing gives the workflow a fresh entry with the initial timeout and a live timer of its own, clearing the timer of its previous entry |
| RetrySchedule.RemoveClears | packages/cli/src/active-workflow-manager.ts:953-964 | removing dequeues the workflow and clears the timer its entry holds, and no other |
| RetrySchedule.FireStartsRetry | packages/cli/src/active-workflow-manager.ts:876-893 | a timer that fires is spent and its retry under way |
| RetrySchedule.RetryEnds | packages/cli/src/active-workflow-manager.ts:681-682 | a retry that succeeds dequeues its workflow; one that is refused does so exactly if the entry is its own |
| RetrySchedule.FailedRetryGoesBack | packages/cli/src/active-workflow-manager.ts:909-932 | a failed retry of a queued workflow goes back on a new live timer held by the workflow's entry, its failure counted and its timeout doubled up to one day unless an isolate error is to blame; without an entry it is given up |
| ActivationQueue.ActivationQueue.AddQueuedWorkflowActivation | packages/cli/src/active-workflow-manager.ts:940-951 | a fresh entry with the initial timeout and its own timer replaces the one there was, whose timer is cleared |
| ActivationQueue.ActivationQueue.RemoveAllQueuedWorkflowActivations | packages/cli/src/active-workflow-manager.ts:966-970 | removing entries one by one in any order empties the queue and clears exactly the timers they held |
| ActivationQueue.ActivationQueue.RetryFailed | packages/cli/src/active-workflow-manager.ts:909-932 | a failed retry is rescheduled through the workflow's current entry, if any, with its backed-off timeout |
| ActivationQueue.ActivationQueue.RetryRefused | packages/cli/src/active-workflow-manager.ts:894-905 | a policy refusal removes only the retry's own entry |
| ActivationQueue.ActivationQueue.RetrySucceeded | packages/cli/src/active-workflow-manager.ts:681-682 | a successful activation clears the queue of the workflow |
| Deadlines.AwaitedDeadlineIsMinimum | packages/cli/src/workflow-execute-additional-data.ts:281-293 | over awaited levels nested to any depth the deadline is the least of the root's and all defined own ones, undefined if there are none |
| Deadlines.DetachedLevelRestarts | packages/cli/src/workflow-execute-additional-data.ts:286-288 | below a detached level only the own deadlines from that level on count |
| Deadlines.NeverExceedsParent | packages/cli/src/workflow-execute-additional-data.ts:634-642 | an awaited level has a deadline whenever its parent has one, and never a later one |
| Deadlines.DetermineWorkflowDeadline | packages/cli/src/workflow-execute-additional-data.ts:248-276 | defined exactly if the governing timeout, the workflow's own or else the default, is positive, and then the earlier of that timeout and the configured maximum after the start |

## Left out

- The database, its transactions and the blob stores: a row is a record, and a conditional update is one atomic step. A row deleted while a flow runs is modelled in `ExecutionStore` but not in `ResumeProtocol`.
- `ResumeProtocol` describes one row. Rows do not influence each other; that a resumed child resumes its own parent in turn is the same protocol on the parent's row.
- Takeover of fresh rows with status `new`: only their creator starts them. Their cancellation before that is modelled.
- The recovery of rows whose process died: `Vanish` leaves them as they are. It also stands for errors that mention a cancellation, after which nothing is saved.
- Deleting the row instead of saving it, as the settings for saved executions can demand.
- Rows of unsaved workflows are modelled in `WaitTracker` but not in `ResumeProtocol` and `ResumeFlow`.
- The number of a child's waiting period in `Origin`, the waits recorded in `Snapshot` and the history in `Row` are bookkeeping of the model; the code knows none of them.
- Memory layout: registry entries and queued activations are records in a sequence, addressed by position, not heap objects; what is captured of aliasing is that ids and positions can refer to different entries.
- Response promises, streaming responses, response modes, start times and the listing methods of the registry: they do not touch slots or claims.
- Shutdown of the registry, which disables the concurrency control first, after which no slot is counted.
- The queue's throttling inside `add`: `Reserve` is the moment at which capacity has been granted.
- The inside of the workflow engine: a running execution saves any data as progress, as waiting, or as its end.
- CredentialTypes.GetParentTypes: requires an acyclic hierarchy, because the code recurses without end on a cyclic one.
- CredentialsOverwrites.CredentialsOverwrites.Get: promises the exact merge only for types with single inheritance all the way up and for two agreeing parents, because over several parents the lookup and the stored merge use different precedence (`TwoParentsAgreeExactlyWhen`); elsewhere it promises the fields, that every value comes from the type or an ancestor, and that the type's own value wins.
- The two tables in which credential types are looked up (known and loaded) are one table here.
- Object-valued credential fields: values are primitive, so a deep copy is the value itself.
- `isManagedOAuthType`, encryption, broadcasting and the frontend reload handler of the overwrite service.
- The serialisation of cache keys: keys are tagged tuples, as JSON arrays of strings are distinct when their elements are.
- A workflow without a node list behaves like one with an empty list; nodes of one workflow are distinct objects.
- ParentPatch.GetLastExecutedNodeData: a node listed without any run gives nothing; with pinned data in manual mode the code would fail there instead.
- The rest of workflow activation: an activation either succeeds, is refused by policy, or fails with an isolate error or another one.
- Logging, telemetry, push notifications and audit events.
