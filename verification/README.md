# LegionForge kernels in Dafny

LegionForge runs language-model agents behind a task gateway. This project models eight parts of it whose
correctness lies in whole histories rather than in single calls, and proves what each is for:

- the hash-chained **audit log**: append, prune with anchors, verification (`Decimals`, `AuditRow`, `AuditLog`,
  `AuditRuns`);
- the **tool gate** that vets every tool call of a model reply, and the **agent graphs** around it
  (`Safeguards`, `ToolGate`, `AgentRuns`);
- the **task queue** shared by workers, users and reapers (`TaskQueue`, `TaskRows`, `TaskStalls`), and **keyset
  pagination** over it (`TaskPages`);
- the **daily token budget** with its reservations (`RateLimiter`);
- the **text chunker** and what its chunks still tell about the text (`TextUnits`, `TextSplits`,
  `Ingestor`, `GreedyChunks`, `ChunkRestore`);
- the **pipeline runner** and its templates (`Templates`, `PipelineRunner`);
- the **cluster router** (`ClusterRouter`).

Where the source changes state in place (the audit tables, the task table, the daily counter, the node pool)
there is a class whose methods are proved equal to a step function on values; where it loops, a method with a
loop. Whole runs are sequences of such steps, and the main results are lemmas about every run. What a single
step does is stated field by field apart from the step function (`AppendMeaning`, `FinishedBatch`, `AgentLeadsTo`,
`ClaimMeaning`, `AdmissionMeaning`, `ChoiceMeaning` and their like). Models, tools, Guardian, the registry,
clocks and other processes are arbitrary: parameters, events or functions of the call number.

Facts about the code that the proofs bring out:

- After a prune that empties the audit log, the next append starts again from genesis while verification
  expects the anchor's hash. `AuditRuns.VerifyAfterAnyRun` makes this exact: verification succeeds if and only
  if no such append is still in the table.
- An append is three separate statements. Two interleaved ones break the chain, on every table that verifies,
  the empty one included (`AuditLog.InterleavedAppendsBreak`).
- The canonical string of an audit row separates fields by `|` without escaping: some other event/agent pair
  has the same string if and only if one of the two holds a `|` (`AuditRow.RowHasTwinIffUnclean`).
- A prune keeps exactly the recent rows if and only if no recent row precedes an old one
  (`AuditRuns.PruneKeepsRecentRows`).
- Two kinds of model calls start over the token budget, and no others (`AgentRuns.ModelCallsStartBelowBudget`).
  The correction retry on step 1 does not look at the budget: a first reply that uses it up without asking for a tool
  is retried over budget, and unless the retry raises, what it asks for is never executed
  (`AgentRuns.RetryBudgetCounterexample`). And an exception after the count clears `force_end`, so that later visits
  call the model again: in the orchestrator, as when its retry fails (`AgentRuns.OrchestratorBudgetCounterexample`),
  in the base graph only if the metrics or the logging raise (`AgentRuns.BaseBudgetCounterexample`), in the
  researcher never (`AgentRuns.ResearcherStaysInBudget`).
- The loop check sees one call per batch: the history stores the last checked call of each reply
  (`ToolGate.OneSignaturePerBatch`), and a call is halted as a loop exactly when those and itself make up the threshold (`ToolGate.LoopFoundMeaning`). Any number of
  identical calls in one reply count once (`ToolGate.NoLoopBeforeThreshold`).
- Auto-failing dependents reaches one level (`TaskStalls.FailDependentsReachesOneLevel`). A task further down
  stays queued and unclaimable until a statement deletes it or changes its status, or deletes or completes a task
  that it, or a task it waits for, directly waits on (`TaskStalls.WaitEndsIffFreed`, `TaskStalls.StalledUntilFreed`,
  `TaskStalls.WaitingIsUnclaimable`).
- A chunk below the minimum length is dropped, yet its text is lost if and only if it is longer than the overlap
  or the last one (`ChunkRestore.ChunksRestoreUnits`). So with an overlap of seven characters or more, as by
  default, only texts that are short as a whole are lost (`ChunkRestore.LargeOverlapRestoresUnits`).
- The daily limit can be exceeded by at most the estimates of calls that were open at midnight
  (`RateLimiter.DailyLimit`), and as long as nothing of the new day is committed and none of them has left, it can be
  exceeded by exactly that (`RateLimiter.EveryMidnightReachesTheMargin`). Later that day such a call can still bring
  in the tokens it may record or, by leaving, the reservations of others (`RateLimiter.OverrunIsReachable`).
- With a cursor, the `total` of a task page is not the number of matching tasks, as its documentation says,
  but what is left of them (`TaskPages.TotalCountsWhatIsLeft`).
- A health result that arrives after its node was removed puts the node back into service
  (`ClusterRouter.LateResultsRestoreRemovedNodes`).

## Model

| member | source | states |
|---|---|---|
| AuditRow.CanonicalForm | src/database.py:2950 | the canonical string, column by column; no agent counts as an empty one |
| Decimals.DecimalReads | src/database.py:2950 | the decimal numeral of a number denotes that number |
| AuditRow.ImageSeq | src/database.py:2950 | equal canonical strings have equal sequence numbers, whatever the other columns hold |
| AuditRow.ImageEnds | src/database.py:2950 | equal canonical strings have equal sequence number, timestamp and previous hash |
| AuditRow.CanonicalDecodes | src/database.py:2943-2951 | two rows without a separator in event type or agent have the same canonical string if and only if they have the same content, up to a missing or empty agent |
| AuditRow.RowHasTwinIffUnclean | src/database.py:2950 | some other event/agent pair with the same canonical string exists if and only if one of the two columns holds a separator |
| AuditLog.Walk | src/database.py:3060-3092 | on any rows: a positive verdict exactly for an intact chain, with the number of rows; otherwise the first bad row, and whether its previous hash or its own hash is wrong |
| AuditLog.LatestAnchor | src/database.py:3041-3045 | the anchor with the latest pruning time |
| AuditLog.OldestAnchor | src/database.py:3162-3165 | the anchor with the earliest pruning time |
| AuditLog.FetchFrom | src/database.py:3047-3058 | exactly the rows from a sequence number on |
| AuditLog.SetRowHash | src/database.py:3001-3007 | stores the computed hash in the rows of one sequence number and leaves all others |
| AuditLog.AppendInThreeSteps | src/database.py:2969-3007 | read, insert and update without interruption add one finished row and change nothing else |
| AuditLog.AppendMeaning | src/database.py:2969-3007 | an append adds one row with the content it was given and the next key, linked to the last row or to genesis, and hashed |
| AuditLog.InterleavedAppendsBreak | src/database.py:2969-3007 | two interleaved appends on any table that verifies, with any gaps in the keys: verification stops at the second one's row, or at the first one's if the table was emptied by a prune |
| AuditLog.LastOlder | src/database.py:3125-3136 | the last row older than the cutoff: it is older and no later one is; none only if no row is |
| AuditLog.PruneMeaning | src/database.py:3125-3196 | a prune deletes the rows up to the last one outside the window, if any, and leaves one anchor: when, which retention, how many, the hash of the last deleted row, the first kept key, and the hash of the very first row |
| AuditLog.VerifiedRows | src/database.py:3039-3062 | verification walks everything from genesis if nothing was pruned, else exactly the rows from the first kept key of the latest anchor, from the hash it stores |
| AuditLog.AuditTables.constructor | src/database.py:2928-2932 | empty tables |
| AuditLog.AuditTables.Append | src/database.py:2954-3015 | the new tables are those of one append step; keys stay ascending; the new key is returned |
| AuditLog.AuditTables.Prune | src/database.py:3095-3204 | the new tables are those of one prune step; the number of deleted rows is returned |
| AuditLog.AuditTables.Verify | src/database.py:3018-3092 | the right verdict on the rows and start that the latest anchor selects |
| AuditLog.TamperEvident | src/database.py:3063-3092 | two lists that verify from the hash of the same text and end in the same row hash are the same chain, unless the hash collides on a text involved |
| AuditLog.TamperEvidentFromGenesis | src/database.py:2932-2951 | from genesis the last row hash fixes the whole table, every field of every row |
| AuditLog.TamperEvidentFromAnchor | src/database.py:3063-3090 | from an anchor the last row hash fixes every retained row |
| AuditRuns.InvHolds | src/database.py:2970-3196 | in every reachable state the retained rows are the rest of the history, correctly linked, with ascending keys and well-placed anchors |
| AuditRuns.ForkFlagMeaning | src/database.py:2975 | the step-by-step flag is set exactly if an append to an emptied table has not been pruned away since |
| AuditRuns.VerifyAfterAnyRun | src/database.py:3039-3092 | after any run of appends and prunes verification succeeds, reporting exactly the retained rows, if and only if no append to an emptied table is left; otherwise it stops at row 0 |
| AuditRuns.Conservation | src/database.py:3143-3196 | after any run the appended rows are the pruned ones, counted by the anchors, followed by the retained ones; every anchor holds the hash of the very first row |
| AuditRuns.HistoryRecords | src/database.py:2954-3007 | over any run the history has a row for each append, in order, with the content it was given |
| AuditRuns.AnchorsRecord | src/database.py:3174-3190 | over any run there is an anchor for each prune that deleted something, in order, with its time and retention |
| AuditRuns.PruneKeepsRecentRows | src/database.py:3125-3196 | a prune keeps exactly the rows inside the retention window if and only if none of them precedes an older one, as with monotone timestamps |
| AuditRuns.EmptiedThenAppended | src/database.py:2975 | append, prune everything, append: the state in which verification fails |
| Safeguards.TailAndCount | src/safeguards.py:287-292 | the slice is the last n elements, and the count is the multiplicity |
| Safeguards.TrimmedHistoryDecidesTheSame | src/safeguards.py:278-304 | over any run of calls the trimmed history flags a call exactly when its signature makes up the threshold within the last window calls of the whole run; at most two windows are stored |
| ToolGate.AliasMap | src/base_graph.py:748-755 | maps the stripped form of every tool name, and only such forms, to a tool with that stripped form |
| ToolGate.VettedNameIsExecutedName | src/base_graph.py:764-825 | a name that is a tool's without its underscores becomes that of such a tool, every other stays; rewriting a second time changes nothing, so the vetted name is the executed one |
| ToolGate.CheckArgs | src/base_graph.py:1046-1179 | a pass if and only if no argument is a jailbreak, a blocked URL or destructive; otherwise the first argument that is decides, with its first reason |
| ToolGate.Vet | src/base_graph.py:831-1185 | a pass if and only if the tool is registered, allowed by access control and Guardian, not looping, and no argument is stopped; a skip exactly on a sandbox verdict; Guardian consulted exactly when registry and access control let the call through; a halt names the first gate that stops the call |
| ToolGate.GateMeaning | src/base_graph.py:831-1185 | each stop has its condition: unregistered, out of scope, refused by Guardian, looping, or the reason of the first argument that is stopped |
| ToolGate.ScreenResults | src/base_graph.py:1224-1401 | an unvetted result ends the run; a halt-worthy one replaces all results by notices; otherwise every result is cleaned and skip notices stay |
| ToolGate.RunBatch | src/base_graph.py:757-1401 | the first call that a gate halts stops the batch with nothing handed to the inner node; otherwise exactly the filtered calls are handed over; the update returned is that of the batch and the questions put to Guardian are those about it |
| ToolGate.FinishedBatch | src/base_graph.py:757-1401 | when no gate halts and no result stops the run, the node returns the sequence grown by the passed names, the history grown by the last call that was checked, neither force_end nor loop_detected, and the cleaned answers followed by a notice for each skipped call |
| ToolGate.StoppedOnResult | src/base_graph.py:1232-1381 | an answer to no vetted call, or a jailbreak in an answer, ends the run and nothing of the batch is kept: no message in the first case, one notice for every call in the second |
| ToolGate.NothingUncleaned | src/base_graph.py:1272-1401 | every message that the node returns is one of its own notices or has been through the cleaning |
| ToolGate.ForceEndMeaning | src/base_graph.py:831-1401 | the node ends the run if and only if a gate other than the operator pause halts a call or a result stops it |
| ToolGate.GuardianSees | src/base_graph.py:952-964 | Guardian is asked about each call that registry and access control let through, once and in order, with the last three names of what was executed before and what has passed of the batch |
| ToolGate.SequenceGrowsByApprovals | src/base_graph.py:1182-1188 | the sequence is the old one followed by exactly the passed names; Guardian is shown the last three of the history and the approvals before the call |
| ToolGate.HandedAreThePassed | src/base_graph.py:1196-1222 | the calls executed are exactly the passed ones, in order, if and only if no skipped call shares an id with a passed one |
| ToolGate.DistinctIdsExecuteThePassed | src/base_graph.py:1196-1222 | with distinct ids execution is exactly the approved calls |
| ToolGate.EveryCallAnsweredOnce | src/base_graph.py:1190-1401 | when no gate halts, every call id gets exactly one message |
| ToolGate.StopsEndTheRun | src/base_graph.py:831-1179 | every halt but the operator pause sets force_end; the pause asks for approval; no halt extends the sequence; which calls are answered by which notice |
| ToolGate.OneSignaturePerBatch | src/base_graph.py:1029-1031 | over any rounds, the history that the node's updates leave in the state is that of a run of single calls, one from each round that records any: the last one checked |
| ToolGate.SequenceIsWhatRan | src/base_graph.py:1182-1188 | over any rounds, the sequence that the node's updates leave in the state is exactly the names executed, in order |
| ToolGate.LoopFoundMeaning | src/safeguards.py:278-304 | a call is halted as a loop if and only if registry, access control and Guardian let it through and its signature makes up the threshold among the last window of itself and what the rounds before recorded |
| ToolGate.NoLoopBeforeThreshold | src/safeguards.py:291-304 | before the round that the threshold numbers no call is halted as a loop, however many identical calls a batch holds |
| AgentRuns.EveryRunEnds | src/agents/orchestrator.py:683-724 | every run of every graph, from any state, ends within a number of visits given by the remaining steps and the node |
| AgentRuns.FreshRunIsBounded | src/agents/orchestrator.py:577-724 | a fresh run visits its agent at most max_steps times (once if that is not positive) and asks for at most MAX_VERIFY_ROUNDS refinements |
| AgentRuns.AgentLeadsTo | src/agents/researcher.py:651-661 | in all three graphs, exactly when a visit to the agent leads to the tools, the verifier, the operator, the end or the agent again, from the safeguards and the reply |
| AgentRuns.OthersLeadTo | src/agents/orchestrator.py:666-679 | exactly where a visit to every other node leads |
| AgentRuns.WhoRaises | src/agents/researcher.py:346-466 | who can raise where: anyone up to the logging; later only the researcher, and the orchestrator in its retry |
| AgentRuns.AgentCounts | src/base_graph.py:245-283 | what a visit to the agent adds to the step, error and token counts, and what it leaves alone |
| AgentRuns.ToolsMerge | src/base_graph.py:757-1401 | what a visit to the tools takes over from the node's update, and what it leaves alone |
| AgentRuns.ToolsUntilStepLimit | src/agents/researcher.py:651-702 | a model that always asks for tools gets them: each visit to the agent below the step limit is followed by one to the tools, as long as the budget is not used up |
| AgentRuns.ErrorsEndTheRun | src/safeguards.py:500-512 | over any run error_count is the number of visits that raised, and no visit calls a model or a tool once it has reached the limit |
| AgentRuns.ForcedEndIsFinal | src/agents/researcher.py:312-318 | once the tool node returns force_end no later visit calls a model or executes a tool |
| AgentRuns.HaltedBatchEndsRun | src/agents/researcher.py:651-702 | a batch in which a gate halts a call other than for operator approval, or a result stops the run, is the last thing the run does with a model or a tool |
| AgentRuns.FirstCallsStartBelowBudget | src/base_graph.py:245-283 | in all three graphs, the first model call of a visit starts below the token budget if and only if no earlier visit used the budget up and then raised |
| AgentRuns.ModelCallsStartBelowBudget | src/agents/orchestrator.py:430-527 | in all three graphs and at any visit, some model call starts over budget if and only if the first reply used the budget up and is retried, or the visit calls a model after one that used the budget up and then raised |
| AgentRuns.ResearcherStaysInBudget | src/agents/researcher.py:346-466 | in the researcher the first call of every visit starts below the budget, and every call does if and only if the first reply did not use the budget up or was not retried |
| AgentRuns.RetryBudgetCounterexample | src/agents/researcher.py:379-410 | in the researcher and the orchestrator a first reply that uses the budget up without a tool call is retried over budget, and the run ends without executing what the retry asks for |
| AgentRuns.OvershootIsOneVisit | src/safeguards.py:310-336 | a run exceeds the budget by at most what one visit reported: always in the researcher, and in the other graphs unless a visit used the budget up and then raised |
| AgentRuns.OrchestratorBudgetCounterexample | src/agents/orchestrator.py:434-527 | a first visit that uses the budget up and then raises is followed over budget by the call of the verifier and, after a refinement request, by one of the agent |
| AgentRuns.BaseBudgetCounterexample | src/base_graph.py:249-283 | in the base graph only the metrics and the logging can raise after the count; if they do on a first reply that used the budget up, the next visit calls the model over budget |
| TaskQueue.Next | src/database.py:4869-4884 | the row to claim: claimable, and first by priority and age among the claimable; none only if there is none |
| TaskQueue.Touched | src/database.py:6163-6193 | exactly the ids of the rows that a statement changes |
| TaskQueue.TaskTable.constructor | src/database.py:4451 | an empty table |
| TaskQueue.TaskTable.CreateTask | src/database.py:4455-4529 | adds one queued row, every field as asked for but a priority out of range, and leaves all others; refuses exactly an unknown dependency |
| TaskQueue.TaskTable.ClaimNextQueuedTask | src/database.py:4848-4890 | the new table is that of one claim step; empty-handed exactly when no row is claimable |
| TaskQueue.TaskTable.Update | src/database.py:4893-5062 | the new table is that of one update statement; the ids returned are those of the changed rows |
| TaskQueue.TaskTable.DeleteTasks | src/database.py:5065-5084 | the new table is that of one delete statement; the number of deleted rows is returned |
| TaskQueue.RunKeepsInv | src/database.py:4455-5084 | in every reachable table ids ascend, every dependency is an earlier task still in the table, and no queued task was ever claimed |
| TaskQueue.NoDependencyCycle | src/database.py:2057-2060 | following depends_on never comes back to where it started |
| TaskQueue.ClaimEmptyIffAllBlocked | src/database.py:4870-4884 | with nothing locked or labelled, a claim is empty if and only if every queued task waits on a chain ending in a task neither queued nor complete |
| TaskQueue.NoDeadlock | src/database.py:4866-4886 | in every reachable table with a queued task, no test label and everything else complete, a claim finds a task |
| TaskQueue.ClaimsAreRight | src/database.py:4848-4890 | over every interleaving no task is claimed twice, and each claim takes a queued, unlocked task without unfinished dependency, first by priority and age |
| TaskQueue.StatusChangesHaveCauses | src/database.py:4848-5062 | no status changes without its cause: nothing is queued again, only a claim starts a task, only its owner cancels it and only while queued, and reaps fail running tasks only |
| TaskQueue.StaleReapIsLocal | src/database.py:6196-6239 | a startup reap fails all running rows of its own worker and changes no other row |
| TaskQueue.ReapedWorkerIsIdle | src/database.py:6196-6239 | over any run, from a startup reap on its worker has no running task until its own next claim |
| TaskRows.CreationMeaning | src/database.py:4455-4508 | the same for the step: the new row field by field, the old rows, and the refusal |
| TaskRows.ClaimMeaning | src/database.py:4864-4888 | a claim starts the free task of highest priority, the oldest of these, and changes nothing else; free: queued, unlocked, unlabelled, and its dependency complete or none |
| TaskRows.CausesTakeEffect | src/database.py:4893-5062 | the converse of StatusChangesHaveCauses: every cause takes effect |
| TaskRows.UpdateKeepsTheRest | src/database.py:4893-5062 | an update keeps all rows and all fields but the status, the time stamp of exactly the rows it writes to, and the labels that an owner sets |
| TaskRows.TouchedOnce | src/database.py:5000-5016 | the ids returned are those of the rows written to, each once |
| TaskRows.DeletionMeaning | src/database.py:5065-5084 | a delete drops exactly the rows it names and changes nothing in the others but a dependency on a dropped row, which is released |
| TaskRows.DependentsWait | src/database.py:4871-4879 | over any run, a task created behind another is claimed only in a state in which that one is complete, or after it was deleted |
| TaskStalls.NoneStalledIffNoneDirectly | src/database.py:4870-4884 | no queued task waits in vain, however far down, if and only if none depends directly on a task that is neither queued nor complete |
| TaskStalls.FailDependentsReachesOneLevel | src/database.py:4995-5016 | after auto-failing the dependents of a task some queued row is left behind a row that was failed if and only if there was one before |
| TaskStalls.GrandchildrenStall | src/database.py:4995-5016 | a queued row behind one that has just been auto-failed is stalled |
| TaskStalls.WaitGoesOn | src/database.py:4848-5084 | a stalled row that is still queued after any statement is still stalled if and only if down its chain of dependencies the statement deletes and completes no task that another one waits on |
| TaskStalls.WaitEndsIffFreed | src/database.py:4848-5084 | any statement ends the wait of a stalled task if and only if it deletes the task or changes its status, or down its chain of dependencies deletes or completes a task that another one waits on |
| TaskStalls.StalledUntilFreed | src/database.py:4848-5084 | over any run a stalled task waits on throughout if and only if no statement in between ends its wait |
| TaskStalls.WaitingIsUnclaimable | src/database.py:4871-4884 | as long as it waits a task is queued, was never claimed and cannot be claimed |
| TaskStalls.FreedAtTheEnd | src/database.py:2052-2060 | once a task is completed or deleted, an unlabelled queued task that waits directly on it can be claimed |
| RateLimiter.DailyCounter.constructor | src/rate_limiter.py:98-112 | a counter at zero without a day |
| RateLimiter.DailyCounter.ResetIfNewDay | src/rate_limiter.py:114-124 | everything starts over exactly when the day differs |
| RateLimiter.DailyCounter.CheckAndReserve | src/rate_limiter.py:126-148 | reserves if and only if committed, reserved and estimated tokens fit the daily limit |
| RateLimiter.DailyCounter.ReleaseReservation | src/rate_limiter.py:150-153 | lowers the reservation, never below zero |
| RateLimiter.DailyCounter.AddUsage | src/rate_limiter.py:155-170 | commits tokens to the current day |
| RateLimiter.AdmissionMeaning | src/rate_limiter.py:126-148 | a call is admitted if and only if its estimate is within the limit of a call and, with what is committed and reserved today, within that of the day |
| RateLimiter.NewDayMeaning | src/rate_limiter.py:114-124 | on a new day everything starts over and whoever is inside straddles the reset |
| RateLimiter.RecordMeaning | src/rate_limiter.py:155-170 | a record commits its tokens and one call to the day |
| RateLimiter.LeaveMeaning | src/rate_limiter.py:150-153 | leaving gives the estimate back, as far as anything is reserved, and happens once |
| RateLimiter.ReservationAccounting | src/rate_limiter.py:244-287 | in every reachable state the reserved amount is at most the estimates of the open calls, equal to them if none was open at a reset, and zero if no call is open |
| RateLimiter.DailyLimit | src/rate_limiter.py:126-170 | if every call records at most its estimate before it leaves, committed tokens exceed the daily limit by at most the estimates of calls open at the last reset, and not at all without such calls |
| RateLimiter.OverrunIsReachable | src/rate_limiter.py:114-170 | from every state that honest calls can reach they can go on, on the same day, until the committed tokens are the limit, or more if more were committed, and for every call still open from before the reset the larger of what it may still record and what its leaving frees |
| RateLimiter.EveryMidnightReachesTheMargin | src/rate_limiter.py:114-170 | from every honest history at whose end nothing of the day is committed and no call from before the reset has left, the margin of the daily limit is reached exactly |
| RateLimiter.MarginIsReached | src/rate_limiter.py:114-153 | the margin of the daily limit is attained by two calls over midnight |
| TextUnits.FindBreak | src/ingestor.py:141-150 | the first separator from a position on |
| TextUnits.StripKeepsInk | src/ingestor.py:141-153 | stripping keeps all characters but white space and never lengthens |
| TextUnits.PiecesKeepInk | src/ingestor.py:141-150 | splitting drops white space only |
| TextSplits.PiecesAreRight | src/ingestor.py:141-150 | the text is its pieces with the separators put back; every separator is a whole blank line or the white space behind a sentence, and no piece holds another |
| TextUnits.SplitSentences | src/ingestor.py:148-160 | the units of an oversized paragraph |
| TextUnits.BlankHasNoUnits | src/ingestor.py:134-135 | the early return for a blank text agrees with the rest of the function |
| TextUnits.UnitsHoldTheText | src/ingestor.py:140-160 | the units hold every character of the text but white space, in order and once |
| TextUnits.UnitLength | src/ingestor.py:144-160 | a unit is at most as long as the chunk size or the longest sentence of an oversized paragraph |
| TextUnits.UnitsEndInInk | src/ingestor.py:141-160 | no unit of a text is empty or ends in white space |
| TextSplits.UnitsMeaning | src/ingestor.py:140-160 | the units are those of the trimmed paragraphs in order: a paragraph that fits is one, any other gives the greedy runs of its sentences joined by spaces, each run closed because the next sentence would not fit |
| Ingestor.PackChunks | src/ingestor.py:165-190 | the packing loop yields the texts of the groups that reach the minimum length |
| Ingestor.ChunkText | src/ingestor.py:113-190 | the whole function yields the chunks of the units of the text |
| Ingestor.GroupsPartitionUnits | src/ingestor.py:170-182 | the groups are the units in order, cut into nonempty runs, each led by the overlap of the chunk before it |
| GreedyChunks.GroupsAreTight | src/ingestor.py:168-183 | packing is greedy: every unit but the first of a chunk was added because it fitted, and every chunk but the last was closed because the next unit did not |
| ChunkRestore.TextsRestoreUnits | src/ingestor.py:170-190 | for any units: if no group were dropped, the chunks alone, without their overlaps, would join to exactly the units |
| ChunkRestore.ChunksRestoreUnits | src/ingestor.py:165-190 | for any overlap: the chunks alone give back exactly the units, nothing lost, repeated or moved, if and only if every group too short to be kept has one behind it that carries it whole |
| ChunkRestore.LargeOverlapRestoresUnits | src/ingestor.py:165-190 | for every overlap of seven characters or more: the units are restored if and only if there are none or they join to at least eight characters, and no chunk is left exactly when they do not |
| ChunkRestore.LongUnitsAreRestored | src/ingestor.py:165-190 | a special case for any overlap and units of any ending: units of the minimum length are restored |
| ChunkRestore.ChunksHoldTheText | src/ingestor.py:113-190 | for every text: with an overlap of seven or more the restored text has exactly the characters of the original, white space aside, if and only if it has no unit or its units join to at least eight characters; with any overlap, whenever every dropped group is carried |
| Ingestor.ShortUnitIsDropped | src/ingestor.py:187-188 | a lone unit of fewer than eight characters yields no chunk, whatever the overlap |
| Ingestor.UnitsBoundChunks | src/ingestor.py:170-190 | no chunk is longer than max(chunk_chars + 1, overlap_chars + 2 + longest unit), although the running length only approximates the real one |
| Ingestor.ChunkLength | src/ingestor.py:113-190 | the same for a text, in terms of the chunk size and its longest sentence |
| TaskPages.SortedIsSorted | src/database.py:4663-4669 | the listing order: strictly descending by creation time and id, holding exactly the matching rows |
| TaskPages.PageMeaning | src/database.py:4646-4702 | a page lists, newest first, exactly the matching tasks with at least offset and less than offset plus limit newer ones; a cursor puts the offset out of force; the total, and the cursor of a full page |
| TaskPages.ListedPage | src/database.py:4663-4694 | a page is the newest matching rows up to the limit; it carries a cursor if and only if it is full, and the cursor names its last row |
| TaskPages.NothingIsRepeated | src/database.py:4646-4694 | however the table changes between requests, no task is listed twice |
| TaskPages.NothingIsMissed | src/database.py:4646-4694 | once the listing ends, every task that matched at each request has been listed |
| TaskPages.ListsTheFirstSnapshot | src/database.py:4646-4694 | with the rows older than the cursor left alone, whatever newer ones come, the pages are exactly the first snapshot in order, and the listing ends with the first page that is not full |
| TaskPages.TotalCountsWhatIsLeft | src/database.py:4656-4661 | the reported total falls by one page with every page |
| Templates.MatchedVar | src/pipeline_runner.py:39 | what the pattern matches is a variable standing at that place |
| Templates.SourceMatches | src/pipeline_runner.py:39 | where a variable stands the pattern matches it |
| Templates.ParseDecomposes | src/pipeline_runner.py:39-74 | every text is plain pieces with variables between them |
| Templates.ParseIsUnique | src/pipeline_runner.py:39-74 | of only one such sequence: reading back the text of a template gives the template |
| Templates.RenderFills | src/pipeline_runner.py:63-74 | rendering fills in the template that the text decomposes into |
| Templates.RenderIsOnePass | src/pipeline_runner.py:42-74 | wherever a variable stands it is replaced, plain pieces stay, and inserted values are not looked at again |
| Templates.VariablesMean | src/pipeline_runner.py:63-74 | the input variable stands for the input; that of step N, written in decimal, for its result, for nothing if it has none, and for itself if there is no such step yet |
| PipelineRunner.WaitForTask | src/pipeline_runner.py:77-103 | finished with a result if and only if the first poll that finds the task ended, before the timeout, finds it complete with it; broken off with what that poll finds instead; timed out if and only if there is none |
| PipelineRunner.WaitedMeaning | src/pipeline_runner.py:77-103 | the same for the specification of the loop |
| PipelineRunner.ExecutePipeline | src/pipeline_runner.py:106-229 | the results and the log of outside actions are those of the run |
| PipelineRunner.StepsRunInOrder | src/pipeline_runner.py:146-208 | wherever a run stops, its log is exactly: per step create from the earlier results, see complete, save |
| PipelineRunner.CreatedOnlyAfterEarlierSteps | src/pipeline_runner.py:146-186 | step i is created only after the polls of steps 0 to i - 1 found their tasks complete, from exactly their results |
| PipelineRunner.FinalResults | src/pipeline_runner.py:210-229 | the final results are a prefix of the steps, each seen complete by its polls, and at most one failed entry numbered next; the run is finalized once, last, and as a success exactly when every step is there |
| ClusterRouter.ClusterManager.constructor | src/ollama_cluster.py:97-130 | every enabled node is seeded as down |
| ClusterRouter.SeededMeaning | src/ollama_cluster.py:97-130 | at the start every enabled node has an entry, no other has, and none is up |
| ClusterRouter.ClusterManager.GetHealthyUrl | src/ollama_cluster.py:168-221 | the URL of the chosen entry; the index moves exactly when a turn was taken |
| ClusterRouter.ClusterManager.AddNode | src/ollama_cluster.py:301-333 | adds a node whose one health entry is down, or nothing if the name is in use |
| ClusterRouter.ClusterManager.RemoveNode | src/ollama_cluster.py:349-364 | removes the nodes of a name and its health entry and keeps the others in order |
| ClusterRouter.OthersInOrder | src/ollama_cluster.py:349-364 | the nodes kept are in the order they were |
| ClusterRouter.OthersStay | src/ollama_cluster.py:349-364 | and each as often as it was |
| ClusterRouter.WithoutMeaning | src/ollama_cluster.py:349-364 | removing an entry leaves those before and after it as they were |
| ClusterRouter.ClusterManager.UpdateHealth | src/ollama_cluster.py:366-369 | the only entry of that name is the status; all other entries stay where they were; names stay distinct |
| ClusterRouter.UpdateTakesEffect | src/ollama_cluster.py:180-219 | a stored result takes effect at once: a request that prefers a node just found up goes to it, none goes to a node just found down |
| ClusterRouter.ChoiceMeaning | src/ollama_cluster.py:168-221 | a request goes to a node that is up: the preferred one, else the next in turn, the least busy or the first configured, each exactly under its routing; to the fallback exactly when there is none to choose |
| ClusterRouter.UpInOrder | src/ollama_cluster.py:186-187 | the entries that are up are taken in the order of the table |
| ClusterRouter.RoundRobinIsFair | src/ollama_cluster.py:212-219 | under round robin, of m requests whose preference is not up each of the n nodes that are gets m/n rounded down or up, from any index and with any other requests in between |
| ClusterRouter.LateResultsRestoreRemovedNodes | src/ollama_cluster.py:366-369 | storing a health result keeps to configured nodes if and only if its node is still configured |

## Left out

- AuditLog.AuditTables.Append: the three statements are taken as uninterrupted; AuditLog.InterleavedAppendsBreak shows why that matters. An append that stops between insert and update, and an unavailable database, are not modelled.
- AuditLog.TamperEvident: SHA-256 is an arbitrary function, and freedom from collisions is assumed only of the finitely many texts involved; the JSON rendering of the payload is a string column.
- AuditRuns.VerifyAfterAnyRun: anchors are assumed to be stamped by a clock that advances from prune to prune, and a timestamp to be rendered the same at append and at verification, whatever the session's time zone.
- ToolGate.RunBatch: calls are taken after their names have been rewritten; payload-size and scan-timeout handling, event dispatch, threat logging and the fallbacks for messages that cannot be copied are not modelled.
- AgentRuns.FreshRunIsBounded: the resumption of an approved run, LangGraph's own recursion limit, and the observer, crystallizer and threat-analyst graphs are not modelled; the reply of a correction retry is not counted, as in the source; a model reply may do anything, even where the source binds no tools.
- TaskQueue.ClaimsAreRight: ties in priority and creation time are broken by insertion order, which SQL leaves open; UUIDs are numbered by insertion; row-level security, the event timeline, results and tags are not modelled.
- RateLimiter.OverrunIsReachable: the total is reached, but after a call from before the reset has left it need not be the largest possible; the bound is RateLimiter.DailyLimit.
- RateLimiter.DailyLimit: estimates and usage are natural numbers; costs, alerts and the per-minute limiter are not modelled.
- Ingestor.ChunkText: sizes are natural numbers, so a negative chunk size or overlap is not covered; file readers and embedding are not modelled.
- TaskPages.ListsTheFirstSnapshot: the walk starts without an offset; the filters are one arbitrary predicate on a row; base64 and JSON are an arbitrary pair that round-trips; ids compare the same as UUIDs and as text, as canonical lower-case UUIDs do under a bytewise collation.
- Templates.RenderIsOnePass: digits are the ASCII ones, while the pattern also takes other decimal digits of Unicode.
- PipelineRunner.FinalResults: publishing an event and recording the failure itself are assumed not to raise.
- ClusterRouter.ClusterManager.GetHealthyUrl: one call is one step although the source takes its lock twice; the polling thread and its timing are not modelled, and a latency is a real number.
- SQL text, pools, roles and migrations; prompts, memory, metrics, HTTP and DNS; Guardian's own checks and the regular-expression lists: parameters or left out.
- Health endpoints, credentials, settings, command-line scripts, webhooks, report rendering and the agent registry.
