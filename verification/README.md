# Verified models of the orchestration engine

This project models the state-keeping parts of OsMEN-OC, an agent orchestration engine, and
proves what they promise over all inputs and all runs. `dafny verify dfyconfig.toml` checks
everything. Code that changes things step by step is modelled as methods and classes, each proved
against a value-level specification; the promises are lemmas about those specifications. Databases,
Redis, the event bus, clocks, humans and agents appear as parameters: every remote call may succeed,
fail, or fail after it took effect.

| file | models |
|---|---|
| `Graphs.dfy`, `TopologicalSort.dfy`, `RepeatedTools.dfy` | the pipeline planner: Kahn's algorithm with a FIFO queue, and what repeated names do to it |
| `ApprovalGate.dfy`, `PipelineRunner.dfy`, `PipelineLog.dfy` | the approval gate, retries, whole pipeline runs, and what their log holds |
| `Ledger.dfy`, `CooperativeWorkflow.dfy`, `EngineCalls.dfy` | the ledger's tables, the cooperative engine on them, and each of its calls in terms of rows |
| `WorkflowRuns.dfy` | what holds over whole runs of the engines on one ledger |
| `WorkflowProgress.dfy`, `FailedDependency.dfy`, `UnknownDependency.dfy` | when a workflow can go on, and what failed and unknown dependencies do |
| `Discussion.dfy` | the claim, attack, repair and synthesize loop, and the claims it reads |
| `Sentences.dfy`, `SentenceSplitter.dfy`, `SentenceMasking.dfy`, `SentencesLossless.dfy`, `SentenceRules.dfy`, `Chunks.dfy` | sentence splitting and chunking |
| `TaskOutbox.dfy` | the local task queue and the worker that drains it |
| `DeadLetters.dfy` | dead letters, their replay, and the consumer's message loop |
| `Decay.dfy`, `Promotion.dfy`, `Expiration.dfy` | memory maintenance |
| `Ordering.dfy`, `Router.dfy` | stable sorting and compute routing |
| `Common.dfy` | options, results, and facts about sequences |

## What the code does, against what it says

Where the code and its own documentation part ways the model follows the code, and a lemma shows it.

- The planner is documented to fail on a cycle and to return every step after its dependencies.
  `TopologicalSort.Sort` gives the exact condition of success for all inputs: all names are known, no
  repeated name has a dependency, and no set of names is starved, that is, paid off too rarely by all
  other names together. On an acyclic graph nothing is starved, so the verdict is wrong there exactly
  when a repeated name has a dependency: a cycle is reported that is not there
  (`TopologicalSort.RepeatedNamesReportFalseCycle`). On a cyclic graph the verdict is wrong exactly
  when no repeated name has a dependency and nothing is starved, because a name that occurs twice pays
  off its edges twice: a plan with a step that depends on itself is sorted
  (`RepeatedTools.CyclicPlanIsSorted`). The same can put a step before its dependency in an acyclic
  plan (`RepeatedTools.StepBeforeItsDependency`). Neither happens when no repeated name is depended on.
  An order that comes out holds all steps exactly if repeated names mean the same step
  (`TopologicalSort.LookupLosesNothing`).
- `depends_on` of a pipeline step is documented as tools that must complete first. It orders steps,
  but a step runs even if the gate denied the step it depends on, or its handler failed
  (`PipelineRunner.CalledIff`, `PipelineRunner.DeniedDependencyDoesNotGuard`), as in the run of
  `PipelineRunner.DeniedDependencyRuns`.
- A work item whose dependency has no row counts as ready (`WorkflowProgress.UnblockedOrUnknown`
  gives the exact condition, `UnknownDependency.UnknownDependencyStarts` a run that goes wrong).
- A failed item keeps its dependants from ever being handed out. As long as nobody sets a dependant's
  status, submits a synthesis or crashes the loop, the workflow then neither completes nor fails
  (`FailedDependency.FailureStrandsWorkflow`); `FailedDependency.FailingRun` is a run from an empty
  ledger that gets there.
- Splitting a text into sentences is meant to keep the text. It does exactly if every word survives
  (`SentencesLossless.SplitTextIsLossless`): with its URL replaced by its token, the word does not spell
  the dot mark, and it spells no token of the text's URLs at a place where one would be read. Without
  URLs that is to say that the text does not spell the dot mark (`SentencesLossless.SurvivesWithoutUrls`);
  a text without double underscores always survives (`SentencesLossless.SurvivesWithoutUnderscores`),
  and a word can be destroyed that does not spell a mark at all (`SentencesLossless.TokenCompletesMark`).
- A dead letter with a field named `msg_id` can delete another dead letter when it is replayed
  (`DeadLetters.NoLossIff` gives the exact condition; an entry without a payload is refused by the
  stream), and a payload with one of the four reserved names is not restored
  (`DeadLetters.ReplayRestores`).
- Decay is applied to the value the last pass left, not to the original importance as documented,
  so passes compound: a second pass at the same moment changes an entry exactly if the first left it
  above the floor (`Decay.PassesCompound`), as in `Decay.SecondPassDecaysAgain`.
- A batch failure in the orphan sweep reports no deletions although earlier batches deleted theirs
  (`Expiration.ChunkTable.DeleteOrphans`).
- Starting a discussion is documented for workflows that are already RUNNING, but the transition
  table refuses RUNNING to RUNNING, so only created, suspended and failed workflows can start
  (`Discussion.DiscussionControl.Start`).
- A repair needs no attack before it to count as stable (`Discussion.LastCallDecides`).

## Model

| member | source | states |
|---|---|---|
| `TopologicalSort.Sort` | core/pipelines/runner.py:46-99 | total on all inputs; fails for an unknown name exactly when there is one; succeeds exactly when all names are known, no repeated name has a dependency and no set of names is starved; on known acyclic graphs, exactly when no repeated name has a dependency; success without a shared dependency means an acyclic graph and dependencies first; with distinct names succeeds exactly when names are known and there is no cycle, with a faithful order (a permutation, dependencies first, first come first served) |
| `TopologicalSort.FindUnknownDependency` | core/pipelines/runner.py:64-70 | finds an unknown dependency exactly when one exists, and reports the first one in step order |
| `TopologicalSort.CountDependencies` | core/pipelines/runner.py:72-78 | in-degree and dependents of every tool, repeated dependencies counted each time |
| `TopologicalSort.FindRoots` | core/pipelines/runner.py:80-83 | the queue starts with the tools of in-degree zero, in input order |
| `TopologicalSort.Drain` | core/pipelines/runner.py:84-92 | the loop yields the names of the turn-by-turn run that the lemmas are about |
| `TopologicalSort.FinalKeeps` | core/pipelines/runner.py:84-92 | on every input the run ends with an empty queue, each edge paid off once per turn of its source, and with distinct names in queue order |
| `TopologicalSort.Verdict` | core/pipelines/runner.py:94-97 | the length test passes exactly when no repeated name has a dependency and no set of names is starved; nothing is starved in an acyclic graph |
| `TopologicalSort.StarvedHasCycle` | core/pipelines/runner.py:84-97 | a starved set of names holds a dependency cycle |
| `TopologicalSort.LeftoverHasCycle` | core/pipelines/runner.py:94-97 | when fewer names than steps come out and no repeated name has a dependency, the dependency graph has a cycle |
| `TopologicalSort.OrderExcludesCycles` | core/pipelines/runner.py:94-99 | an order with dependencies first exists only for a graph without cycles |
| `TopologicalSort.DepthNeverFalls` | core/pipelines/runner.py:84-92 | for every dependency chain ending at a step, a later step ends one at least as long |
| `TopologicalSort.OrderIsUnique` | core/pipelines/runner.py:80-99 | the promises leave no choice: two faithful orders of the same steps are equal |
| `TopologicalSort.NoDependenciesKeepsOrder` | core/pipelines/runner.py:80-99 | without dependencies the output equals the input |
| `TopologicalSort.LookupLosesNothing` | core/pipelines/runner.py:62-99 | the output is a permutation of the steps exactly when steps of one name are equal |
| `TopologicalSort.ChosenAreLast` | core/pipelines/runner.py:62-99 | each step of the order is the last one of its name among the steps |
| `TopologicalSort.RepeatedNamesReportFalseCycle` | core/pipelines/runner.py:62-97 | two steps of one name, one with a dependency: a cycle is reported for a graph that has none |
| `RepeatedTools.CyclicPlanIsSorted` | core/pipelines/runner.py:72-97 | steps a, a and b, where b depends on a and on itself: the cyclic plan passes as a, a, b |
| `RepeatedTools.StepBeforeItsDependency` | core/pipelines/runner.py:72-99 | steps a, a, d, c after d, b after a and c: the acyclic plan passes with b before c |
| `ApprovalGate.Gate.OverrideRisk` | core/approval/gate.py:137-162 | sets the risk for the pair and changes nothing else |
| `ApprovalGate.Gate.ClearRiskOverride` | core/approval/gate.py:164-171 | removes the pair's override and changes nothing else |
| `ApprovalGate.Gate.Evaluate` | core/approval/gate.py:173-218 | admits exactly low and medium risk, or a human's yes, in time for high risk; flags exactly medium; waits for ever exactly on a silent human at critical risk |
| `ApprovalGate.Gate.HumanApprove` | core/approval/gate.py:252-327 | without a callback denies; a timeout denies; an error of the callback is raised |
| `ApprovalGate.LastWordCounts` | core/approval/gate.py:189-192 | after any overrides and clears, the effective risk is the last one set for the pair, else the declared one |
| `ApprovalGate.EvaluationHolds` | core/approval/gate.py:173-327 | approval, flag, reason, error and endless wait, case by case of risk, callback and answer, with the 300 seconds of high risk |
| `PipelineRunner.Runner.RunWithRetries` | core/pipelines/runner.py:160-186 | succeeds exactly when one of the allowed attempts does, and makes the attempts and waits of the specification |
| `PipelineRunner.RetryBounds` | core/pipelines/runner.py:168-186 | the first success ends it; without one it ends after exactly the allowed attempts; k failures wait 0.25 (2^k - 1) seconds |
| `PipelineLog.TriesAreExact` | core/pipelines/runner.py:168-186 | retries event by event: failures with doubling waits, then the attempt that succeeds or the last one allowed |
| `PipelineRunner.Runner.ExecuteStep` | core/pipelines/runner.py:379-488 | gate, audit record, handler and publication, as the log of the specification has them |
| `PipelineLog.EvaluatedIff` | core/pipelines/runner.py:343-405 | a step is evaluated exactly if its tool is declared and no earlier step waits for ever, at the risk in force |
| `PipelineLog.AuditedIff` | core/pipelines/runner.py:407-430 | with an audit pool exactly the decisions about declared steps are recorded, with the declared risk; without one nothing is |
| `PipelineLog.RefusalIsAudited` | core/pipelines/runner.py:407-430 | a step that is not permitted is recorded as refused, unless its human raises an error or keeps silent |
| `PipelineLog.HandledIff` | core/pipelines/runner.py:432-450 | a handler is called exactly if there is one and the gate approved |
| `PipelineLog.PublishedIff` | core/pipelines/runner.py:460-481 | a step is published exactly if the gate decided, whatever it decided |
| `PipelineLog.RetriesInLog` | core/pipelines/runner.py:436-481 | in the log of a run, a step's handler and publication are tried as its retries say, up to three times |
| `PipelineLog.CompletedIff` | core/pipelines/runner.py:360-377 | the completion is published exactly if no step waits for ever |
| `PipelineLog.StepInOrder` | core/pipelines/runner.py:397-481 | in the log of a whole run a step is evaluated at most once, then recorded at most once, then handled, then published |
| `PipelineRunner.Runner.ExecutePipeline` | core/pipelines/runner.py:334-377 | nothing happens when the steps cannot be ordered, and when that is; else the run of the specification over the sorted steps, in dependency order unless a repeated name is depended on |
| `PipelineRunner.CallsAreVouchedFor` | core/pipelines/runner.py:398-442 | every handler call of a run follows an evaluation that approved that step at the risk in force |
| `PipelineRunner.CalledIff` | core/pipelines/runner.py:343-442 | a handler is called exactly when no earlier step hangs, the tool is declared and has a handler, and the gate permits it |
| `PipelineRunner.NoCallbackNoCall` | core/approval/gate.py:272-282 | without a human channel no step of high or critical effective risk is called |
| `PipelineRunner.JudgedByLastWord` | core/approval/gate.py:189-192 | the risk a step is judged by is the last one set up to its turn |
| `PipelineRunner.DeniedDependencyDoesNotGuard` | core/pipelines/runner.py:343-359 | a permitted step runs although a step it depends on was refused |
| `PipelineRunner.DeniedDependencyRuns` | core/pipelines/runner.py:343-359 | two steps in dependency order: the first is denied for its high risk, the second is called |
| `PipelineRunner.RunInOrder` | core/pipelines/runner.py:343-375 | events follow the sorted order, and the completion comes last |
| `PipelineRunner.DependenciesComeFirst` | core/pipelines/runner.py:334-359 | every event of a step comes after every event of the steps it depends on |
| `PipelineRunner.RunBound` | core/pipelines/runner.py:344-375 | n steps make at most 3n handler calls and 3(n + 1) publish calls |
| `Ledger.Store.CreateWorkflow` | core/orchestration/ledger.py:52-80 | inserts once; a known id is left alone |
| `Ledger.Store.UpdateWorkflowStatus` | core/orchestration/ledger.py:93-149 | moves the row exactly along the transition table, with error, synthesis and end time |
| `Ledger.MoveIsExact` | core/orchestration/ledger.py:93-149 | the nine moves, each with the status, times, synthesis and error it writes; any other is refused |
| `Ledger.Store.CreateWorkItem` | core/orchestration/ledger.py:178-199 | appends the row, or raises on a violated key or bound |
| `Ledger.InsertIsExact` | core/orchestration/ledger.py:178-199 | an item is stored exactly if its id is new, its workflow exists and its priority is between 1 and 10 |
| `Ledger.Store.UpdateWorkItem` | core/orchestration/ledger.py:201-237 | changes the named fields and time stamps of the row, and no other row |
| `Ledger.ChangeIsExact` | core/orchestration/ledger.py:201-237 | every field of every row after a change |
| `Ledger.Store.GetPendingWorkItems` | core/orchestration/ledger.py:248-265 | returns the ready items |
| `Ledger.ReadyItemsHold` | core/orchestration/ledger.py:248-265 | exactly the pending items whose dependencies, as far as they have rows, are completed or skipped, by priority and age |
| `Ledger.ItemsOfHold` | core/orchestration/ledger.py:239-246 | exactly the items of the workflow |
| `Ledger.Store.ResolveInterrupt` | core/orchestration/ledger.py:490-503 | resolves an open interrupt once |
| `Ledger.ResolveIsExact` | core/orchestration/ledger.py:490-503 | the open interrupt of that id gets the resolution, and no other row changes |
| `Ledger.Store.GetUnresolvedInterrupts` | core/orchestration/ledger.py:505-513 | exactly the open interrupts of the workflow, oldest first |
| `Ledger.UnresolvedHold` | core/orchestration/ledger.py:505-513 | the selection holds exactly the open rows of the workflow, by creation time |
| `Ledger.ResolvedIsGone` | core/orchestration/ledger.py:490-513 | resolving an interrupt takes it, and nothing else, off the list of open ones |
| `CooperativeWorkflow.CooperativeEngine.Start` | core/orchestration/workflow.py:102-137 | inserts the items one by one, then moves to RUNNING; the loop starts only if the move succeeds |
| `EngineCalls.InsertAllHolds` | core/orchestration/workflow.py:102-137 | items are stored in order under the workflow, up to the first one the table refuses |
| `EngineCalls.StartHolds` | core/orchestration/workflow.py:102-137 | the loop starts exactly if all items were stored and the workflow was created, suspended or failed |
| `CooperativeWorkflow.CooperativeEngine.Receive` | core/orchestration/workflow.py:139-172 | a success completes, a failure fails, other outcomes leave the item |
| `EngineCalls.ReceiptHolds` | core/orchestration/workflow.py:139-172 | every row after a receipt: completed with the summary, failed with the detail, or as it was |
| `CooperativeWorkflow.CooperativeEngine.Interrupted` | core/orchestration/workflow.py:193-201 | records the interrupt; a storm suspends |
| `EngineCalls.InterruptHolds` | core/orchestration/workflow.py:193-201 | a new interrupt is kept open; a storm suspends its workflow exactly if that is running |
| `CooperativeWorkflow.CooperativeEngine.Cancel` | core/orchestration/workflow.py:203-210 | stops the loop and cancels where the table allows it |
| `EngineCalls.CancelHolds` | core/orchestration/workflow.py:203-210 | the loop goes in any case; a created, running or suspended workflow ends as cancelled |
| `CooperativeWorkflow.CooperativeEngine.AddItems` | core/orchestration/workflow.py:212-227 | inserts items until one violates a constraint |
| `CooperativeWorkflow.CooperativeEngine.Dispatch` | core/orchestration/workflow.py:229-272 | one turn: hands out the ready items, completes when all unblocked items are done, else lets the watchdogs raise interrupts |
| `EngineCalls.CompletesIff` | core/orchestration/workflow.py:245-257 | a turn completes a running workflow exactly if some item of it is not blocked and each one is blocked, completed, failed or skipped |
| `EngineCalls.DispatchHolds` | core/orchestration/workflow.py:229-272 | what a turn hands out and writes, whether or not anything is left to do |
| `CooperativeWorkflow.CooperativeEngine.Complete` | core/orchestration/workflow.py:293-316 | writes the synthesis with the move to COMPLETED, whose result is ignored |
| `CooperativeWorkflow.BuildSynthesis` | core/orchestration/workflow.py:299-307 | one line for each item with a result or an error, or the default text |
| `EngineCalls.LineHolds` | core/orchestration/workflow.py:299-307 | an item's line: its result, else its error, else none |
| `EngineCalls.SynthesisHolds` | core/orchestration/workflow.py:299-307 | lines are joined by line breaks, with a default text without any |
| `WorkflowRuns.ApplySteps` | core/orchestration/ledger.py:102-147 | each call moves each workflow along at most one edge, and keeps a synthesis exactly in completed rows and an end time in every ended row |
| `WorkflowRuns.HistoryIsPath` | core/orchestration/ledger.py:102-147 | over any calls the history of a workflow created as CREATED is a path in the transition table |
| `WorkflowRuns.EndIsAbsorbing` | core/orchestration/ledger.py:102-124 | completed and cancelled workflows never change again, in any field |
| `WorkflowRuns.ApplyKeeps` | core/orchestration/workflow.py:139-172 | every disciplined call keeps the invariant: started or finished items, and handed out ones, have their dependencies completed or skipped |
| `WorkflowRuns.RunIsSafe` | core/orchestration/workflow.py:229-239 | the invariant holds over every disciplined run |
| `WorkflowRuns.FreshRunIsSafe` | core/orchestration/ledger.py:248-265 | in every disciplined run from an empty ledger, each dependency of a started or finished item is completed or skipped |
| `WorkflowProgress.StuckLeadsOut` | core/orchestration/workflow.py:229-257 | when nothing is ready, unmet dependencies lead from any pending item to one in somebody's hands, or round a cycle |
| `WorkflowProgress.AcyclicProgresses` | core/orchestration/ledger.py:248-265 | without cycles and with nothing in hand, a pending item means a ready item |
| `WorkflowProgress.UnblockedOrUnknown` | core/orchestration/ledger.py:256-261 | the readiness query means all dependencies met exactly when each of them has a row |
| `UnknownDependency.UnknownDependencyStarts` | core/orchestration/ledger.py:256-261 | a run in which an item is started before a dependency that is added later |
| `FailedDependency.FailureNeverPassedOver` | core/orchestration/workflow.py:153-158 | once an item failed, no disciplined run hands out or starts what depends on it |
| `FailedDependency.PendingKeepsOpen` | core/orchestration/workflow.py:247-257 | a pending item left alone keeps its workflow from completing and from failing, over every disciplined run |
| `FailedDependency.FailureStrandsWorkflow` | core/orchestration/workflow.py:229-272 | behind a failed dependency, left alone, an item stays pending and unhanded and its workflow neither completes nor newly fails, over every disciplined run |
| `FailedDependency.FailingRun` | core/orchestration/workflow.py:139-158 | a disciplined run from an empty ledger into that situation |
| `Discussion.ClaimTable.SubmitClaim` | core/orchestration/discussion.py:112-124 | inserts a claim with a new id |
| `Discussion.ClaimTable.SubmitAttack` | core/orchestration/discussion.py:126-158 | marks the claim as attacked |
| `Discussion.ClaimTable.SubmitRepair` | core/orchestration/discussion.py:160-182 | rewrites the claim and marks it repaired, without a guard |
| `Discussion.DiscussionControl.Start` | core/orchestration/discussion.py:93-110 | starts the loop exactly if the workflow can move to RUNNING; a running one is refused and left alone |
| `Discussion.DiscussionControl.SubmitSynthesis` | core/orchestration/discussion.py:184-218 | moves to COMPLETED with the synthesis where the table allows it, and forgets the loop either way |
| `Discussion.DiscussionControl.Cancel` | core/orchestration/discussion.py:220-227 | stops the loop and cancels where the table allows it |
| `Discussion.LastCallDecides` | core/orchestration/discussion.py:140-181 | over any calls a claim stands, in every field, as the last attack or repair that names it left it |
| `Discussion.CheckConvergence` | core/orchestration/discussion.py:321-341 | there are claims and the threshold's share is accepted or repaired |
| `Discussion.ConvergedMeans` | core/orchestration/discussion.py:331-341 | there are claims, and the accepted and repaired ones reach the threshold's share |
| `Discussion.ChecksWhatStands` | core/orchestration/discussion.py:231-251 | the check of a round reads the workflow's claims after all calls up to its attacks |
| `Discussion.DiscussionEngine.DiscussionLoop` | core/orchestration/discussion.py:231-298 | a run ends as the step that does not return says: undisturbed it logs exactly the clean run; raising it logs a prefix of it and asks for FAILED; cancelled it logs a prefix |
| `Discussion.DiscussionEngine.AttackRound` | core/orchestration/discussion.py:240-251 | attack, wait, convergence check |
| `Discussion.DiscussionEngine.RepairRound` | core/orchestration/discussion.py:253-273 | repair, wait, watchdogs, and SUSPENDED if interrupts are open |
| `Discussion.RunShape` | core/orchestration/discussion.py:231-298 | a clean run emits claim (attack repair)^k and then attack synthesize, nothing, or synthesize, as it converged, was interrupted or ran out of rounds, and exactly then |
| `Discussion.RunIsExact` | core/orchestration/discussion.py:231-298 | the log of a clean run, event by event, with round numbers and waits |
| `Discussion.WaitIsBounded` | core/orchestration/discussion.py:235-255 | however it ends, finished, cancelled or raised, a run attacks at most max_rounds times and waits at most the claim timeout and max_rounds full rounds |
| `Discussion.WaitOfPrefix` | core/orchestration/discussion.py:288-298 | a run cut short emits a prefix of the phases and waits no longer |
| `SentenceSplitter.ShieldAbbreviations` | core/memory/chunking.py:60-67 | masks the dots of each abbreviation in turn |
| `SentenceSplitter.RestoreUrls` | core/memory/chunking.py:46-49 | replaces the tokens in order |
| `SentenceSplitter.SplitSentences` | core/memory/chunking.py:52-75 | the protect, shield, split, strip and restore passes in sequence |
| `SentencesLossless.SplitTextIsSentences` | core/memory/chunking.py:30-75 | a text is cut exactly after the words that close a sentence (a final . ! or ?, except the dot of an abbreviation outside a URL) if and only if every word survives |
| `SentenceRules.ClosingWordsAre` | core/memory/chunking.py:12-28 | a word closes its sentence if it ends in ! or ?, or in a dot and has a URL or ends in no abbreviation, letters compared without case |
| `SentenceRules.UrlsAre` | core/memory/chunking.py:12-43 | a word has a URL exactly if http:// or https:// and one more character occur in it, and the first such place is taken |
| `SentenceRules.GroupsAre` | core/memory/chunking.py:69 | grouping cuts after each closing word and nowhere else |
| `SentenceRules.WordsAre` | core/memory/chunking.py:54 | whitespace separates words, and a text without any is one word |
| `SentencesLossless.SplitTextIsLossless` | core/memory/chunking.py:30-75 | the sentences joined by spaces are the normalised text if and only if every word survives |
| `SentencesLossless.SurvivesWithoutUrls` | core/memory/chunking.py:60-72 | a text without URLs comes through exactly when it does not contain the dot mark |
| `SentencesLossless.SurvivesWithoutUnderscores` | core/memory/chunking.py:30-75 | a text without double underscores comes through, whatever its URLs |
| `SentencesLossless.MarkIsLost` | core/memory/chunking.py:60-72 | a single word that holds no URL comes through exactly when it does not contain the dot mark |
| `SentencesLossless.TokenCompletesMark` | core/memory/chunking.py:30-72 | `__DOT` in front of a URL is destroyed: the token completes the mark |
| `SentencesLossless.RestoreWord` | core/memory/chunking.py:30-49 | a masked word is restored exactly when it survives; otherwise it comes back with a dot or a URL in place of an underscore |
| `SentenceMasking.MaskedWordEnds` | core/memory/chunking.py:60-69 | a masked word shows a terminal exactly when the word closes its sentence |
| `SentenceMasking.LastDotFlagged` | core/memory/chunking.py:60-67 | a final dot is masked exactly when an abbreviation ends the word, through all abbreviations in turn |
| `SentenceMasking.ProtectJoin` | core/memory/chunking.py:30-43 | URL protection works word by word, with consecutive token numbers |
| `SentenceMasking.SplitIsGroup` | core/memory/chunking.py:12-69 | splitting is grouping of words |
| `Chunks.CarryOver` | core/memory/chunking.py:103-113 | keeps the last sentence, and as many before it as fit the overlap |
| `Chunks.ChunkText` | core/memory/chunking.py:78-125 | the chunks are greedy windows of the sentences |
| `Chunks.ChunkSentences` | core/memory/chunking.py:92-123 | windows start at 0, end at n, advance, share or touch, and are cut only when the next sentence would pass the limit |
| `Chunks.GreedyIsUnique` | core/memory/chunking.py:96-123 | these conditions determine the windows |
| `Chunks.ChunkLength` | core/memory/chunking.py:92-123 | a chunk is within the limit, or holds its carry and one more sentence |
| `Chunks.ChunksJoin` | core/memory/chunking.py:114-123 | without overlap the chunks partition the sentences |
| `Chunks.ChunksAreLossless` | core/memory/chunking.py:78-125 | without overlap the chunks join to the normalised text, nothing lost or doubled, if and only if every word survives |
| `TaskOutbox.TaskQueue.Push` | core/tasks/queue.py:55-72 | appends an unsynced row |
| `TaskOutbox.TaskQueue.MarkSynced` | core/tasks/queue.py:95-112 | marks exactly the named rows and counts them |
| `TaskOutbox.TaskQueue.Prune` | core/tasks/queue.py:114-126 | deletes exactly the synced rows older than the cutoff |
| `TaskOutbox.PrunedHolds` | core/tasks/queue.py:114-126 | a row stays unless it is synced and older than the cutoff |
| `TaskOutbox.PendingIsOldest` | core/tasks/queue.py:74-93 | the batch is unsynced, oldest first, and nothing older is left out |
| `TaskOutbox.TaskSyncWorker.DrainOnce` | core/tasks/sync.py:65-113 | publishes in order until a failure, then marks what was published; one drain is a run of protocol steps |
| `TaskOutbox.DrainIsExact` | core/tasks/sync.py:65-113 | one drain, literally: the 50 oldest unsynced events are published up to the first failure, and exactly the acknowledged ones marked |
| `TaskOutbox.StepKeeps` | core/tasks/sync.py:65-113 | every push, publication, failure, mark, crash and prune keeps the invariant |
| `TaskOutbox.DeliveryHolds` | core/tasks/sync.py:73-113 | in every run the log without repeats is a prefix of push order, marked or pruned events were published, and at most 50 are published but unmarked |
| `TaskOutbox.DrainsProgress` | core/tasks/sync.py:73-113 | after any run, k drains without failures leave the pending events but the oldest 50k; when none is left, every event was published |
| `DeadLetters.DeadLetterBus.DeadLetter` | core/events/bus.py:153-183 | appends the fields with the three extra ones, or nothing when the write fails |
| `DeadLetters.DeadFieldsHold` | core/events/bus.py:168-173 | reason, origin and id stand under their names, every other field as it was |
| `DeadLetters.ReplayRestores` | core/events/bus.py:168-239 | dead-lettering and replaying restores the exact fields if and only if none has a reserved name |
| `DeadLetters.DeadLetterBus.ReplayEntry` | core/events/bus.py:224-262 | skips without origin; appends, then deletes if asked; counts an error of either call |
| `DeadLetters.PayloadHolds` | core/events/bus.py:242-252 | what is replayed are the fields but for the four reserved names |
| `DeadLetters.ReplayIsExact` | core/events/bus.py:233-262 | what one entry appends, deletes and counts as, from its fields and the fates of the two calls |
| `DeadLetters.DeadLetterBus.ReplayDeadLetters` | core/events/bus.py:214-270 | handles the inspected entries in order and counts each outcome |
| `DeadLetters.EveryEntryIsCounted` | core/events/bus.py:219-270 | inspected is replayed and skipped and errors |
| `DeadLetters.NoLossIff` | core/events/bus.py:224-262 | no failure pattern loses a dead letter exactly when replayed entries are kept or no inspected one with a payload names another by a msg_id field |
| `DeadLetters.NamedIsLost` | core/events/bus.py:225-254 | otherwise there is a failure pattern that loses one |
| `DeadLetters.CleanPass` | core/events/bus.py:224-254 | without failures exactly the replayed entries leave, and all were appended |
| `DeadLetters.GroupConsumer.HandleBatch` | core/events/bus.py:133-147 | yield, acknowledge, or set aside, message by message |
| `DeadLetters.BatchIsExact` | core/events/bus.py:133-147 | what each message of a batch yields, acknowledges and sets aside |
| `DeadLetters.NoMessageVanishes` | core/events/bus.py:133-147 | nothing is acknowledged before it was yielded; a message stays pending unless its acknowledgement took effect |
| `Decay.MemoryTable.DecayStaleEntries` | core/memory/maintenance.py:259-353 | updates row by row and deletes at the end treat each row by itself; outside dry-run every stale row is counted once |
| `Decay.PassIsExact` | core/memory/maintenance.py:281-341 | a stale entry gets its importance times one half to the power of whole days / 30, or goes if that is below 0.05 and it is over seven days old; a failed statement leaves it, and so does not being stale |
| `Decay.PassTreatsEach` | core/memory/maintenance.py:299-341 | what is in the table after a pass is what each entry's own treatment leaves |
| `Decay.NeverRises` | core/memory/maintenance.py:304-330 | no importance rises or goes negative, and nothing else changes |
| `Decay.FactorHalves` | core/memory/maintenance.py:305-307 | thirty days or more at least halve |
| `Decay.Halves` | core/memory/maintenance.py:304-341 | a successful pass at least halves a stale entry, or removes it exactly when it falls below the floor |
| `Decay.GoneWithinFive` | core/memory/maintenance.py:281-341 | within five successful passes an untouched entry is gone or rests exactly at the floor |
| `Decay.PassesCompound` | core/memory/maintenance.py:305-307 | a second pass at the same moment leaves an entry alone exactly when the first left it at the floor or below |
| `Decay.SecondPassDecaysAgain` | core/memory/maintenance.py:305-307 | importance 1 goes to one half thirty days on, and to a quarter in a second pass at the same moment |
| `Promotion.WorkingMemory.PromoteItem` | core/memory/maintenance.py:159-245 | criteria, insert, then delete; an error of either is counted |
| `Promotion.HandlingIsExact` | core/memory/maintenance.py:159-245 | what handling one entry adds, deletes and counts as; the row holds the stripped text, the figures, the id, the kind and the agent of the entry |
| `Promotion.WorkingMemory.PromoteWorkingMemory` | core/memory/maintenance.py:151-245 | handles every entry of every scanned key in turn |
| `Promotion.PromotionLosesNothing` | core/memory/maintenance.py:151-245 | under all failures every entry is in Redis or a row of the store holds it, none below the criteria leaves Redis, and the counts add up |
| `Promotion.CountsMatchRows` | core/memory/maintenance.py:159-245 | every counted promotion added a row, and every added row is counted as promotion or error |
| `Promotion.CleanPassMoves` | core/memory/maintenance.py:171-236 | without failures every entry worth promoting leaves Redis, and a row holds it |
| `Expiration.ChunkTable.DeleteOrphans` | core/memory/maintenance.py:412-443 | deletes exactly the orphans in floor(N / 500) + 1 batches; a failing batch leaves the rest and reports none |
| `Expiration.OrphansAre` | core/memory/maintenance.py:413-432 | an orphan is a chunk whose document is not there |
| `Expiration.ChunkTable.DeleteBatch` | core/memory/maintenance.py:413-432 | deletes some five hundred orphans, or all if there are fewer |
| `Router.ComputeRouter.FindProviderByCompute` | core/orchestration/router.py:275-289 | finds a provider exactly when one serves the target |
| `Router.ProviderIff` | core/orchestration/router.py:275-289 | the first direct provider is preferred to the lemonade backends |
| `Router.ComputeRouter.ResolveRules` | core/orchestration/router.py:238-273 | the best eligible rule: highest priority, earliest in the configuration on ties; nothing exactly when none is eligible |
| `Router.RuleRouting` | core/orchestration/router.py:238-273 | a rule decision comes from the rule that wins, and goes to a provider of the compute that rule names, or of the default one if it names none; the default decides only if no rule applies |
| `Router.FirstEligibleIsBest` | core/orchestration/router.py:184-189 | scanning the stably sorted rules finds the best one first |
| `Router.ComputeRouter.ResolvePreferredModel` | core/orchestration/router.py:196-214 | the first tier that lists the model and has a provider |
| `Router.ModelRouting` | core/orchestration/router.py:196-214 | a preferred model goes, under its own name, to a provider of the first tier that can serve it |
| `Router.TierRouting` | core/orchestration/router.py:216-236 | a named tier goes to a provider of its target, if there is one, with its first model |
| `Router.DefaultRouting` | core/orchestration/router.py:142-149 | the default is the provider named like the default compute, else the one named lemonade |
| `Router.ComputeRouter.ResolveQuery` | core/orchestration/router.py:97-149 | model, tier, rule or default, each only when nothing before it applies |
| `Router.WhoDecides` | core/orchestration/router.py:97-149 | which of the four ways decides, in terms of tiers, rules and providers |
| `Router.DecisionIsUnique` | core/orchestration/router.py:97-149 | configuration and query fix the decision |
| `Router.ProviderMissingIff` | core/orchestration/router.py:97-149 | a decision lacks a provider exactly when the query names a tier nobody serves, or falls through to a default nobody is named for |
| `Router.ComputeRouter.SetNpuHotModel` | core/orchestration/router.py:155-158 | sets the hot model and leaves routing alone |
| `Ordering.SortHolds` | core/orchestration/router.py:184-189 | the stable sort lists every position once, by key and then by position |

## Left out

- TopologicalSort.Sort: that dependencies come first is promised when no repeated name is depended on; with a shared dependency it says what the order is, not when it happens to respect the dependencies.
- CooperativeWorkflow.CooperativeEngine.Receive: the swarm note of a partial outcome and the `on_receipt_received` callback are not modelled.
- CooperativeWorkflow.CooperativeEngine.Interrupted: the `on_interrupt` callback is not modelled.
- CooperativeWorkflow.CooperativeEngine.Dispatch: one turn is one step; calls of others between its statements are not interleaved, and a handler for ready items is taken to be set; the `on_interrupt` notifications of open interrupts are not modelled.
- CooperativeWorkflow.CooperativeEngine.Complete: the `on_completed`, `on_failed` and other callbacks, swarm notes and decisions are not modelled.
- Ledger.Store.UpdateWorkflowStatus: the read and the write are one step; in the program they are two statements on one connection.
- Discussion.DiscussionEngine.DiscussionLoop: what agents do arrives in the waits; a failure of the FAILED update itself is not modelled.
- Discussion.DiscussionControl.SubmitSynthesis: the decision packet and the `on_completed` callback are not modelled.
- Discussion.CheckConvergence: the share is compared in real numbers, without floating-point rounding.
- Discussion.ClaimTable.SubmitClaim: the foreign key to the workflow is not modelled.
- Discussion.ClaimTable.SubmitAttack: the swarm note that announces the attack is not modelled.
- PipelineRunner.Runner.ExecutePipeline: parameters, payloads and handler results carry no content; triggers, cron matching and loading of pipelines are not modelled.
- PipelineRunner.Runner.ExecuteStep: the record is counted when it is handed to the audit pool; a failing insert is logged by the program and changes nothing else.
- ApprovalGate.Gate.HumanApprove: a reply at the time limit itself counts as late.
- TaskOutbox.TaskSyncWorker.DrainOnce: the envelope's category and priority are not modelled; the polling loop is the sequence of drains a run consists of.
- DeadLetters.DeadLetterBus.ReplayEntry: an append whose original stream is the dead-letter stream itself is recorded as appended, not as a new dead letter.
- DeadLetters.GroupConsumer.HandleBatch: polling, and creation of the consumer group, are not modelled.
- Decay.MemoryTable.DecayStaleEntries: importances are real numbers, and the daily factor is any positive root whose thirtieth power is one half; the database's clock and the process's clock show the same instant; a failing statement has no effect.
- Promotion.WorkingMemory.PromoteWorkingMemory: dry runs, embeddings and metadata are not modelled, and a stored value that is JSON has fields of the right kinds.
- Expiration.ChunkTable.DeleteOrphans: deletion of expired entries is one statement and not modelled.
- Router.ComputeRouter.ResolveQuery: models are listed by id, without the record form; endpoint addresses are not modelled.
- Watchdogs are steps that may raise interrupts; their heuristics are not modelled.
- The gateway, voice, vision, setup and secrets packages, scripts and container files: wrappers, prompts and flat checks.
