# A verified model of the orchestration server's hard core

This Dafny project models the parts of the server whose behaviour is easy to state and hard to be
sure of, and proves what they promise over all inputs, all runs and all interleavings.

| area | files |
|---|---|
| step graphs: the workflow sort, the governance checks, the policy search, and their agreement | `Graphs`, `Coloring`, `Kahn`, `Governance`, `SchedulerPolicy`, `DagAgreement` |
| the workflow engine: definitions, batches, checkpoints, resuming | `Steps`, `WorkflowDefinition`, `RunHistory`, `Engine`, `CallLog`, `StepRuns`, `TaskFunctions`, `Resume` |
| task logs read backwards in chunks | `LogTail`, `LogFiles` |
| event and log streams that subscribe first and catch up after | `EventStream`, `EventProgress`, `EventRaces`, `EventHub`, `LogStream` |
| the chat store's transactions and its two pagings | `ChatStore`, `ChatEffects`, `ChatPaging` |
| the token bucket and its cleanup | `RateLimit`, `RateGrants`, `RateKeys`, `RateWindows` |
| task guardrails, decomposed parents and their children | `TaskTracker`, `Decomposition`, `FamilyLayout`, `FamilyCalls`, `Orchestration` (in `Orchestrator.dfy`) |
| signed envelopes and the byte encodings below them | `Codecs`, `Attest` |
| shared: missing values, sequence numbers | `Options`, `Numbering` |

`dafny verify dfyconfig.toml` checks everything.

## How the source appears here

Code that works step by step is imperative here too: methods with loops, classes for the objects
whose fields change (`Engine`, `CycleSearch`, `Marker`, `PlanSearch`, `Hub`, `TaskEventRepo`,
`RateLimiter`, `Orchestrator`). Each such method is proved against a specification function or
property, and the claims about runs are lemmas on those specifications. Protocols that several
goroutines or several server instances run together are state machines: a step is one indivisible
action of one participant, and a theorem covers every sequence of enabled steps. A Go map's iteration
order is an arbitrary choice. Runners, event handlers, the order in which goroutines finish, the clock
and failing calls are parameters that may behave in any way unless a premise says otherwise.

Premises, where a property needs them:

- Resuming: each runner's *successful* output is a function of its dependencies' outputs and the
  initial input (`TaskFunctions.Faithful`). When it fails, pauses or is rejected is open; a run whose steps
  all succeed on what they are given and whose announcements are all accepted is shown to succeed.
- The gap-free event stream: a publication (number, insert, broadcast) is one step; from the catch-up
  query until the loop ends it finds room in the channel; and the client does not ask for numbers beyond
  the table. Each part is shown to be needed: a late broadcast repeats a number
  (`EventStream.LateBroadcastRepeats`), in every state a run can reach from the query on a dropped
  publication can leave a gap (`EventRaces.DropLeavesGap`), and so can every request beyond the table
  (`EventStream.AskingAheadBreaks`). With commit and broadcast apart, `EventRaces.LiveRepeats` says
  exactly which numbers are sent twice.
- The tail as a suffix of the list: a blank line does not parse, and a line that parses as the scanner
  hands it out parses to the same log when trimmed. Both hold of `strings.TrimSpace` with JSON. Whether the
  claim holds is then a matter of the file, and `LogTail.TailIsSuffixExactly` says of which files it does:
  `strings.TrimSpace` removes a vertical tab that JSON does not allow (`LogTail.VerticalTabBreaksSuffix`).
- The chat store: turn ids are unique and not empty, and a turn finishes with a final status. The
  last two are shown to be needed. Row locks are held to the end of the transaction.
- Conversation listing: the database compares ids by some strict total order, keys are distinct and
  rows are not deleted while a client pages.
- The rate limiter: the interval is positive and the clock does not run backwards.
- Task statuses: the calls on task records do not overlap. Limits may change from call to call; what is
  bounded is then the largest one in force (`TaskTracker.UnreadableProjectLifts`).
- Decomposed parents: no call starts a child out of turn or merges a decomposed parent before its
  children, unless its guards turn it down. `FamilyLayout.WorkExact` and `FamilyLayout.ExecuteExact` show
  that the calls outside this premise are exactly the ones that break the layout; `Execute` takes any task,
  so there are such calls (`FamilyLayout.SecondFirst`). What the parent records about a failed child needs
  more: that child is left to `RetryBlockedParent`, whose clearing write succeeds.
  `FamilyLayout.ActExact` says of every call whether layout and record survive it.
  Child rows exist from the start of a run as not started.
- Signatures: what the private key signs, the matching public key verifies.

## Where the code and its comments part

- A failed clearing of the recorded child in `RetryBlockedParent` is only logged
  (`server/internal/orchestrator/decomposition.go:140-142`). The record then goes stale;
  `Decomposition.RetryExact` says exactly when, `Decomposition.FailedClearGoesStale` shows a run.
- Blocked is described as reachable from any in-flight task that trips a guardrail
  (`server/pkg/models/task.go:25-32`). The table lets only coding, reviewing, fixing and testing into it, so a
  guardrail that trips on, say, an analysing task makes every move but failing and merging an error
  (`TaskTracker.TrippedExactly`, `TaskTracker.TimedOutAnalysisIsStuck`).
- The comment on `dispatchNextChildOrReduce` speaks of starting the next unstarted or retried child; the code starts
  only one whose status is todo or empty. The model follows the code.
- Cleanup compares strictly, so a bucket goes once it is *more* than ten minutes old; the exact conditions in
  `RateLimit.EvictionExact` and `RateWindows.WindowExact` use the first such moment.
- Cleanup is described as preventing memory leaks only. For slow rates it also hands out a new burst before the old bucket
  has refilled, and the bound on a window then fails; `RateWindows.WindowExact` gives the configurations for
  which it holds, whatever the burst and the rate. The server's own limiter is one of them
  (`RateWindows.ServerLimiterBounded`).
- With repeated step ids the governance index keeps the last dependency list while the two other checkers
  pool them, and terminals are found from every list. The governance search then accepts more than the other
  two, which still agree (`DagAgreement.Agree`, `DagAgreement.RepeatedIdsDisagree`). And checks 1 to 3 no
  longer imply the dead-end check: on an acyclic index it passes iff no step has shadowed dependents only,
  that is, whoever some list names as a dependency is named by a list the index keeps
  (`Governance.DrainedExactly`, with a pipeline that fails it in `Governance.RepeatedIdMakesDeadEnd`).
- One line over ten megabytes makes `ListLogs` fail while `TailLogs` still answers.

## Model

| member | source | states |
|---|---|---|
| `Graphs.LastWins` | server/internal/governance/dag.go:33-36 | the index keeps the dependency list of the last step with an id |
| `Graphs.PooledEdges` | server/internal/policy/scheduler_policy.go:65-74 | the accumulated adjacency has exactly the edges some step lists |
| `Graphs.DistinctGraphs` | server/internal/workflow/graph.go:11-22 | with distinct ids indexing and pooling give the same graph |
| `Graphs.TopoOrderAcyclic` | server/internal/workflow/graph.go:44-47 | an order that lists every node with dependencies, dependencies first, rules out every cycle |
| `Graphs.StuckSetHasCycle` | server/internal/workflow/graph.go:44-47 | a nonempty finite set in which every node depends on a member contains a cycle |
| `Graphs.TrappedSetHasCycle` | server/internal/governance/dag.go:200-229 | a nonempty finite set in which every node has a dependent in the set contains a cycle |
| `Kahn.BuildTables` | server/internal/workflow/graph.go:12-22 | in-degrees count dependency entries with repetitions and the reversed table has the same multiplicities, for every step list |
| `Kahn.SeedQueue` | server/internal/workflow/graph.go:24-29 | in whatever map order, the queue starts with exactly the steps without dependencies, once each |
| `Kahn.Release` | server/internal/workflow/graph.go:31-42 | one pop keeps the sort's invariant with the popped step listed after its dependencies |
| `Kahn.ValidateDAG` | server/internal/workflow/graph.go:11-48 | on any step list the sort succeeds iff every dependency is listed and the graph is acyclic; then it lists every id once, dependencies first |
| `Governance.CheckDepsResolve` | server/internal/governance/dag.go:69-82 | reports exactly the missing dependencies; silent iff all resolve |
| `Governance.CycleSearch.Visit` | server/internal/governance/dag.go:88-111 | the coloured search either names a step that lies on a cycle or finishes its node with the stack as it was |
| `Governance.CycleSearch.FollowAll` | server/internal/governance/dag.go:91-107 | as Visit, over all dependencies of a grey step |
| `Governance.CheckAcyclic` | server/internal/governance/dag.go:84-122 | silent iff the graph is acyclic; a named step really lies on a cycle |
| `Governance.FindEntries` | server/internal/governance/dag.go:124-132 | the ids of the steps without dependencies, in list order |
| `Governance.ReachableFrom` | server/internal/governance/dag.go:144-169 | exactly the ids from which a dependency walk leads to the entry |
| `Governance.CheckReachability` | server/internal/governance/dag.go:171-182 | reports exactly the steps outside the given set |
| `Governance.FindTerminals` | server/internal/governance/dag.go:184-198 | exactly the ids no step depends on |
| `Governance.Marker.Mark` | server/internal/governance/dag.go:203-217 | marking adds the id, is closed under dependencies on what it adds, and adds nothing unrelated |
| `Governance.MarkDrained` | server/internal/governance/dag.go:200-220 | from all terminals, in any order, exactly the ids some terminal depends on are marked |
| `Governance.CheckNoDeadEnds` | server/internal/governance/dag.go:200-229 | reports exactly the steps no terminal step reaches |
| `Governance.NothingUnreachable` | server/internal/governance/dag.go:28-67 | resolved, acyclic and single-rooted: every step depends on the entry, so check 4 never fires |
| `Governance.DrainedExactly` | server/internal/governance/dag.go:184-229 | on any list whose index is acyclic, every step is drained iff no step has shadowed dependents only: each step that some list names as a dependency is named by a list the index keeps |
| `Governance.NoDeadEnd` | server/internal/governance/dag.go:28-67 | distinct ids and no cycle: some terminal reaches every step, so check 5 never fires |
| `Governance.ValidateDAG` | server/internal/governance/dag.go:28-67 | on any list: passes iff empty, or resolved, acyclic and single-rooted with no step that has shadowed dependents only; every report is justified; with distinct ids the last condition falls away and no dead end is ever reported |
| `Governance.RepeatedIdMakesDeadEnd` | server/internal/governance/dag.go:33-36 | for any three ids, a pipeline with one id repeated that passes checks 1 to 3 and has a dead end |
| `SchedulerPolicy.ExternalHarmless` | server/internal/policy/scheduler_policy.go:80-84 | skipping dependencies outside the plan hides no cycle and invents none |
| `SchedulerPolicy.BuildAdjacency` | server/internal/policy/scheduler_policy.go:65-74 | the adjacency pools the dependencies of units with one id |
| `SchedulerPolicy.PlanSearch.Visit` | server/internal/policy/scheduler_policy.go:76-96 | the search answers true only for a node that leads to a cycle, and otherwise finishes it |
| `SchedulerPolicy.SearchAll` | server/internal/policy/scheduler_policy.go:98-106 | from all nodes in any order: passes iff acyclic; a reported node leads to a cycle |
| `SchedulerPolicy.ValidateDAG` | server/internal/policy/scheduler_policy.go:52-107 | passes iff no unit is over the threshold and the plan is acyclic; names the first unit over it, or a unit that leads to a cycle |
| `DagAgreement.Agree` | server/internal/workflow/graph.go:11-48 | on any list with no unit over cost: the sort accepts iff dependencies resolve and the policy search accepts, and what that one accepts the governance search accepts; on distinct ids the two searches agree, and with resolved dependencies all three give the verdict of acyclicity |
| `DagAgreement.PooledAcyclicSuffices` | server/internal/governance/dag.go:33-36 | a cycle through the index is a cycle through the pooled lists |
| `DagAgreement.RepeatedIdsDisagree` | server/internal/governance/dag.go:33-36 | with a repeated id the index can be acyclic while the pooled graph has a cycle |
| `Steps.AggregateInputs` | server/internal/workflow/engine.go:212-223 | the loop computes the overlay of dependencies' outputs on the initial input |
| `Steps.LastSupplierWins` | server/internal/workflow/engine.go:212-223 | a key's value comes from the last dependency that supplies it |
| `Steps.InitialShowsThrough` | server/internal/workflow/engine.go:212-223 | a key no dependency supplies keeps the initial input's value, and is absent if it had none |
| `WorkflowDefinition.CheckIds` | server/internal/workflow/engine.go:246-255 | accepts iff every id is present and none repeats |
| `WorkflowDefinition.CheckDependencies` | server/internal/workflow/engine.go:256-262 | accepts iff every dependency names a step |
| `WorkflowDefinition.ValidateDefinition` | server/internal/workflow/engine.go:245-267 | accepts iff ids are present and distinct, dependencies resolve and the graph is acyclic |
| `WorkflowDefinition.ReadySteps` | server/internal/workflow/engine.go:225-243 | the loop collects the ready steps in definition order |
| `WorkflowDefinition.ReadyMembers` | server/internal/workflow/engine.go:225-243 | exactly the pending steps whose dependencies are all success or skipped |
| `WorkflowDefinition.ReadyDistinct` | server/internal/workflow/engine.go:225-243 | no ready step is listed twice |
| `WorkflowDefinition.NoStall` | server/internal/workflow/engine.go:113-116 | for a valid definition nothing is ready only when everything has succeeded |
| `RunHistory.StartedOnce` | server/internal/workflow/engine.go:111-135 | in a schedule no step is started twice and no seeded step is started |
| `RunHistory.DependenciesFirst` | server/internal/workflow/engine.go:225-243 | in a schedule whatever a started step depends on was seeded or started in an earlier batch |
| `RunHistory.HistoryOutputs` | server/internal/workflow/engine.go:163-168 | the outputs of a schedule keep the seeds, belong to seeded or started steps, and are those of all of them once everything has succeeded |
| `RunHistory.SettledAfter` | server/internal/workflow/engine.go:111-178 | between batches every seeded or started step is success with an output and every other step is pending |
| `TaskFunctions.GroundedUnique` | server/internal/workflow/engine.go:87-185 | two output tables that follow one task function on an acyclic graph agree wherever both are defined |
| `TaskFunctions.GenuineGrounded` | server/internal/workflow/engine.go:137-170 | outputs that steps really produced are the task function's values when the seeds were and the runners follow it |
| `TaskFunctions.RunValues` | server/internal/workflow/engine.go:87-185 | a run from good seeds returns the task function's values, and returns no error when every announcement is accepted and every step that has its dependencies succeeds |
| `Engine.Launch` | server/internal/workflow/engine.go:127-143 | the starting loop starts the batch in order, each step announced at one moment, unless it is the resumed one, and run at the next; it stops early exactly when the announcement just made was turned down, with that step marked running |
| `Engine.Engine.Drain` | server/internal/workflow/engine.go:144-173 | in any arrival order each result is read once, at a moment of its own; statuses, outputs, checkpoint, pause flag and error are those of the results read; reading stops early exactly when the announcement of the success just read was turned down |
| `Engine.Engine.RunBatch` | server/internal/workflow/engine.go:111-178 | one batch: the tables, the checkpoint and the error are those of what was started and read, and each call was made at its own moment |
| `Engine.SeedCheckpoint` | server/internal/workflow/engine.go:96-109 | seeding marks as success exactly the checkpointed steps of the definition, with their outputs |
| `Engine.Engine.RunInternal` | server/internal/workflow/engine.go:87-185 | whatever runners, handlers and arrival order do: the run ends, never with incomplete steps, and its statuses, outputs, checkpoint, pause flag and error are those of a history in which each batch is the first ready steps up to the cap, starts no step twice and none before all of the batches before it succeeded, and every run and every announcement went as the runner and the handler answered at its own moment |
| `Engine.Engine.Run` | server/internal/workflow/engine.go:79-81 | a run keeps the same promise with no step exempt from its announcement |
| `Engine.Engine.Resume` | server/internal/workflow/engine.go:83-85 | and so does a resumed one, the paused step being exempt |
| `CallLog.HonestCalls` | server/internal/workflow/engine.go:127-173 | a history is what really happened iff call number k of its log went so at moment k + 1: no moment is used twice or left out |
| `CallLog.SucceedsExactly` | server/internal/workflow/engine.go:87-185 | a run returns no error iff every announcement in its log was accepted and every run in it succeeded |
| `CallLog.ErrorTold` | server/internal/workflow/engine.go:144-178 | a run is rejected iff its last call is an announcement turned down; a step's failure is the cause for which a run in the log broke, the last one read that did |
| `CallLog.StatusTold` | server/internal/workflow/engine.go:96-173 | a status is success iff there is an output; paused, waiting for approval or failed iff the step's result in the last batch was a pause, a request for approval or any other error; running iff the step was refused at its start or not read; pending iff it was neither seeded nor started |
| `CallLog.PausedExactly` | server/internal/workflow/engine.go:149-158 | a run reports a pause iff some step is paused or waits for approval |
| `CallLog.OutputTold` | server/internal/workflow/engine.go:163-168 | each output is the checkpoint's or what a logged run of that step returned |
| `StepRuns.InputFailsExactly` | server/internal/workflow/engine.go:191-196 | a step's input is refused iff a field, from the last dependency that supplies it and else from the initial input, has a wrong type, or is required and supplied by neither |
| `StepRuns.EveryRunTold` | server/internal/workflow/engine.go:187-210 | in every run each logged run of a step reports a missing runner iff there is none, a bad input iff some field fails so, and otherwise what the runner answered at that moment, checked against the output schema, nil counting as empty |
| `StepRuns.BaseHasDependencies` | server/internal/workflow/engine.go:133-141 | the outputs each logged run was given hold those of all its dependencies, and stay to the end of the run |
| `StepRuns.EarlierStepsFirst` | server/internal/workflow/engine.go:112-118 | of the steps that could start, a batch takes those that come first in the definition |
| `StepRuns.NoneLeftOut` | server/internal/workflow/engine.go:112-118 | a step that could start is left out only when the cap is reached or an announcement stopped the batch |
| `Steps.ValueKinds` | server/internal/workflow/schema.go:42-71 | each JSON value is of exactly one named field type, null of none, and a field of unknown type takes any |
| `CallLog.StartsOnlyOnSuccess` | server/internal/workflow/engine.go:225-243 | in every run, whatever its outcome, each dependency of a started step is success, and was seeded or started in an earlier batch |
| `Resume.CheckpointGrounded` | server/internal/workflow/engine.go:96-109 | what a run leaves in the checkpoint is what the next one is seeded with |
| `Resume.CompleteRunsAgree` | server/internal/workflow/engine.go:87-185 | the outputs of a complete run are determined by the task function alone |
| `Resume.RunWithRetries` | server/internal/workflow/engine.go:83-109 | any number of interrupted runs, each with its own cap and resumed step, keeps the outputs the task function's; a success is complete; one attempt in which nothing goes wrong is enough for success |
| `Resume.ResumeEqualsCleanRun` | server/internal/workflow/engine.go:87-185 | an interrupted and resumed execution that succeeds has the outputs of one clean run that does, and each does succeed once nothing goes wrong in an attempt |
| `LogTail.SplitJoin` | server/internal/repository/workflow.go:392-405 | splitting a concatenation glues the last line of one part to the first of the next |
| `LogTail.ChunkSplit` | server/internal/repository/workflow.go:392-405 | a chunk glued to the leftover splits into the new first line and exactly the new lines |
| `LogTail.TakeLines` | server/internal/repository/workflow.go:407-415 | the inner loop adds complete non-blank lines from the back until there are n |
| `LogTail.TailLines` | server/internal/repository/workflow.go:380-423 | for every file, n and chunk size the loop collects the last n non-blank lines |
| `LogTail.ReverseLogs` | server/internal/repository/workflow.go:432-434 | the in-place swap loop reverses |
| `LogTail.TailLogs` | server/internal/repository/workflow.go:349-436 | for every file, n and chunk size of at least 1: in file order, the parseable ones among the last n non-blank lines |
| `LogTail.ListLogs` | server/internal/repository/workflow.go:447-487 | the parseable lines of the file in order, or an error when a line overflows the scanner |
| `LogFiles.ScansBack` | server/internal/repository/workflow.go:447-487 | a file written line by line, each ended by a newline or a carriage return and a newline, with or without a last newline, is scanned back as those lines |
| `LogFiles.SplitsBack` | server/internal/repository/workflow.go:392-405 | the parts that the tail reads from the back are those lines, with what they ended in |
| `LogFiles.ScannableExactly` | server/internal/repository/workflow.go:455-487 | a listing fails iff the file has as many bytes in a row without a newline as the scanner may buffer |
| `LogTail.TailIsSuffixExactly` | server/internal/repository/workflow.go:349-486 | for every file: the tail is a suffix of the full listing for all n iff every line that parses trimmed also parses as the scanner hands it out |
| `LogTail.EmptyObjectTrimSafe` | server/internal/repository/workflow.go:407-430 | a trimming and a parser with the two kinds of white space meet the premise |
| `LogTail.VerticalTabBreaksSuffix` | server/internal/repository/workflow.go:407-413 | a line padded with a vertical tab comes back from the tail only |
| `EventStream.StepKeeps` | server/internal/handler/task_event.go:109-191 | each step of goroutine or main loop keeps the account of what is buffered, waiting and emitted |
| `EventStream.PublishKeeps` | server/internal/repository/task_event.go:79-102 | so does an atomic publication that finds room, and before the catch-up query or after the end also one that finds none |
| `EventStream.AtomicRunsGapFree` | server/internal/handler/task_event.go:109-191 | every interleaving emits after+1, after+2, ... without gap or repeat, whatever was dropped before the catch-up query |
| `EventStream.QuietIsComplete` | server/internal/handler/task_event.go:181-191 | a live stream with an empty channel has emitted everything in the table |
| `EventProgress.EveryOwnRunSettles` | server/internal/handler/task_event.go:109-191 | whatever the selects choose, the loop's own steps are bounded in number, and when none is left the stream is live and quiet, or has returned after a failed query |
| `EventProgress.Progress` | server/internal/handler/task_event.go:109-191 | whatever publishers do before, finitely many own steps lead from every reachable state past the query to a quiet live stream, or after a failed query to a return with nothing sent |
| `EventProgress.AtomicProgress` | server/internal/handler/task_event.go:109-191 | under atomic publication that quiet stream has sent after+1, after+2, ... to the end of the table |
| `EventProgress.ReturnedIsFinal` | server/internal/handler/task_event.go:181-191 | after a return nothing is sent, whatever is published |
| `EventStream.LooseRunsIncrease` | server/internal/handler/task_event.go:109-179 | without atomic publication the emission is still strictly increasing until the buffer is flushed |
| `EventStream.LateBroadcastRepeats` | server/internal/repository/task_event.go:79-102 | a broadcast that comes after the catch-up query makes the live loop repeat a number |
| `EventStream.AskingAheadBreaks` | server/internal/handler/task_event.go:109-191 | for every `after` beyond the table some run sends a number the client asked to skip |
| `EventRaces.EveryRace` | server/internal/repository/task_event.go:79-102 | with commit and in-order broadcast apart, every interleaving keeps a full account of what is buffered, waiting and sent |
| `EventRaces.LiveRepeats` | server/internal/handler/task_event.go:109-191 | what a live stream has sent then; a number is sent twice iff the query saw it and it was broadcast after the goroutine detached, and never three times |
| `EventRaces.LiveWithoutRows` | server/internal/handler/task_event.go:157-179 | when the query saw nothing new nothing repeats, but the stream starts with what had not been broadcast at the subscription |
| `EventRaces.DropLeavesGap` | server/internal/repository/task_event.go:56-62 | in every state that a run can reach from the catch-up query on, a publication dropped by a full channel has a continuation without another drop that leaves a gap |
| `EventRaces.FullChannelGaps` | server/internal/repository/task_event.go:56-62 | for every table and every request within it some run drops one atomic publication and leaves a gap |
| `EventHub.Hub.Subscribe` | server/internal/repository/task_event.go:26-35 | adds one fresh, open, empty channel for the task and changes no other |
| `EventHub.Hub.Unsubscribe` | server/internal/repository/task_event.go:37-47 | closes the channel, once, and removes it only, with the task's entry when it was the last |
| `EventHub.Hub.Broadcast` | server/internal/repository/task_event.go:49-64 | every subscriber of the task with room gets the event, full channels drop it, others are untouched |
| `EventHub.TaskEventRepo.CreateEvent` | server/internal/repository/task_event.go:79-103 | the row gets the task's next number, stored and broadcast alike; other tasks are untouched |
| `EventHub.TaskEventRepo.ListByTaskIdAfter` | server/internal/repository/task_event.go:115-127 | exactly the rows after the given number, in order |
| `Numbering.HighestFromOne` | server/internal/repository/task_event.go:82-90 | on numbers 1, 2, ..., n the maximum is n, so max + 1 leaves no gap; used for task events and for chat events |
| `LogStream.StepKeeps` | server/internal/handler/workflow.go:109-162 | each step of publisher, goroutine or main loop keeps the account of received and emitted values |
| `LogStream.EveryRun` | server/internal/handler/workflow.go:109-162 | every interleaving: never two receivers, emitted is a prefix of history then deliveries in order, nothing received lost or doubled |
| `LogStream.Recorded` | server/internal/handler/workflow.go:127-141 | the history and the deliveries of a state are what `tail` returned and what was published |
| `LogStream.EveryOwnRunSettles` | server/internal/handler/workflow.go:109-162 | whatever the selects choose, the steps of goroutine and main loop are bounded in number, and when none is left everything has been emitted |
| `LogStream.Progress` | server/internal/handler/workflow.go:127-162 | from every reachable state past `tail`, finitely many such steps lead to a live loop with an empty channel and history and deliveries emitted, with a closed channel to a return with the same, after a failed `tail` to a return with nothing |
| `LogStream.ReturnedIsFinal` | server/internal/handler/workflow.go:152-162 | a client that goes away ends the stream, and after a return nothing is emitted |
| `LogStream.QuietIsComplete` | server/internal/handler/workflow.go:152-162 | a live stream with an empty channel has emitted the history and everything sent |
| `ChatStore.EveryRun` | server/internal/chat/store.go:202-396 | in every interleaving of any number of instances: the active turn is the one running turn, a client message has one turn, events are numbered 1..n |
| `ChatStore.ClaimCommit` | server/internal/chat/store.go:202-244 | a committing claim keeps all three and disturbs no transaction on other rows |
| `ChatStore.FinishCommit` | server/internal/chat/store.go:299-332 | so does a committing finish |
| `ChatStore.AppendCommit` | server/internal/chat/store.go:349-396 | so does a committing append |
| `ChatStore.RunningIsActive` | server/internal/chat/store.go:202-244 | a turn of a conversation runs iff it is the non-empty active one |
| `ChatStore.FinishFreesOnlyItself` | server/internal/chat/store.go:299-324 | a finishing turn frees the slot iff the slot is its own, so a late finish leaves a newer turn in place |
| `ChatStore.NothingLost` | server/internal/chat/store.go:202-396 | no step removes a turn, and each conversation's events only grow at the end |
| `ChatEffects.RequestKept` | server/internal/chat/store.go:202-396 | in every run an open transaction still carries what its caller asked for |
| `ChatEffects.AppendStores` | server/internal/chat/store.go:363-383 | a committed append puts its batch at the end of its conversation, numbered on, and touches nothing else |
| `ChatEffects.ClaimStores` | server/internal/chat/store.go:228-237 | a committed claim leaves the turn in the table as asked for, running and not cancelled, and in the slot, and touches nothing else |
| `ChatEffects.FinishStores` | server/internal/chat/store.go:299-332 | a committed finish sets the turn's status and frees its own slot, and touches no event and no other turn |
| `ChatEffects.OthersWriteLittle` | server/internal/chat/store.go:262-283 | no other step of a transaction writes; a renewal or a cancel request changes that one field of a turn that is running, a creation adds an empty conversation |
| `ChatEffects.EventsAreBatches` | server/internal/chat/store.go:349-396 | in every run the events of a conversation are the batches of the committed appends to it, joined in commit order |
| `ChatEffects.RunsAlone` | server/internal/chat/store.go:202-396 | a call no lock holds up does what it was asked: a claim is granted iff the conversation exists with a free slot, the message is new and the id unused; a finish iff the turn exists; an append iff the conversation does; otherwise nothing changes |
| `ChatStore.NoDeadlock` | server/internal/chat/store.go:202-396 | while any transaction is open some transaction can advance |
| `ChatStore.FinishAsRunningBreaks` | server/internal/chat/store.go:299-324 | finishing the active turn with status running leaves a running turn that is not active |
| `ChatStore.EmptyIdBreaks` | server/internal/chat/store.go:202-244 | a turn claimed with an empty id runs while no turn is active |
| `ChatPaging.CursorRoundTrip` | server/internal/chat/store.go:183-198 | a cursor decodes to its key iff the time fits int64 microseconds and the id is not empty; ids may contain the separator |
| `ChatPaging.CutAtFirst` | server/internal/chat/store.go:187-198 | the cut is at the first separator, whatever follows |
| `ChatPaging.ListConversations` | server/internal/chat/store.go:152-181 | a bad cursor is an error; otherwise the page is the answer cut to the limit, with a cursor to its last row iff there was more |
| `ChatPaging.FollowCovers` | server/internal/chat/store.go:152-181 | following cursors collects rows in strictly descending order, only the owner's, and every one there was at the start |
| `ChatPaging.ListingComplete` | server/internal/chat/store.go:150-181 | from the first page on each conversation there was at the start comes exactly once, while rows may arrive |
| `ChatPaging.PagingEnds` | server/internal/chat/store.go:171-176 | following cursors ends: at most one page more than the last table has rows |
| `ChatPaging.ListEvents` | server/internal/chat/store.go:399-428 | the page is the stretch after the given number, at most `limit` long, numbered without a gap |
| `ChatPaging.PollingSeesEachOnce` | server/internal/chat/store.go:399-428 | from any starting number, negative or beyond the table included: asking again after the last number seen returns each later event once, in order, and an empty page means all were seen |
| `RateLimit.RateLimiter.Allow` | server/internal/middleware/ratelimit.go:40-67 | serves the caller's entry and changes no other |
| `RateLimit.RateLimiter.Cleanup` | server/internal/middleware/ratelimit.go:69-80 | in any map order removes exactly the stale buckets |
| `RateLimit.TokensWithin` | server/internal/middleware/ratelimit.go:40-67 | tokens stay within 0..burst through every sequence of requests |
| `RateLimit.GrantsFollowRefills` | server/internal/middleware/ratelimit.go:51-66 | grants plus tokens left never exceed tokens there plus the whole intervals refilled |
| `RateGrants.BurstExact` | server/internal/middleware/ratelimit.go:51-66 | of n requests at one moment exactly min(n, min(burst, tokens + gain)) are granted, the rest of the tokens stays, and the moment counts as a refill iff it brought any |
| `RateGrants.NewKeyBurst` | server/internal/middleware/ratelimit.go:45-48 | a new key gets exactly min(n, burst) of n requests |
| `RateGrants.GrantsExactly` | server/internal/middleware/ratelimit.go:51-66 | when no refill is cut at the burst, grants plus tokens left equal tokens there plus the gains credited at the refill times, told from the request times alone |
| `RateLimit.CreationBoundExact` | server/internal/middleware/ratelimit.go:40-67 | the bound since creation holds for every history iff the burst is positive and the rate is not negative |
| `RateLimit.WindowBound` | server/internal/middleware/ratelimit.go:40-67 | from any entry a window of length T allows at most burst + rate * (floor(T/interval) + 1) |
| `RateKeys.KeysIndependent` | server/internal/middleware/ratelimit.go:40-80 | in every run, cleanup included, a key's entry depends on its own requests and the cleanup ticks only |
| `RateKeys.GrantsIndependent` | server/internal/middleware/ratelimit.go:40-80 | and so does how many of its requests are let through |
| `RateKeys.OneBucket` | server/internal/middleware/ratelimit.go:40-80 | while its bucket stays, a key is served as by that bucket alone |
| `RateKeys.KeyBoundSinceCreation` | server/internal/middleware/ratelimit.go:40-80 | in every run, cleanup running or not, a key gets at most burst + rate * floor(T/interval) within T of its bucket's creation |
| `RateKeys.KeyBoundWithoutCleanup` | server/internal/middleware/ratelimit.go:40-67 | if cleanup never ran it would get at most burst + rate * (floor(T/interval) + 1) in any window of length T |
| `RateWindows.WindowAccounts` | server/internal/middleware/ratelimit.go:40-80 | in every run with cleanup the grants of a window are within the budget of the buckets and refills it has had time for |
| `RateWindows.WindowExact` | server/internal/middleware/ratelimit.go:27-80 | for every configuration with a positive interval: with cleanup, burst + rate * (floor(T/interval) + 1) bounds every window of every run iff interval * burst (interval alone if the burst is not positive) is at most rate times ten minutes and a nanosecond, and up to `interval` buckets used up and swept in a row keep to it |
| `RateWindows.StaleIsFullSafe` | server/internal/middleware/ratelimit.go:27-80 | in particular when a bucket that has just become stale is full again |
| `RateWindows.ServerLimiterBounded` | server/internal/handler/router.go:101 | the server's limiter, 60 a second with a burst of 120, keeps to the bound |
| `RateLimit.StaleServesAsNew` | server/internal/middleware/ratelimit.go:73-78 | when stale buckets are full, a stale bucket serves exactly as a new one |
| `RateLimit.EvictionStands` | server/internal/middleware/ratelimit.go:40-80 | a limiter with cleanup anywhere agrees with one without on all it still has, and has lost only stale buckets |
| `RateLimit.EvictionExact` | server/internal/middleware/ratelimit.go:40-80 | cleanup cannot be observed in any run iff a bucket that has just become stale is full again |
| `RateLimit.TenMinutesSuffice` | server/internal/middleware/ratelimit.go:69-80 | floor(10min/interval) * rate of at least a positive burst is enough for that |
| `TaskTracker.ApplyGuardrails` | server/internal/orchestrator/tracker.go:100-151 | the rewritten status and the update record are the guarded record's fields |
| `TaskTracker.Effective` | server/internal/orchestrator/tracker.go:123-133 | the limits in force are always at least one |
| `TaskTracker.ReachedFrom` | server/pkg/models/task.go:42-64 | the transition table read by target: from exactly which statuses each can be reached |
| `TaskTracker.CountTold` | server/internal/orchestrator/tracker.go:103-113 | an accepted update adds one to the count when it goes back to fixing, clears it when testing is left for pr_ready, merged or human_review, and else leaves it |
| `TaskTracker.ReasonTold` | server/internal/orchestrator/tracker.go:134-151 | an accepted update is blocked for its retries iff the count has reached the limit, for its time iff it has not and the time is over, and else has the status asked for |
| `TaskTracker.ForcedTold` | server/internal/orchestrator/tracker.go:199-219 | a forced block of a coding, reviewing, fixing or testing task sets status and reason and nothing else; any other task is left as it is |
| `TaskTracker.ClockStarts` | server/internal/orchestrator/tracker.go:115-121 | the clock starts with the first accepted move out of todo |
| `TaskTracker.TimeoutGuard` | server/internal/orchestrator/tracker.go:115-151 | over every run: once the time since then is over the limit, every call leaves the task as it is, or blocked, failed or merged |
| `TaskTracker.TrippedExactly` | server/internal/orchestrator/tracker.go:222-236 | a tripped guardrail blocks the task iff it is coding, reviewing, fixing, testing or blocked; otherwise the update is refused; the same holds of a forced block |
| `TaskTracker.TimedOutAnalysisIsStuck` | server/pkg/models/task.go:48-64 | a task timed out while analysing is neither blocked nor moved by any request but failing or merging |
| `TaskTracker.CallKeepsLimit` | server/internal/orchestrator/tracker.go:100-151 | one call under any limit up to m keeps the count within m, and at m keeps it there |
| `TaskTracker.RetryGuard` | server/internal/orchestrator/tracker.go:100-237 | over every run from count 0, limits changing or not, the count never passes the largest limit in force, and once there every later status is blocked, failed or merged |
| `TaskTracker.FixLoopBounded` | server/internal/orchestrator/tracker.go:103-113 | between resets a task enters fixing from testing or reviewing at most one time fewer than the largest limit in force |
| `TaskTracker.BoundReached` | server/internal/orchestrator/tracker.go:103-113 | that many trips round the loop are accepted |
| `TaskTracker.UnreadableProjectLifts` | server/internal/orchestrator/tracker.go:123-133 | a project that cannot be read lifts its limit for that call |
| `Decomposition.SortedBySequence` | server/internal/orchestrator/steps/reduce.go:14-31 | the dispatch order is a permutation of the stored one in index order, missing indices last |
| `Decomposition.SortIsStable` | server/internal/orchestrator/steps/reduce.go:14-31 | equal and missing indices keep their stored order |
| `Decomposition.MergedPrefix` | server/internal/orchestrator/decomposition.go:88-112 | the number of children merged from the front: all before it merged, the one at it not |
| `Decomposition.StepKeeps` | server/internal/orchestrator/tracker.go:222-236 | a fair change of one record keeps every family's layout and record |
| `Decomposition.FairWrite` | server/internal/orchestrator/tracker.go:222-236 | guardrails and the transition table make every fair request a fair change |
| `Decomposition.ParentBlockedKeeps` | server/internal/orchestrator/decomposition.go:50-64 | recording a failed child and blocking the parent keeps the layout, whichever write fails |
| `Decomposition.SettledKeeps` | server/internal/orchestrator/decomposition.go:38-68 | climbing from a terminal child keeps every family's layout |
| `Decomposition.AdvancedKeeps` | server/internal/orchestrator/decomposition.go:80-117 | so does dispatching the next child or completing the parent |
| `Decomposition.RefusedExactly` | server/internal/orchestrator/tracker.go:222-236 | a task that has not started or has failed is refused its next status iff a read or write fails, its retries are spent or its time is up |
| `Decomposition.RetryExact` | server/internal/orchestrator/decomposition.go:124-148 | a retry keeps layout and record iff the record was cleared or the restart is stopped: a call fails, the parent is not blocked with a child on record, or a guardrail of the child has tripped |
| `Decomposition.RerunExact` | server/internal/orchestrator/orchestrator.go:497-534 | a direct retry of a task keeps them iff the task is not a failed child on record, or a call fails or a guardrail of the task has tripped |
| `Decomposition.ActKeeps` | server/internal/orchestrator/decomposition.go:38-148 | every call that starts no child out of turn, merges no decomposed parent early and leaves a failed child on record to a clearing retry, or is turned down, keeps layout and record |
| `Decomposition.EveryRun` | server/internal/orchestrator/decomposition.go:38-148 | so over every run of such calls, whatever else fails, a recorded child is the first unmerged one and has failed |
| `FamilyLayout.ActLaidOut` | server/internal/orchestrator/decomposition.go:38-148 | every call that starts no child out of turn and merges no decomposed parent early, or is turned down, keeps the layout: failed clears, direct retries and executes included |
| `FamilyLayout.EveryRunLaidOut` | server/internal/orchestrator/decomposition.go:38-148 | over every run of those, whatever fails and whoever retries: children merged up to some k, child k in any state, the rest not started; a parent is merged only when all its children are |
| `FamilyLayout.LayoutHas` | server/internal/orchestrator/decomposition.go:88-117 | the layout spelled out as the position k |
| `FamilyLayout.ExecuteExact` | server/internal/orchestrator/orchestrator.go:450-492 | executing any task keeps the layout iff the task is in turn, or its job is running or cannot be resumed, a call fails or a guardrail has tripped |
| `FamilyLayout.WorkExact` | server/internal/orchestrator/tracker.go:222-276 | a status update, climb included, keeps the layout iff it starts no child out of turn and merges no decomposed parent before its children, unless a call fails, a guardrail has tripped or the table does not allow it |
| `FamilyLayout.ActExact` | server/internal/orchestrator/decomposition.go:38-148 | of every call: layout and record survive it iff it is one of those |
| `FamilyLayout.SecondFirst` | server/internal/handler/workflow.go:23-31 | executing the second child by hand before the first has run breaks it |
| `Decomposition.FreshSplitsAreSound` | server/internal/orchestrator/decomposition.go:66-73 | newly approved splits start in that layout |
| `Decomposition.EveryCallKeeps` | server/internal/orchestrator/tracker.go:222-276 | no call, climb included, takes a task out of merged or past its retry limit |
| `Decomposition.MergeMovesOn` | server/internal/orchestrator/decomposition.go:38-117 | with nothing failing, merging child k starts child k + 1 in the same call, and merging the last merges the parent |
| `FamilyCalls.FailureIsRecorded` | server/internal/orchestrator/decomposition.go:38-64 | with nothing failing, a child that fails is recorded with its parent, which is blocked if the table lets it; nothing else changes |
| `FamilyCalls.RetryRestarts` | server/internal/orchestrator/decomposition.go:124-148 | with nothing failing and no guardrail tripped, retrying a blocked parent leaves it coding without the record, exactly the recorded child analysing, and all else unchanged |
| `FamilyCalls.FailThenRetry` | server/internal/orchestrator/decomposition.go:38-148 | so a failed child is restarted by the next retry of its parent, and by it alone |
| `FamilyCalls.RetrySucceedsExactly` | server/internal/orchestrator/decomposition.go:124-148 | a retry reports success iff the child restarts, is queued, and the parent can be read back |
| `FamilyCalls.ExecuteStarts` | server/internal/orchestrator/orchestrator.go:450-492 | with nothing failing, execute starts a todo, empty or failed task without a running job whose guardrails allow, sets its clock if unset, and else changes nothing |
| `FamilyCalls.RetryStepRestarts` | server/internal/orchestrator/orchestrator.go:497-534 | with nothing failing, a retry sends exactly a failed, spec-review or analysing task back to analysing |
| `FamilyCalls.DispatchStarts` | server/internal/orchestrator/decomposition.go:80-117 | with nothing failing, a dispatch starts the first unmerged child if it has not started, has no running job and its guardrails allow |
| `FamilyCalls.MergeTouches` | server/internal/orchestrator/decomposition.go:38-117 | with nothing failing, merging a child that is not the last touches that child and the next, and no other task |
| `FamilyCalls.WorkStaysLocal` | server/internal/orchestrator/tracker.go:222-276 | a status that is neither merged nor failed changes no other task |
| `FamilyCalls.UndividedStaysLocal` | server/internal/orchestrator/decomposition.go:38-48 | nor does any status of a task that is no child of a decomposed parent |
| `FamilyCalls.ForceBlocks` | server/internal/orchestrator/tracker.go:199-219 | with nothing failing, a forced block changes exactly the status and reason of a coding, reviewing, fixing or testing task |
| `FamilyCalls.FailedReadsStop` | server/internal/orchestrator/decomposition.go:38-148 | a failed read, or a status that cannot be saved, leaves every record as it was; an unreadable parent ends the climb |
| `FamilyCalls.FailedWritesTold` | server/internal/orchestrator/decomposition.go:50-148 | a failed record still blocks the parent, a failed clear keeps the record, a failed enqueue or read-back is reported |
| `FamilyCalls.UnreadableParentWaits` | server/internal/orchestrator/decomposition.go:153-160 | a parent whose children have all merged is not merged while it cannot be read |
| `Decomposition.FailedClearGoesStale` | server/internal/orchestrator/decomposition.go:140-142 | after a retry with a failed clear the recorded child is a merged one while its successor runs |
| `Orchestration.Orchestrator.UpdateTaskStatus` | server/internal/orchestrator/tracker.go:222-276 | errors write nothing; otherwise one guarded write and the climb; the mutual recursion ends because each terminal update climbs the parent chain |
| `Orchestration.Orchestrator.OnChildTaskTerminal` | server/internal/orchestrator/decomposition.go:38-68 | refines the climb |
| `Orchestration.Orchestrator.DispatchNextChildOrReduce` | server/internal/orchestrator/decomposition.go:80-117 | the loop over the ordered children refines "start the first unmerged child if fresh, else complete the parent" |
| `Orchestration.Orchestrator.CompleteDecomposedParent` | server/internal/orchestrator/decomposition.go:153-190 | merges the parent through the ordinary status update |
| `Orchestration.Orchestrator.Execute` | server/internal/orchestrator/orchestrator.go:450-492 | starts a todo, failed or empty task unless a job is queued, running or cannot be resumed |
| `Orchestration.Orchestrator.RetryFromLastStep` | server/internal/orchestrator/orchestrator.go:497-534 | refines the rerun of a failed, spec-review or analysing task |
| `Orchestration.Orchestrator.RetryBlockedParent` | server/internal/orchestrator/decomposition.go:124-148 | refines the retry, its result included |
| `Orchestration.Orchestrator.BlockTask` | server/internal/orchestrator/tracker.go:199-219 | refines the forced block; success leaves the task blocked, failed or merged |
| `Codecs.DecimalValue` | server/pkg/attest/dsse.go:33-37 | the decimal digits of a number have that number as value |
| `Codecs.ParseFormat` | server/internal/chat/store.go:183-198 | parsing undoes formatting iff the number fits int64 |
| `Codecs.ParsesDigits` | server/internal/chat/store.go:183-198 | a number reads back from its digits, with either sign or none before them, iff it fits int64 |
| `Codecs.ParsesOnlyDigits` | server/internal/chat/store.go:183-198 | nothing but digits with at most one sign before them reads as a number |
| `Codecs.RoundTrip` | server/pkg/attest/dsse.go:44-72 | base64 decoding undoes encoding in both alphabets for every byte string |
| `Codecs.DecodesExactly` | server/pkg/attest/dsse.go:64-90 | decoding succeeds iff, line breaks aside, the text has whole quanta with at most two padding bytes at the end (without padding: any length but one over a multiple of four) and else only symbols of the alphabet |
| `Codecs.DecodedIs` | server/pkg/attest/dsse.go:64-90 | what is decoded encodes back to the text, up to the spare bits of an incomplete last quantum |
| `Codecs.BreaksIgnored` | server/pkg/attest/dsse.go:64-90 | a line break anywhere in the text makes no difference |
| `Codecs.SymbolTable` | server/pkg/attest/dsse.go:43-59 | the alphabets are those of RFC 4648, tables 1 and 2 |
| `Codecs.TestVector` | server/pkg/attest/dsse.go:43-59 | an encoding from RFC 4648, section 10, byte by byte |
| `Attest.Pae` | server/pkg/attest/dsse.go:29-41 | the appending buffer ends as the DSSE v1 pre-authentication encoding |
| `Attest.PreAuthInjective` | server/pkg/attest/dsse.go:29-41 | equal encodings iff equal payload type and equal body |
| `Attest.ProtocolExample` | server/pkg/attest/dsse.go:29-41 | for the lengths of the protocol's own example the encoding begins "DSSEv1 29 " and has " 11 " between type and body |
| `Attest.Sign` | server/pkg/attest/dsse.go:43-59 | one signature by the key over the encoding of the type and the body the payload decodes to |
| `Attest.Verify` | server/pkg/attest/dsse.go:64-90 | succeeds iff the payload decodes and the first signature with the key id verifies over the encoding; each of the four failures is reported exactly when it is the first to occur |
| `Attest.SignThenVerify` | server/pkg/attest/dsse.go:44-90 | every envelope that is signed verifies under a correct scheme |
| `Attest.SameMessageSamePayload` | server/pkg/attest/dsse.go:64-90 | two envelopes that rest on one signed message carry the same type and payload |

## Left out

- FamilyLayout.EveryRunLaidOut: families are fixed for the run; creating the child rows when a split is approved is not a step of the model.
- EventStream.AtomicRunsGapFree: the buffering mutex and channel wake-ups are folded into the steps; a step is one channel or buffer operation. The end of the loop on a closed channel, which only unsubscribing causes, is not modelled.
- ChatStore.EveryRun: says what the transactions do to the rows, not the values they return to callers; session ids, timestamps and lease expiry beyond their presence in a row are not modelled.
- LogTail.TailLogs: the file is read as one value; a file that changes during the call, a missing file and read errors are not modelled.
- Engine.Engine.RunInternal: context cancellation appears only as a runner's error; a runner that never returns is not modelled.
- Attest.Sign: the JSON form of the statement is a given byte string, and key length checks are not modelled.
- RateLimit.RateLimiter.Allow: integers are unbounded, so a product of rate and elapsed intervals that overflows a machine word is not modelled.
- TaskTracker.ApplyGuardrails: the two clock readings of one call are one value, and the retry count is unbounded.
- Database and network errors other than those listed in `Decomposition.Site` and the error exits of the chat transactions.
- Reduce's summary of a decomposed parent, attempt rows, learned-skill bookkeeping, workspace files and cleanup: side effects on data the modelled rules do not read.
- The workflow-job status table: its check and its write are separate statements and its table has no row for a status the worker writes, so run-wide claims would not match the code.
- Cost arithmetic of units, prompt assembly, secret patterns, search and graph queries, signature strength.
- HTTP handlers, routing, configuration, migrations, logging, metrics and tracing; git, sandbox and command-line runners.
- Log pattern search, log counting and the paginated event listing before a number: easy members beside those proved.
