# SFlowG in Dafny

SFlowG reads a `.flow` file, runs its steps as a saga and carries state between them in a
store of nested maps. This project models the engine's core and proves what it promises.

| files | what they model |
|---|---|
| `Saga.dfy`, `SagaUnwind.dfy`, `SagaTraces.dfy`, `SagaLimits.dfy`, `SagaContext.dfy`, `Backoff.dfy` | the executor as a state machine over steps, attempts, jumps, responses and the compensation stack, and what every run of it keeps; the delay arithmetic in 64 bits |
| `SagaLaw.dfy`, `SagaLawful.dfy`, `SagaAnswers.dfy` | a law of the log that knows nothing of the state machine: what is due after a log, what an event says of the outside world's answers, and what replaying it leaves; the log of a run is the only one that obeys it; what runs do with each answer |
| `Executor.dfy` | the executor's loops over shared run state, proved to do what the state machine does, and so to leave a log that obeys the law |
| `PropertyMerge.dfy` | the properties a run starts with, for every order in which they are set |
| `DslText.dfy`, `DslOptions.dfy`, `Formats.dfy`, `DslFlow.dfy` | the scanners, the conversion of step options and timeouts, and the grammar of flow files as functions, with the places where the code would not advance or would slice out of range as explicit outcomes |
| `DslParser.dfy` | the parser object and its scanning loops, proved to compute those functions |
| `DslRefusals.dfy`, `DslStepRefusals.dfy` | what the map parser and the file parser refuse, and what they let pass |
| `DslBlocks.dfy`, `DslScalars.dfy`, `DslFaults.dfy` | where blocks and unquoted values end, told by lexers of single characters; exactly where the parser slices out of range or never ends, with whole inputs |
| `DslPlaces.dfy`, `DslGaps.dfy`, `DslTrees.dfy`, `DslSealing.dfy`, `DslRoundTrip.dfy` | trees of maps, lists and scalars with everything that stands between them, when they close at their brackets, and the round trip through the map parser |
| `DslDocument.dfy`, `DslPrinted.dfy` | the round trips of whole flow files: of block texts, and of trees |
| `DslProperties.dfy`, `EnvDefaults.dfy`, `EnvTexts.dfy` | environment defaults from text to value; what every text becomes, said of its parts |
| `Graph.dfy` | the plugin dependency graph: Kahn's algorithm and the cycle finder |
| `StoreModel.dfy` | what Set and Get mean on contents, and the laws of dotted keys |
| `ValueStore.dfy`, `Clone.dfy`, `MapStore.dfy`, `Isolation.dfy` | the store on the heap with representation sets: Set, Get, SetNested, Snapshot, and isolation of snapshots |
| `Registry.dfy`, `MetricLabels.dfy`, `MetricRecording.dfy` | the lazily filled metric registries under any interleaving of any number of recorders; the label loop; a whole recording |
| `Flatten.dfy`, `Sanitize.dfy` | form bodies in bracket notation; bounded log values |
| `Prelude.dfy`, `Numerals.dfy` | small datatypes and sequence facts; decimal numerals |

How to read it:

* Step bodies, expressions, contexts, compensation and handler bodies and random draws are
  foreign code. An `Oracle` answers for them, as a function of everything that happened so
  far, so a statement for every oracle is a statement about every run.
* Every action of the executor is recorded in a trace. The protocol table `Saga.Moves` says
  which actions may follow which control; `Saga.AdvanceMoves` proves that the executor keeps
  to it, and the trace properties are kept by everything the table allows.
* `SagaLaw.Complete` is a second, independent account of a run, by its log alone: which event
  is due after which, that it says what the oracle answered in the state the log leaves, and
  when nothing is due any more. `SagaLawful.CompleteIffRun` proves that it has exactly one
  solution, the log of the state machine.
* Iteration over a Go map is a loop that picks any key that is left, so a postcondition
  holds for every order.
* The imperative files follow the code's loops and branches; their postconditions are the
  functions of the specification files, and the laws are proved about those functions.
* Where the code can slice out of range or loop without progress, the functions return
  `Panic` or `Hang`, and lemmas say exactly when.

Where the code does not do what one may expect, the model follows the code:

* `docs/FLOW_SYNTAX.md` (lines 354-369) documents retry fields `maxRetries`, `condition` and
  a boolean `backoff`; `runtime/engine/dsl/parser.go` (lines 718-723 and 744-753) refuses
  them, and so does the model.
* A stray closing bracket before the word `return` leaves the top-level loop where it was
  (`DslFlow.LoopAdvances`), so the parser never returns (`DslFaults.StrayBracketHangs`); and a
  closing brace at an item position keeps the array loop from ever ending
  (`DslFlow.ItemAdvances`, `DslFlow.ArrayHangsAtBrace`). These are the only positions without
  progress.
* An unquoted value or a return expression that ends in an open string with an open escape,
  and a nested map whose brace is the last character, are sliced out of range
  (`DslFaults.BareRunsOver`, `DslFaults.ReturnRunsOver`, `DslFaults.NestedPanicsIff`).
* A double slash in an unquoted value begins a comment for the block reader and not for the
  map parser (`DslPrinted.SlashesHideTheBrace`), unless a line break follows behind nothing but
  separators (`DslPrinted.SlashesBeforeABreak`). The map parser reads every printed map
  (`DslRoundTrip.ParsePrintRoundTrip`); the block reader reads it whole exactly when it closes
  lexically at the brace behind it (`DslPrinted.PrintedMapText`).
* What stands between a key and its colon is ignored (`DslTrees.ColonText`); a colon without a
  key ends a map without an error (`DslRefusals.EmptyKeyEndsMap`).
* A number in an option is the integer its text begins with: `30s` counts as 30, and a text
  without digits behind its spaces and sign, or one that does not fit into 64 bits, as 0
  (`DslOptions.ScanReads`, `DslOptions.ScanParts`).
* A default that contains a closing brace is never resolved (`EnvDefaults.DefaultResolves`):
  the placeholder text itself becomes the property.
* A delay that does not fit into 64 bits wraps around and can become negative
  (`Backoff.UncappedExactIffFits`, `Backoff.OverflowGoesNegative`); the bound handed to the
  random source stays positive even then (`Backoff.JitterBoundIsPositive`).
* A type binding of a metric outlives the failed creation it was made for
  (`Registry.FailedCreationStillBinds`).
* Form keys can collide. A value all of whose keys are safe has no two leaves with one entry
  (`Flatten.LeavesApart`); a deeper key is safe unless it contains a closing bracket next to an
  opening one, a top-level key is safe unless it is empty or opens a bracket behind its first
  character, and for every key that is not safe there is a value with that one unsafe key in
  which two leaves do collide (`Flatten.UnsafeNameCollides`, `Flatten.UnsafeTopCollides`).
* A property whose name continues another one, as `a.b` continues `a`, can be lost when the
  shorter one is set after it. For every order in which Go visits the two maps, all properties
  can be read exactly when the value of the shorter name already is a map that holds the longer
  one (`PropertyMerge.FlowPropertyWins`); and the order in which one map is visited shows in the
  store exactly when that is not so (`PropertyMerge.OrderHidesIff`).
* `SetNested` stores a member whose name has a dot a second time, as a path; the contents stay
  those of `Set` exactly when the map already has the member there (`StoreModel.ExpandIsIdleIff`).
* An error, Stringer or byte slice in a log value becomes a string exactly when some text of
  the map or list around it is cut (`Sanitize.Cut`).
* The list the cycle finder returns ends with one node twice; the cycle is that list without
  its last entry (`DependencyGraph.ReportsCycle`).

## Model

| member | source | states |
|---|---|---|
| Saga.AdvanceMoves | runtime/executor.go:43-128 | every transition of the executor is one the protocol table allows, whatever bodies, expressions, contexts and random draws answer |
| Saga.AdvanceDescends | runtime/executor.go:47-127 | every transition comes strictly closer to the end, so a run ends for every flow and every answer of the outside world |
| Saga.FinishAfterAttempts | runtime/executor.go:74-95 | running the attempts of one path first and then the rest of the flow is the same run |
| SagaUnwind.CompensationIsExact | runtime/executor.go:135-145 | on every run: if a failure is reached and the step executor can run handlers, the compensations run are exactly the successful steps with a compensate body, in reverse order, each once, with the path that succeeded, whether or not compensations fail, followed by the on_error body if there is one; a run without failure undoes nothing and returns nil; without a handler-capable executor nothing is undone |
| SagaUnwind.UndoesOne | runtime/executor.go:328-335 | one compensation undoes the last entry not yet undone and leaves the rest |
| SagaUnwind.StackedBody | runtime/executor.go:78-107 | a successful body commits exactly the entry that is recorded for it; a failing body commits nothing |
| SagaTraces.StepsRunInOrder | runtime/executor.go:47-127 | over every run the executed (step, path, attempt) triples strictly increase, a step succeeds at most once and nothing is called for it afterwards, and a failing step is never among those that succeeded |
| SagaTraces.FailureIsHandledInOrder | runtime/executor.go:80-145 | a run is forward actions, then at most one failure, then compensations, then at most one handler call; after a response nothing runs; the result is nil, the original error or the handler error exactly as the handler went |
| SagaTraces.JumpsSkipToTarget | runtime/executor.go:54-63 | after a step asks for X, no condition and no body of a later step runs before a later step with ID X has been reached |
| SagaTraces.RetriesFollowPolicy | runtime/executor.go:187-246 | a body is called again only right after a failure of the previous attempt that the retry policy approved, never for a non-retryable code; without a when expression only for transient errors |
| SagaLimits.CallsAreBounded | runtime/executor.go:181-187 | on every run the body of a step is called at most max(1, MaxAttempts) times, the fallback at most once |
| SagaLimits.RetriesAreCounted | runtime/executor.go:187-246 | executeStepWithRetries returns nil iff the last call succeeded, and otherwise an error whose Retries is the number of calls before the last check or call |
| SagaLimits.WaitsAreBounded | runtime/executor.go:195-207 | the total time a step waits between attempts stays below 11/10 of the ideal sum for its back-off kind, for every outcome of the calls |
| SagaContext.NothingStartsOnceDone | runtime/executor.go:49-52 | once any check has seen the flow context done, no body (primary, retry or fallback) starts; that compensations and handler run all the same is SagaUnwind.CompensationIsExact, which asks nothing of contexts |
| SagaContext.JumpPasses | runtime/executor.go:55-59 | while a jump target has not been reached every step is passed over with a context check and nothing else |
| SagaContext.MissedJumpEndsRun | runtime/executor.go:55-59 | if no later step has the requested ID and the context stays live, the run ends without error and without running anything |
| SagaContext.JumpResumesAtFirst | runtime/executor.go:60-62 | the first later step with the requested ID is treated as if no jump had been requested |
| SagaContext.RetryDecisionOnStore | runtime/executor.go:257-283 | deciding on a retry touches the store at the key error only, which is left nil |
| SagaLawful.RunIsLawful | runtime/executor.go:43-145 | every run leaves a complete log: each event was due after the events before it, says what the outside world answered in the state those events leave, and nothing is due at the end; store and response are what replaying the calls of the log leaves, and the result is the one the log tells |
| SagaLawful.CompleteIffRun | runtime/executor.go:43-145 | and no other log is complete: the law, which says nothing of controls and transitions, has the log of the run as its only solution, for every flow and every outside world |
| SagaLawful.DutyDetermines | runtime/executor.go:43-145 | what is due leaves no choice once the outside world has answered |
| SagaAnswers.CallsAreExecuted | runtime/executor.go:319-362 | for every event of every run: a compensation executes the entry that is named, the handler gets the failure that is named, a step is executed with the primary body or, on the fallback path, with the fallback body and no retry policy, in the context made when its path was entered; the event tells how the call ended, and the run goes on with the store and response the call left |
| SagaAnswers.MemoryIsReplayed | runtime/executor.go:43-145 | a run starts with the store and response it was given and ends with those its last event left |
| SagaAnswers.ConditionsDecide | runtime/executor.go:367-390 | on every run a condition passes iff it evaluates to true and skips iff it evaluates to false; anything else breaks it |
| SagaAnswers.VerdictsAreFollowed | runtime/executor.go:64-71 | behind a condition that passed the step is tried, behind one that skipped the next step is reached, if there is one, and one that broke fails the run with its error |
| SagaAnswers.BodiesAreCleared | runtime/executor.go:64-74 | a body starts only behind a condition of its step that passed, or its step has no condition |
| SagaAnswers.RetriesAreMade | runtime/executor.go:257-283 | a failure is decided on as the policy says: it is tried again iff the path is the primary one, its code is not excluded, and it is transient or, with a when expression, that answers true on the store with the failure bound to error; then the next attempt follows at once, and otherwise the path is given up |
| SagaAnswers.TriesAreCalled | runtime/executor.go:189-212 | a try whose context is alive leads to its call, behind the pause if there is one; one whose context is done gives its path up as a timeout with the code of that context |
| SagaAnswers.FailedCallsAreWeighed | runtime/executor.go:217-246 | a failed call leads to a decision while there are attempts left, and otherwise to the fallback or to the failure of the run; the error that is reported keeps what its chain says and counts the attempts before it |
| SagaAnswers.SuccessStopsOrGoesOn | runtime/executor.go:116-124 | a step that succeeded ends the run iff there is a response; otherwise the target is the value stored for the step, or else the one of the context, formatted, and none if it is nil |
| SagaAnswers.DoneContextFailsRun | runtime/executor.go:49-52 | a context found done before a step fails the run as a timeout, with DEADLINE_EXCEEDED for a deadline and CONTEXT_CANCELLED for a cancellation |
| SagaAnswers.ResultIsTold | runtime/executor.go:135-145 | a run returns nothing without a failure; else the failure it met, unless a handler ran: then nothing, or the error of the handler as it is reported |
| Executor.ExecuteSteps | runtime/executor.go:43-129 | the loop over steps returns what the state machine returns and leaves store, response, compensation stack and history as the state machine leaves them; so from a fresh run state its history is the complete log, and result, store and response are those the log tells |
| Executor.TakeTurn | runtime/executor.go:48-62 | one turn of the loop: context check, jump, then the step |
| Executor.RunStep | runtime/executor.go:64-126 | condition, body with fallback, recording and the way on, as the state machine performs them |
| Executor.EvaluateCondition | runtime/executor.go:367-390 | passes without a condition; otherwise passes iff the condition evaluates to true, skips iff to false, and is an error else, recorded as the state machine records it |
| Executor.ExecuteStep | runtime/executor.go:72-114 | primary path, then fallback path, with the compensation entry of the path that succeeded |
| Executor.ExecuteStepWithRetries | runtime/executor.go:149-247 | the attempt loop ends where the state machine ends the attempts of the path, with the same error |
| Executor.BeginAttempt | runtime/executor.go:189-206 | the checks before a call: context, and the interruptible wait |
| Executor.Pause | runtime/executor.go:197-207 | waits only between attempts with a positive delay |
| Executor.DecideRetry | runtime/executor.go:257-283 | the decision the policy asks for, and the two writes to the store around the when expression |
| Executor.HandleFailure | runtime/executor.go:135-145 | compensations, then the handler; the error returned is the one the state machine returns |
| Executor.RunCompensations | runtime/executor.go:319-336 | the recorded stack from the last entry to the first, failures ignored |
| Executor.RunOnErrorHandler | runtime/executor.go:341-362 | handled iff a body is configured and can be executed; the error of the handler replaces the original one |
| Executor.EndStep | runtime/executor.go:116-124 | stops iff there is a response; otherwise the next step is the stored one, or else that of the context |
| Executor.RecordSuccess | runtime/executor.go:78-107 | appends one compensation entry iff the step has a compensate body |
| Executor.RunState.AppendCompensation | runtime/execution.go:69-73 | one more entry at the end of the stack; store and response untouched |
| Executor.MergeProperties | runtime/execution.go:243-251 | the global properties are set in some order of their names, then those of the flow in some order of theirs, and nothing else happens to the store; then every property of the flow, and every global one it does not override, can be read exactly when the properties are coherent |
| PropertyMerge.FlowPropertyWins | runtime/execution.go:243-251 | for every pair of orders: every name reads as the flow value, or else as the global one, iff wherever one name continues another as a dotted path, the value of the shorter name is a map that holds the value of the longer one at the rest of the path |
| PropertyMerge.OrderHidesIff | runtime/execution.go:245-247 | all orders in which the properties of one map can be visited make the same store iff the properties are coherent in this sense |
| PropertyMerge.IsolatedNameWins | runtime/execution.go:243-251 | a name that overlaps with no other reads as the flow value, or else as the global one, even where other names clash |
| PropertyMerge.OverlapDependsOnOrder | runtime/execution.go:245-251 | of two names of which one continues the other, the longer one is found in both orders iff the value of the shorter one is a map that holds it; set last, it is always found |
| Backoff.UncappedExactIffFits | runtime/executor.go:286-299 | the computed delay is the ideal one iff the ideal one fits into 64 bits |
| Backoff.PreJitterIsCappedIdeal | runtime/executor.go:286-306 | while the ideal delay fits, the delay before jitter is the smaller of ideal delay and cap, and positive |
| Backoff.PreJitterGrows | runtime/executor.go:286-306 | while the ideal delay fits, the delay before jitter does not decrease with the attempt |
| Backoff.OverflowGoesNegative | runtime/executor.go:290-293 | a concrete policy whose third attempt wraps around to a negative delay |
| Backoff.JitterBoundIsPositive | runtime/executor.go:308-310 | for all inputs, wrapped around or not, the bound handed to the random source is positive whenever it is used |
| Backoff.JitterExactIffFits | runtime/executor.go:308-311 | adding the jitter is exact iff the sum fits into 64 bits |
| Backoff.DelayWithinBounds | runtime/executor.go:286-313 | the delay is at least the one before jitter and less than eleven tenths of it |
| Backoff.PossibleDelays | runtime/executor.go:286-314 | with jitter the delays that can be drawn are exactly those from the intended one up to, not including, a tenth more; without jitter it is the intended one |
| Backoff.IdealTotalClosed | runtime/executor.go:286-299 | the ideal waits over n attempts sum up to (n-1)b, b n(n-1)/2 or b(2^(n-1)-1) by back-off kind |
| DependencyGraph.BuildGraph | cli/internal/graph/dependency.go:23-74 | succeeds iff every declared dependency is registered and the declared edges have no cycle; then the edges are exactly the declared ones with repetitions, from a plugin to what it depends on; otherwise the error names the first missing dependency, with its plugin and field, or a cycle |
| DependencyGraph.Graph.TopologicalSort | cli/internal/graph/dependency.go:78-126 | succeeds iff the graph has no cycle, for every map order and with repeated edges; the result is a permutation of the nodes with every dependency before its dependents; otherwise the error carries a cycle |
| DependencyGraph.Graph.FindCycle | cli/internal/graph/dependency.go:130-173 | nil iff the graph has no directed cycle; otherwise the list without its last entry is a simple directed cycle |
| DependencyGraph.CycleFinder.Dfs | cli/internal/graph/dependency.go:137-162 | keeps the search invariant; ends on the number of unvisited nodes; a returned list is a cycle |
| DependencyGraph.CycleFinder.Reconstruct | cli/internal/graph/dependency.go:148-156 | the parent walk reaches the repeated node and returns the active path between as a cycle |
| DependencyGraph.BackArcClosesCycle | cli/internal/graph/dependency.go:147-156 | an edge back into the active path closes a simple cycle |
| DependencyGraph.OrderExcludesCycles | cli/internal/graph/dependency.go:130-173 | a dependencies-first order of all nodes excludes every cycle |
| DependencyGraph.EnterKeepsSearch | cli/internal/graph/dependency.go:138-139 | entering a node keeps visited, recursion stack and parents consistent |
| DependencyGraph.LeaveKeepsSearch | cli/internal/graph/dependency.go:160-161 | leaving a node extends a dependencies-first order of the finished nodes |
| DependencyGraph.Graph.CountDependencies | cli/internal/graph/dependency.go:79-83 | in-degrees are the numbers of dependencies not yet finished |
| DependencyGraph.Graph.InitialQueue | cli/internal/graph/dependency.go:85-91 | the queue holds exactly the nodes without dependencies |
| DependencyGraph.Graph.Release | cli/internal/graph/dependency.go:103-109 | after a node is output its dependents count one dependency less per edge, and exactly those that reach zero are queued |
| DependencyGraph.QuiescentIsFinished | cli/internal/graph/dependency.go:96-110 | when the queue is empty every node of an acyclic graph has been output |
| DependencyGraph.Register | cli/internal/graph/dependency.go:30-35 | all plugins become nodes without edges; of two plugins with one name the last stays |
| DependencyGraph.LinkAll | cli/internal/graph/dependency.go:37-59 | adds the declared edges in both directions, or reports the first dependency that is not registered |
| DependencyGraph.LinkKeepsMirror | cli/internal/graph/dependency.go:53-57 | edges and reverse edges hold the same arcs the same number of times |
| DslRoundTrip.ParsePrintRoundTrip | runtime/engine/dsl/parser.go:446-507 | for every list of fields over strings, unquoted values (expressions with spaces, strings and calls included), lists and maps at any depth, each field and item with its own separators, comments between fields, any text without a colon before the colon and any blanks behind it: parsing the print gives exactly the map the fields stand for |
| DslRoundTrip.EveryMapIsRead | runtime/engine/dsl/parser.go:446-507 | every map of texts, lists and maps whose texts fit between quotes or are whole expressions has a print in every layout, parseSimpleMap returns exactly that map, and the print closes in blocks, in parentheses and in maps |
| DslRoundTrip.TreeReads | runtime/engine/dsl/parser.go:510-672 | wherever a printed value stands, before a delimiter if it is unquoted, readValue returns it and stops behind it |
| DslRoundTrip.ItemListReads | runtime/engine/dsl/parser.go:612-633 | the printed items of a list are read back in order up to the closing bracket |
| DslRoundTrip.FieldListReads | runtime/engine/dsl/parser.go:456-506 | the printed fields are read as adding them to any map, whatever stands behind them |
| DslScalars.BareEndsWhere | runtime/engine/dsl/parser.go:538-590 | an unquoted value ends at the first comma, line break or closing bracket outside strings and brackets, told by a lexer of characters, and at the end of the text iff there is none and no escape is open |
| DslScalars.BareReads | runtime/engine/dsl/parser.go:538-590 | a text that has no such end, with all strings and brackets closed, is read as one value wherever it stands before a delimiter |
| DslScalars.BareTextIff | runtime/engine/dsl/parser.go:538-590 | and no other text is: before a comma it is read as itself iff it is such a text |
| DslScalars.QuoteCloses | runtime/engine/dsl/parser.go:593-609 | a raw text without unescaped quotes is closed by the quote behind it |
| DslSealing.QuietFieldsEnclosed | runtime/engine/dsl/parser.go:313-409 | printed fields close at the bracket behind them, for all three bracket matchers, when each key and each unquoted value closes what it opens; a comment in an unquoted value may end at a line break behind the value and separators |
| DslSealing.QuietIsClosed | runtime/engine/dsl/parser.go:635-664 | in such a tree every nested map closes at its own brace |
| DslPrinted.DocumentIsRead | runtime/engine/dsl/parser.go:31-84 | every flow file of entrypoint, properties, step, on_error and return declarations, in any order, each with its own white space and comments in front and white space behind its words, is read as the flow the declarations mean, told by their trees alone: the last entrypoint, properties, on_error and return count, steps are collected in order; a map is asked no more than to close lexically at its bracket |
| DslPrinted.PropertiesAreRead | runtime/engine/dsl/parser.go:145-168 | the flow that is read has the properties of the last properties block as its trees have them: a list, a map and a text that is no env call unchanged, and an env call as the placeholder its parts make |
| DslPrinted.PrintedMapText | runtime/engine/dsl/parser.go:117-125 | printed fields always mean the map they were printed from, and are read whole as a block, and so as the configuration of an entrypoint or as properties, iff they close lexically at the brace behind them |
| DslPrinted.PrintedOptionsText | runtime/engine/dsl/parser.go:188-196 | printed fields are the options of a step iff they close at the parenthesis behind them and none of them is refused; then they mean the options their map says |
| DslPrinted.QuietInside | runtime/engine/dsl/parser.go:313-409 | keys and unquoted values that close what they open are enough for that |
| DslPrinted.OptionsCanBeWritten | runtime/engine/dsl/parser.go:698-762 | every condition, timeout and retry policy with 64-bit numbers, and texts that fit between quotes or are whole expressions, can be written as step options, in every layout, and is read back exactly |
| DslPrinted.CommentHidesTheBrace | runtime/engine/dsl/parser.go:346-352 | a comment outside strings that no line break ends hides the closing brace: the block reader does not read such a text whole |
| DslPrinted.SlashesHideTheBrace | runtime/engine/dsl/parser.go:346-352 | so on one line an unquoted value with a double slash is read whole by the map parser and yet hides the brace |
| DslPrinted.SlashesBeforeABreak | runtime/engine/dsl/parser.go:346-352 | with a line break behind it, at once or behind a comma, the same value is read by both |
| DslDocument.TextsAreRead | runtime/engine/dsl/parser.go:31-84 | the same for blocks given as texts that close lexically, with whatever comments they contain |
| DslDocument.StepItemReads | runtime/engine/dsl/parser.go:174-233 | a printed step is read back with its name, options, body and up to two suffix blocks, of which the last of a kind counts |
| DslDocument.SuffixesRead | runtime/engine/dsl/parser.go:209-230 | the suffix loop reads exactly the suffix blocks that are there, on the same line or behind comments, and leaves the next item alone |
| DslDocument.ReturnReads | runtime/engine/dsl/parser.go:250-310 | the return expression ends at the end of the file or before the line of the next item, also when it spans lines that begin with no top-level keyword |
| DslDocument.LeadSkips | runtime/engine/dsl/parser.go:426-438 | white space and comments are skipped up to what stands behind them |
| DslDocument.Dispatches | runtime/engine/dsl/parser.go:35-77 | the first word of an item decides which block parser reads it |
| DslBlocks.BlockReads | runtime/engine/dsl/parser.go:313-409 | a text that closes lexically at its end is read whole between braces or parentheses wherever they stand |
| DslBlocks.BlockReadsIff | runtime/engine/dsl/parser.go:313-409 | and no other text is: between its brackets a text is read whole iff it closes lexically at its end |
| DslBlocks.NestedEndsAtDepthZero | runtime/engine/dsl/parser.go:635-664 | the nested-map reader goes to where the depth of its own lexer, without backtick strings and comments, reaches zero |
| DslBlocks.BlockEndsAtDepthZero | runtime/engine/dsl/parser.go:313-409 | readBracedBlock and readParenBlock succeed iff the lexical depth (strings, escapes and, between braces, comments) reaches zero, end at the first such index and return the trimmed text in between; the depth is defined by an independent left-to-right lexer |
| DslBlocks.BlockIgnoresWhatFollows | runtime/engine/dsl/parser.go:313-409 | a block and its end do not depend on the text behind it |
| DslBlocks.NestedMapDelimitsSameBody | runtime/engine/dsl/parser.go:635-664 | where no comment and no backtick string begins, readNestedMap delimits the same body as readBracedBlock; double slashes and backticks inside other strings do not matter |
| DslBlocks.BacktickParts | runtime/engine/dsl/parser.go:313-364 | a backtick string with a brace shows where the two scanners differ |
| DslBlocks.CommentParts | runtime/engine/dsl/parser.go:346-352 | so does a comment with a brace |
| DslBlocks.NestedSliceOutOfRangeIff | runtime/engine/dsl/parser.go:664-668 | the slice in readNestedMap is out of range iff the opening brace is the last character |
| DslFlow.LoopAdvances | runtime/engine/dsl/parser.go:31-84 | a turn of the top-level loop leaves the position unmoved iff it stands on a closing bracket and the next word is return; otherwise it strictly advances |
| DslFlow.ReturnMoves | runtime/engine/dsl/parser.go:250-310 | parseReturn leaves the position unmoved iff it is on a closing bracket |
| DslFlow.ItemAdvances | runtime/engine/dsl/parser.go:612-633 | an item of an array leaves the position unmoved iff it is a closing brace |
| DslFlow.ArrayHangsAtBrace | runtime/engine/dsl/parser.go:612-633 | an array with a closing brace at an item position is never finished |
| DslFaults.StrayBracketHangs | runtime/engine/dsl/parser.go:290-293 | on a closing bracket before the word return the top-level loop never ends |
| DslFaults.TurnHangsIff | runtime/engine/dsl/parser.go:31-84 | a parse is endless from a position on iff it stands on such a bracket, or the item there is endless, or the turn advances and the rest is endless |
| DslFaults.StrayBracketFlowHangs | runtime/engine/dsl/parser.go:31-84 | every file that begins, after white space and comments, with such a bracket is never finished |
| DslFaults.SmallestStrayBracket | runtime/engine/dsl/parser.go:290-293 | the input }return |
| DslFaults.ArrayOfBraceNeverEnds | runtime/engine/dsl/parser.go:612-633 | every block whose first value is an array that begins with a closing brace is never finished |
| DslFaults.SmallestEndlessArray | runtime/engine/dsl/parser.go:612-633 | the input a: [} |
| DslFaults.BareRunsOver | runtime/engine/dsl/parser.go:538-590 | readUnquoted slices out of range iff the value has no end in the text and the text ends inside a string behind an open escape, as an independent lexer of strings and escapes tells |
| DslFaults.SmallestBarePanics | runtime/engine/dsl/parser.go:538-590 | the input of a quote and a backslash |
| DslFaults.OpenEscapePanics | runtime/engine/dsl/parser.go:538-590 | parseSimpleMap panics on every block that ends in an unquoted value with an open escape in a string |
| DslFaults.SmallestEscapePanics | runtime/engine/dsl/parser.go:538-590 | such a block in six characters |
| DslFaults.NestedPanicsIff | runtime/engine/dsl/parser.go:635-672 | readNestedMap panics iff its brace is the last character or parsing the body it delimits panics |
| DslFaults.OpenBracePanics | runtime/engine/dsl/parser.go:664-668 | parseSimpleMap panics on every block that is a key and an opening brace |
| DslFaults.SmallestBracePanics | runtime/engine/dsl/parser.go:664-668 | the input a: { |
| DslFaults.ReturnRunsOver | runtime/engine/dsl/parser.go:250-310 | parseReturn slices out of range iff the expression has no end in the file and the file ends inside a string behind an open escape |
| DslFaults.OpenReturnPanics | runtime/engine/dsl/parser.go:250-310 | the parser panics on every file that is a return of a string with an open escape at its end |
| DslFaults.SmallestReturnPanics | runtime/engine/dsl/parser.go:250-310 | the input return, a quote and a backslash |
| DslRefusals.ItemErrorStopsFile | runtime/engine/dsl/parser.go:35-84 | behind any well-formed items the error of the next item is the error of the file |
| DslRefusals.UnknownItemIsRefused | runtime/engine/dsl/parser.go:75-78 | an item that begins with any other word than the five is refused, wherever it stands |
| DslRefusals.EntrypointNeedsKind | runtime/engine/dsl/parser.go:112-118 | an entrypoint without a dot in its word is refused with that word |
| DslRefusals.StepNeedsName | runtime/engine/dsl/parser.go:174-182 | a step without a name is refused |
| DslRefusals.BlockMustOpen | runtime/engine/dsl/parser.go:313-320 | the block of an entrypoint, properties or on_error item has to be opened right behind its word |
| DslRefusals.BlockMustClose | runtime/engine/dsl/parser.go:313-364 | and it is refused as unclosed when its lexical depth never comes back to zero |
| DslRefusals.BlockMapFails | runtime/engine/dsl/parser.go:117-156 | properties and the configuration of an entrypoint are refused with the error of their fields |
| DslRefusals.ColonIsDemanded | runtime/engine/dsl/parser.go:446-507 | behind any well-formed fields a key without a colon behind it is refused by name |
| DslRefusals.EmptyKeyEndsMap | runtime/engine/dsl/parser.go:446-507 | a colon without a key ends the map without an error, and what stands behind it is lost |
| DslRefusals.MissingValueIsEmpty | runtime/engine/dsl/parser.go:446-537 | a key whose value is missing at the end of the block has the empty text |
| DslRefusals.StringMustClose | runtime/engine/dsl/parser.go:593-609 | a string that is not closed before the end of the block is refused, with its field and position |
| DslRefusals.OpenArray | runtime/engine/dsl/parser.go:612-633 | an array opened by the last character of the block is refused as unclosed, and one behind whose bracket only separators follow passes as an empty list |
| DslRefusals.NestedErrorIsNamed | runtime/engine/dsl/parser.go:635-672 | a nested map that is refused is refused under the key of its field |
| DslStepRefusals.OptionsMustClose | runtime/engine/dsl/parser.go:189-198 | step options that are opened and whose lexical depth never comes back to zero refuse their step |
| DslStepRefusals.OptionsAreRefused | runtime/engine/dsl/parser.go:189-198 | options whose text is no map of fields, or that are refused as options, refuse their step with that error |
| DslStepRefusals.BodyMustOpen | runtime/engine/dsl/parser.go:200-207 | a step without a body behind its name, or behind its options, is refused |
| DslStepRefusals.BodyMustClose | runtime/engine/dsl/parser.go:200-207 | and so is one whose body is never closed |
| DslStepRefusals.HeadThere | runtime/engine/dsl/parser.go:174-207 | name, options and body of a step are read wherever they stand, whatever follows |
| DslStepRefusals.FirstSuffixIsRefused | runtime/engine/dsl/parser.go:209-230 | behind the body the words fallback and compensate need a block, and its error refuses the step |
| DslStepRefusals.SecondSuffixIsRefused | runtime/engine/dsl/parser.go:209-230 | so they do behind a first suffix block |
| DslOptions.RefusedIff | runtime/engine/dsl/parser.go:711-753 | options are refused iff they have a retry field that is no map, has maxRetries or condition, or has a backoff other than none, linear and exponential; and the error names which |
| DslOptions.AcceptedSay | runtime/engine/dsl/parser.go:698-762 | options that are not refused are what their fields say, absent and ill-typed fields included, and there is a policy iff there is a retry block |
| DslOptions.OptionsAreRead | runtime/engine/dsl/parser.go:698-762 | the map that says a condition, a timeout and a retry policy is turned into exactly these |
| DslOptions.ScanNumeral | runtime/engine/dsl/parser.go:766-781 | every 64-bit integer is read back from its numeral, whatever follows that is no digit |
| DslOptions.ScanReads | runtime/engine/dsl/parser.go:766-781 | every text of spaces, a sign or none, digits and a rest counts as the number of the digits with its sign if that fits into 64 bits, as zero otherwise, and as zero without digits |
| DslOptions.ScanParts | runtime/engine/dsl/parser.go:766-781 | every text has such parts |
| DslOptions.ScanNothing | runtime/engine/dsl/parser.go:766-781 | a text without digits behind its spaces and its sign counts as zero |
| Formats.SortedInOrder | runtime/engine/dsl/parser.go:703-706 | a map that is formatted has each of its keys once, in the order of their characters |
| Formats.ShortLists | runtime/engine/dsl/parser.go:703-706 | an empty list is formatted as two brackets, a list of one item as the item between them |
| Formats.ListGrows | runtime/engine/dsl/parser.go:703-706 | a list is formatted with its items in order and a space before each but the first |
| DslOptions.ScanInt | runtime/engine/dsl/parser.go:774-777 | the result always fits into 64 bits |
| DslParser.Parser.Parse | runtime/engine/dsl/parser.go:31-84 | the parser object returns what the specification of the whole grammar returns |
| DslParser.Parser.ParseOne | runtime/engine/dsl/parser.go:38-77 | one item and the position behind it, or the same error |
| DslParser.Parser.ReadBracedBlock | runtime/engine/dsl/parser.go:313-364 | the scanning loop stops where the recursive specification stops |
| DslParser.Parser.ReadParenBlock | runtime/engine/dsl/parser.go:367-409 | the scanning loop over parentheses stops where the specification stops |
| DslParser.Parser.SkipWhitespaceAndComments | runtime/engine/dsl/parser.go:426-438 | the position of the first character that is neither white space nor in a comment |
| DslParser.Parser.ReadWord | runtime/engine/dsl/parser.go:101-109 | the next run of word characters, with the position behind it |
| DslParser.Parser.ParseEntrypointItem | runtime/engine/dsl/parser.go:112-142 | the kind behind the dot, the configuration without its timeout, and the timeout as a number, or the same error |
| DslParser.ConfigureFlow | runtime/engine/dsl/parser.go:124-142 | the timeout field is taken out of the configuration and converted |
| DslParser.Parser.ParsePropertiesItem | runtime/engine/dsl/parser.go:145-168 | the property map with env calls turned into placeholders |
| DslParser.Parser.ParseOnErrorItem | runtime/engine/dsl/parser.go:238-245 | the body of the on_error block |
| DslParser.Parser.ParseReturnItem | runtime/engine/dsl/parser.go:250-310 | the trimmed return expression; running past the text is a panic |
| DslParser.Parser.ParseStepItem | runtime/engine/dsl/parser.go:174-233 | name, options, primary body and up to two suffix blocks in any order |
| DslParser.Parser.ParseStepSuffixes | runtime/engine/dsl/parser.go:209-230 | at most two suffix blocks; a repeated kind keeps the last one |
| DslParser.Parser.ParseStepOptions | runtime/engine/dsl/parser.go:188-196 | the options in parentheses, converted, or the same error |
| DslParser.ApplyStepOptions | runtime/engine/dsl/parser.go:698-762 | condition, timeout and retry policy of the parsed map |
| DslParser.ApplyRetry | runtime/engine/dsl/parser.go:718-758 | the retry fields in the order of the code: refused fields first, numbers and flags converted, codes item by item, the backoff checked |
| DslParser.ParseSimpleMap | runtime/engine/dsl/parser.go:446-507 | the field loop computes the specified map, or the same error, panic or endless loop |
| DslParser.ReadValueAt | runtime/engine/dsl/parser.go:510-537 | dispatch on the first character, as specified |
| DslParser.ReadUnquoted | runtime/engine/dsl/parser.go:538-590 | the loop with its three depths stops where the specification stops |
| DslParser.ReadQuotedString | runtime/engine/dsl/parser.go:593-609 | the loop stops at the closing quote, or fails |
| DslParser.ReadArray | runtime/engine/dsl/parser.go:612-633 | the item loop computes the specified list; an item that does not advance is reported as endless |
| DslParser.ReadNestedMap | runtime/engine/dsl/parser.go:635-672 | the brace loop and the recursive map, with the out-of-range slice as a panic |
| DslParser.ResolveAll | runtime/engine/dsl/parser.go:153-163 | for every iteration order: a text that is an env call becomes the placeholder its parts make, any other text loses the spaces around it and nothing else, and all other values stay |
| EnvDefaults.ResolvePropertyMap | runtime/internal/configutil/env.go:12-27 | succeeds iff every property resolves; then every property holds its resolved value; otherwise the error is that of some property, for every iteration order |
| EnvTexts.TextBecomes | runtime/engine/dsl/parser.go:675-695 | what any text becomes, said of its parts: a text without spaces at its ends that does not begin with env( or does not end with ) is kept; of a call, what stands before the first comma is the variable and what stands behind it the default, each without the spaces and quotes around it; spaces around the text are dropped |
| EnvTexts.PlainTextIsKept | runtime/engine/dsl/parser.go:675-679 | a text that has no space at its ends and is no env call is kept |
| EnvTexts.ValueComesTo | runtime/internal/configutil/env.go:29-53 | what any value comes to: a placeholder, as it is written, its variable if set, else its default, else an error naming it; every other text, and every value that is no text, stays as it is |
| EnvDefaults.DefaultResolves | runtime/internal/configutil/env.go:29-53 | for every default: an env call, turned into a placeholder, resolves to the variable or else the default without the quotes at its ends; with a closing brace in the default it stays the unresolved placeholder text |
| EnvDefaults.RequiredResolves | runtime/internal/configutil/env.go:29-53 | an env call without default resolves to the variable, or fails naming it |
| DslProperties.PropertyDefaultResolves | runtime/engine/dsl/parser.go:153-163 | from the text of a property with an env call to its resolved value, through parser, placeholder and environment |
| DslProperties.EnvCallReads | runtime/engine/dsl/parser.go:538-590 | an env call with its inner comma is read whole as one unquoted value |
| StoreModel.SetThenGet | runtime/value_store.go:22-78 | Get after Set returns the value, for every dotted key |
| StoreModel.SetKeepsOthers | runtime/value_store.go:22-78 | a key whose path is neither a prefix nor an extension of the written one is unchanged, even when a non-map on the way is replaced |
| StoreModel.SetsCommute | runtime/value_store.go:22-50 | two writes to incomparable keys commute as whole states |
| StoreModel.LastSetWinsPath | runtime/value_store.go:22-50 | of two writes to one path the last one stays |
| StoreModel.SetThenGetMember | runtime/value_store.go:53-78 | after a value is stored under p, reading p.path is looking up path in the value |
| StoreModel.ExpandIsIdleIff | runtime/value_store.go:88-102 | storing a member of a map once more under its own key, after storing the map, changes nothing iff the map has the member at the path of its name |
| StoreModel.ExpandIsIdle | runtime/value_store.go:88-102 | so it is for every member whose name has no dot |
| StoreModel.SplitConcat | runtime/value_store.go:94 | splitting a key made of two keys gives the parts of both |
| MapStore.MapValueStore.constructor | runtime/value_store.go:15-19 | an empty store on fresh nodes |
| MapStore.MapValueStore.Set | runtime/value_store.go:22-50 | the contents become the old contents with the path of the key set; the store stays tree-shaped; setting what is there already changes no node |
| MapStore.MapValueStore.SetDeep | runtime/value_store.go:32-49 | Set on a key of several parts |
| MapStore.MapValueStore.Descend | runtime/value_store.go:32-48 | the cursor loop reaches the map that holds the last part; the maps it creates do not change what the final write makes of the contents |
| MapStore.MapValueStore.CreateMap | runtime/value_store.go:43-47 | a missing or non-map part is replaced by an empty map |
| MapStore.MapValueStore.Get | runtime/value_store.go:53-78 | the value found is the one the contents have at the path of the key, and none iff the contents have none |
| MapStore.MapValueStore.SetNested | runtime/value_store.go:82-102 | when no map key has a dot, the whole state is the one Set leaves, for every iteration order |
| MapStore.MapValueStore.Expand | runtime/value_store.go:91-94 | re-storing the members of a stored map under their own keys changes nothing |
| MapStore.MapValueStore.Snapshot | runtime/value_store.go:132-136 | a copy with the same contents on nodes of its own |
| Clone.CloneValue | runtime/value_store.go:160-169 | a deep copy: the same abstract value, tree-shaped, on fresh nodes only |
| Clone.CloneMap | runtime/value_store.go:138-147 | the copying loop over a map, for every iteration order |
| Clone.CloneSlice | runtime/value_store.go:149-158 | the copying loop over a slice |
| MapStore.BoundIsGet | runtime/value_store.go:53-78 | what the shape of the store binds at a path is what Get finds in the contents |
| ValueStore.Undisturbed | runtime/value_store.go:132-169 | a value keeps its shape whatever is written to other nodes |
| ValueStore.WriteModels | runtime/value_store.go:49 | one write to the map at a path turns the shape into the shape with that key bound |
| ValueStore.PutIsSet | runtime/value_store.go:22-50 | binding a key in the map at a path is setting the longer path of the contents |
| ValueStore.PutTreeShaped | runtime/value_store.go:22-50 | linking a tree with nodes of its own keeps the store a tree |
| Isolation.Run | runtime/value_store.go:132-136 | for every interleaving of Set calls on the store with assignments of any values, scalars, maps or slices, to maps and slices of a snapshot and to maps and slices made for it, the store ends as its own writes make it and the snapshot as its own writes make it |
| Isolation.SnapshotThenSets | runtime/value_store.go:132-136 | after any number of Set calls a snapshot shows the contents it was taken of |
| Isolation.CopyWritesMissStore | runtime/value_store.go:132-136 | writes to a snapshot alone leave the contents of the store as they are |
| Registry.OneRegistryPerName | runtime/user_metrics.go:274-349 | on every run of any number of recorders a name is in at most one registry, that of the type it is bound to |
| Registry.BoundForever | runtime/user_metrics.go:338-349 | once bound a name keeps its type, once registered its instrument, whatever happens later |
| Registry.OneInstrumentPerName | runtime/user_metrics.go:274-336 | all callers that obtain an instrument for a name obtain the same one, even when creations fail |
| Registry.TurnedAwayIffMisdeclared | runtime/user_metrics.go:351-362 | on every run exactly those recorders are turned away at once whose name is declared with another type |
| Registry.ObtainedIffItsType | runtime/user_metrics.go:153-349 | a finished recorder whose creations do not fail obtained an instrument iff its name is not declared with another type and is declared with an instrument or bound to its type |
| Registry.AloneIsResolved | runtime/user_metrics.go:153-349 | an uninterrupted recorder ends in one of six ways, told by declarations, registries and bindings it finds, and leaves exactly those tables |
| Registry.DroppedIffBoundElsewhere | runtime/user_metrics.go:338-349 | a finished recorder past the declarations was turned away for its type iff the name is bound to another type |
| Registry.FailedCreationStillBinds | runtime/user_metrics.go:278-285 | a binding outlives a failed creation: the name is in no registry and yet other types are turned away |
| Registry.EndsInFourTurns | runtime/user_metrics.go:274-288 | no recorder waits for another: four operations of its own end its call, whatever the others do |
| Registry.OperateKeeps | runtime/user_metrics.go:274-349 | one Load, LoadOrStore or creation of one recorder keeps the invariant of tables and call |
| Registry.AloneIsARun | runtime/user_metrics.go:274-288 | an uninterrupted recorder is one of the interleavings |
| Registry.Metrics.GetOrCreateDynamic | runtime/user_metrics.go:274-336 | the code of the four functions performs the operations of an uninterrupted recorder and leaves the same tables |
| Registry.Metrics.CheckDynamicTypeConflict | runtime/user_metrics.go:338-349 | binds the type if the name is free; true iff the name is then bound to the requested type |
| Registry.Metrics.Resolve | runtime/user_metrics.go:170-185 | declarations first, then the dynamic registries: the instrument and the tables in each of the six cases |
| MetricLabels.BuildUserMetricAttrs | runtime/user_metrics.go:373-448 | a recording is dropped iff a label is reserved or there are more than ten labels, for every order of the labels; otherwise a label is attached iff its key has at most 64 bytes, its value is a scalar and, for a declared metric, the key is declared and an enum has its formatted value; its value is attached as it is, a text cut at 256 bytes; no label replaces an attribute attached automatically |
| MetricLabels.TakeLabels | runtime/user_metrics.go:401-447 | the attributes are exactly those of the labels that are attached, each once |
| MetricLabels.AutoAttached | runtime/user_metrics.go:376-390 | the attributes attached are those of the execution that are set and those of the configuration |
| MetricRecording.UserMetrics.Record | runtime/user_metrics.go:153-270 | a recording the meter, the sign of a counter or the labels turn away binds no type and makes no instrument; any other does to the tables what an uninterrupted recorder does and records the value, with exactly the automatic attributes and those of the attached labels, iff it obtains an instrument |
| Flatten.FlattenToFormData | plugins/http/plugin.go:120-153 | for every iteration order and all keys: every pair produced has an entry, and every entry is one of the pairs |
| Flatten.LeafHasItsEntry | plugins/http/plugin.go:120-153 | nothing is lost: the leaf at a path has the entry with its rendered path and its own text |
| Flatten.EntryHasOneLeaf | plugins/http/plugin.go:120-153 | nothing is merged: every entry belongs to exactly one leaf |
| Flatten.OrderIsIrrelevant | plugins/http/plugin.go:123-150 | the result does not depend on the order in which maps are visited |
| Flatten.LeavesApart | plugins/http/plugin.go:124-127 | rendered leaf paths are pairwise distinct when no top-level key is empty or opens a bracket behind its first character and no deeper key contains a closing bracket next to an opening one |
| Flatten.UnsafeNameCollides | plugins/http/plugin.go:124-127 | every deeper key that does contain them makes two leaves share an entry, under every such top-level key and with no other such key in the value |
| Flatten.UnsafeTopCollides | plugins/http/plugin.go:124-127 | so does every other top-level key |
| Flatten.EmptyKeyCollides | plugins/http/plugin.go:125-127 | an empty top-level key makes two leaves share an entry |
| Flatten.BracketCollides | plugins/http/plugin.go:125-127 | a bracket behind the first character of a top-level key makes the map under it look like one under the text before the bracket |
| Numerals.DecimalInjective | plugins/http/plugin.go:138 | different indices are written differently |
| Sanitize.TruncateString | runtime/observability.go:701-719 | a text within the limit is returned as it is; any other is cut at the last rune start that leaves room for the suffix, or at the front, and ends with the suffix |
| Sanitize.SuffixSpells | runtime/observability.go:705 | the suffix is the text ...[truncated], byte by byte |
| Sanitize.TruncateKeepsUtf8 | runtime/observability.go:701-719 | valid UTF-8 (RFC 3629, sections 3 and 4) stays valid |
| Sanitize.TruncateKeepsMost | runtime/observability.go:708-718 | on valid UTF-8 the result is a prefix with the suffix, at most three bytes shorter than allowed |
| Sanitize.TruncateBounds | runtime/observability.go:701-719 | the length is at most max(maxBytes, 14), and exactly which strings are left alone |
| Sanitize.TruncateTwice | runtime/observability.go:701-719 | truncation is idempotent |
| Sanitize.CutAtRuneStart | runtime/observability.go:711-713 | a valid string may be cut wherever a rune starts |
| Sanitize.SanitizeAnyValue | runtime/observability.go:631-679 | for every iteration order: strings are truncated, errors, Stringers and byte slices become their truncated text, containers keep keys and length, and a container in which no text is cut is kept as it is; changed iff some text is cut, and iff the output differs from the input, with an error, Stringer or byte slice taken as its text |
| Sanitize.CutIsUnique | runtime/observability.go:631-679 | there is only one sanitized value |
| Sanitize.SanitizedIsBounded | runtime/observability.go:631-679 | every text at a leaf of the output is bounded |
| Sanitize.SanitizedKeepsUtf8 | runtime/observability.go:631-679 | valid UTF-8 stays valid at every leaf |
| Sanitize.SanitizedTwice | runtime/observability.go:631-679 | sanitizing once more changes nothing |
| Sanitize.SanitizedFits | runtime/observability.go:631-679 | after sanitizing no text is left that would be cut |
| Sanitize.UnchangedIffFits | runtime/observability.go:631-679 | for every limit, also none or a negative one: the output is the input, or the text of an error, Stringer or byte slice, iff no text is cut |
| Sanitize.BoundedIsUnchanged | runtime/observability.go:655-657 | so a value whose texts are all within the limit comes back unchanged |

## Left out

- Logging, tracing and metric emission inside the executor, and the pretty texts of parser errors: they do not influence a run.
- FlowError causes and metadata, and the fact that one error object can be shared: errors are values with type, code, message, step and retries.
- Code that appends compensations while a body runs: only the executor writes the compensation stack, as in the repository.
- The evaluator reads the store and does not write it.
- Clocks, UUIDs and the random source: contexts are answers of the oracle, draws are any value below the bound.
- Saga.MaxAttempts: attempts are counted in unbounded integers; a loop that calls a body each time does not reach 2^63.
- math.Pow for a result beyond the range of int64: the conversion is an arbitrary parameter of the model, so every platform is covered.
- DslFlow.ParseReturn: the type of a return, which the parser leaves empty.
- DslText.ReadValue: positions and characters are those of a sequence of characters, where Go indexes bytes; for ASCII text they coincide, and every delimiter is ASCII.
- DslRoundTrip.ParsePrintRoundTrip: an unquoted value of no characters, as in `a:,`, is read by the same functions but is no leaf of a tree.
- DslPrinted.OptionsCanBeWritten: a condition, `when` text or code that fits between neither kind of quotes and is no whole expression has no print here.
- Formats.Format: values the parser does not make (known by an identity only) have no text.
- The store's mutex: each method is one atomic step.
- MapStore.MapValueStore.Set: the value stored is a tree of nodes that are not yet in the store, or the value that is already at that key; storing one node at two places is not modelled.
- MapStore.MapValueStore.SetNested: maps with dotted keys are outside its domain; what storing such a member once more does to the contents is StoreModel.ExpandIsIdleIff.
- Clone.CloneValue: typed nil maps and nil slices are not distinguished from empty ones.
- Executor.ExecuteSteps: the run state holds the abstract contents of the store; that the heap store has these contents is proved in MapStore.
- The four getOrCreateDynamic functions, which differ in the registry only, are one method with the type as a parameter.
- MetricRecording.UserMetrics.Record: a value is a real number; that a counter takes NaN, which compares as neither positive nor not, is not modelled.
- MetricLabels.TakeLabels: numbers and booleans are opaque scalars, and formatting a value is a parameter.
- Flatten.FlattenToFormData: formatting a leaf with `%v` is a parameter.
- Sanitize.SanitizeAnyValue: an unchanged value is returned equal to the input, where Go returns the same object; masking of fields by name.
- Gin handlers, response handlers, start-up and shutdown, the Risor interpreter and plugin bridges, exporters and samplers, the CLI's subprocess calls, file copying, templates and plugin analysis, struct validation, database access and the example plugins: input, output and foreign libraries.
- Plugin registration order, log-mode normalisation, bucket validation and outcome classification: they would only add easy members.
