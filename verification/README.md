# Noda in Dafny

Noda runs workflows that are written as configuration: nodes joined by edges between named outputs
and target nodes. This project models the parts of Noda in which several things have to fit together
and proves what holds of them for every input, every interleaving and every reachable state.

- **The workflow engine.** `Compile.dfy`, with `CycleSearch.dfy`, `GraphSearch.dfy`, `UnionFind.dfy` and
  `Joins.dfy`, turns a definition into an executable graph, against relational specifications in
  `Digraphs.dfy` and `WorkflowGraph.dfy`. `Executor.dfy` is the executor as a transition system: the
  compare-and-swap on a group flag and the addition to the arrival counter are separate atomic steps of freely
  interleaving node goroutines, and cancellation may strike at any time. The invariant
  (`ExecutorInvariant.dfy`, `ExecutorOrder.dfy`) carries at-most-once dispatch and the verdict
  (`ExecutorTheorems.dfy`), schedule independence (`ScheduleIndependence.dfy`), termination and absence of
  deadlock in failed and cancelled runs too (`ExecutorProgress.dfy`), join exclusivity (`Exclusivity.dfy`,
  `ExclusivityCounterexample.dfy`, `ForkCounterexample.dfy`), exclusive workflow outputs
  (`WorkflowOutputs.dfy`, `OutputRuns.dfy`) and output eviction (`Eviction.dfy`, `EvictionRuns.dfy`,
  `EvictionOutcomes.dfy`, `LateOutputs.dfy`, `LateOutputCounterexample.dfy`). `ExecutorOutcomes.dfy` ties the
  verdict to what the nodes answered. `Engine.dfy` puts compilation and execution together. `Retry.dfy` is the
  retry loop with its wrapping 64-bit backoff.
- **Concurrent protocols.** The bounded queue with its condition variable (`Queue.dfy`, `QueueRuns.dfy`,
  `QueueTheorems.dfy`, `QueueOutcomes.dfy`, `QueueProgress.dfy`, and its methods in `QueueCalls.dfy`), start
  racing stop (`Lifecycle.dfy`, `LifecycleOutcomes.dfy`, `LifecycleProgress.dfy`), connection teardown racing
  reconnect (`Gateway.dfy`, `GatewayRecovery.dfy`) and the scheduler's per-tick lock and overlap guard
  (`Scheduler.dfy`, `SchedulerOutcomes.dfy`). Each is a state machine whose invariant is proved over all runs.
- **Transformers, a parser and a search.** `$ref` inlining over cyclic registries (`SchemaRefs.dfy`,
  `SchemaInlining.dfy`), the `{{ }}` parser (`ExprParser.dfy`, `ExprGrammar.dfy`), the expression-tolerant
  schema walker (`ConfigSchema.dfy`, `SchemaWalker.dfy`) and the search for circular workflow calls
  (`WorkflowCycles.dfy`, `WorkflowReports.dfy`, `WorkflowReporters.dfy`, `SpuriousReports.dfy`,
  `SpuriousOrders.dfy`).

In the state machines `Possible(es)` says that a sequence of events can happen from the initial state and
`After(es)` is the state it leads to. What node executors return, when contexts end, when time passes and
which goroutine moves next are all part of the event sequence, so a statement about every `es` is a
statement about every behaviour of these.

## Where the code and its documentation differ

- Two legs in one group "can never both deliver" (internal/engine/compiler.go:468-471): false in general.
  `ExclusiveLegsCanBothDeliver` gives the definition; `BothDeliverExactlyWhenConcurrent` says exactly when it
  fails, and `DominatingSplitIsExclusive` gives the structural condition under which it holds.
- "A group delivers exactly one arrival" (internal/engine/compiler.go:403-404): groups are closures of exclusive
  pairs, so it can fail even below a dominating splitter (`GroupCanDeliverTwice`); `GroupDeliversOnceIff` is exact.
- "Only one can fire per execution" (internal/engine/exclusivity.go:8-9): the check compares only the first output
  that leads to a node. `OutputsCanBothFire` gives the definition and `OneOutputFiresIff` the exact condition.
- Outputs are evicted "when no downstream nodes need them" (internal/engine/eviction.go:7-8): an output that is stored after
  all its readers have completed stays for ever. `OutputCanLinger` gives the definition, `GoneIff` says exactly which stored
  outputs are gone, and `LingersIff` for which graphs one can stay.
- Exponential backoff capped at five minutes (internal/engine/retry.go:12-13): with a large odd delay a product can
  overflow into the range below the cap, and a delay of zero or less, which `validateRetryConfig`
  (internal/engine/parse.go) accepts, waits the cap. `BackoffExactIff` is the exact condition.
- "Errors for each cycle found" (internal/config/crossrefs.go:492-493): a report whose callee is no longer on the
  search stack is no cycle. `ReportCanBeSpurious` gives the input and `CycleIffOnStack` says exactly which reports
  are cycles. On the calls alone, `CalledOnceNoneSpurious` is a condition under which all of them are, and
  `LeadingToCycleMisleads` and `SharedFirstCallMisleads` give conditions under which some order yields one that is not.
- "Unused budget rolls forward" (internal/lifecycle/lifecycle.go:127-131): every component gets the equal share.
- "Ensure lock TTL outlives the job timeout" (internal/scheduler/runtime.go:291-292): only when a time to live is
  configured; `ProtectedIff` and `DefaultTtlProtectsIff` are exact.

## Model

| member | source | states |
|---|---|---|
| `Compile.Compile` | internal/engine/compiler.go:152-294 | Succeeds if and only if the timeout is well-formed, every node has a type, every edge joins known nodes through a declared output and has retries only on "error", the edges are acyclic, aliases are unambiguous and the workflow outputs pass their check. The graph then holds the timeout, exactly the definition's edges in order, its entries, its terminals and its join classification. A failure names a real defect. |
| `Compile.CompileNodes` | internal/engine/compiler.go:179-200 | Fails exactly when some node has an empty type, and names such a node. |
| `Compile.EdgeMaps.Add` | internal/engine/compiler.go:226-238 | Appending one edge keeps adjacency, reverse adjacency, dependency counts and retry settings equal to what the edge list says. |
| `Compile.CompileEdges` | internal/engine/compiler.go:202-239 | No error if and only if every edge joins known nodes, leaves by a declared output ("success" if it names none) and has a retry policy only if that output is "error"; an error says which of these the first invalid edge breaks. Without one the four maps hold exactly the edge list. |
| `Compile.ListEntries` | internal/engine/compiler.go:252-257 | The sorted list of exactly the nodes without inbound edges. |
| `Compile.ListTerminals` | internal/engine/compiler.go:259-273 | The sorted list of exactly the nodes whose only outbound edges, if any, are "error" edges. |
| `Compile.ValidateAliases` | internal/engine/compiler.go:361-376 | No error if and only if no alias is a node id and no two nodes share one; an error names the clash. |
| `Compile.ComputeJoinTypes` | internal/engine/compiler.go:387-440 | Every node gets its groups and group count as the exclusion relation demands, and the join type says whether it has one leg, all legs in one group, all in different groups, or neither. |
| `Compile.CompiledGraphHasEntry` | internal/engine/compiler.go:252-293 | A compiled graph with nodes has an entry node, because its edges are acyclic. |
| `CycleSearch.DetectCycle` | internal/engine/compiler.go:297-357 | No report if and only if the graph is acyclic; a reported list is a real closed walk. |
| `CycleSearch.CyclePath` | internal/engine/compiler.go:318-331 | The walk along parent links ends and gives a cycle through the closing edge. |
| `CycleSearch.Detector.Visit` | internal/engine/compiler.go:308-342 | Keeps grey nodes equal to the search stack and black nodes ranked below their predecessors, or returns a cycle. |
| `GraphSearch.ReachableFrom` | internal/engine/compiler.go:557-580 | True if and only if a path leads from one of the starts to the target (a start reaches itself). |
| `GraphSearch.TraceAncestors` | internal/engine/compiler.go:540-554 | Exactly the strict ancestors. |
| `UnionFind.Forest.Find` | internal/engine/compiler.go:453-459 | Path halving ends, returns the representative and leaves the partition alone; the element ends up linked to the link of its link. |
| `UnionFind.Forest.Union` | internal/engine/compiler.go:461-466 | Merges exactly the two classes. |
| `Joins.DescendedOutputs` | internal/engine/compiler.go:511-537 | Exactly the outputs of an ancestor from which a leg descends. |
| `Joins.MutuallyExclusive` | internal/engine/compiler.go:472-507 | True if and only if some node with several outputs splits the two legs, each coming from a non-empty set of outputs disjoint from the other's; it need not be looked for beyond common ancestors. |
| `Joins.NumberClasses` | internal/engine/compiler.go:414-427 | Group numbers are exactly 0 to count-1, and two legs share one exactly when they share a representative. |
| `Joins.ClassifyJoin` | internal/engine/compiler.go:387-440 | Two legs share a group if and only if a chain of mutually exclusive pairs links them. |
| `Joins.KindOfFits` | internal/engine/compiler.go:429-438 | The join type computed from two counts says what it is named after: all legs share a group, no two do, or neither. |
| `ExecutorInvariant.RunInv` | internal/engine/executor.go:67-247 | In every reachable state of every interleaving: raised flags of a node equal its counter plus the goroutines between swap and addition; a join has one goroutine when the counter is complete and none before; every raised flag has a cause. |
| `ExecutorOrder.RunOrdered` | internal/engine/executor.go:112-247 | Every goroutine of a join was launched after a goroutine delivered to each of its groups. |
| `ExecutorTheorems.DispatchedOnceAfterAllGroups` | internal/engine/executor.go:222-240 | In every interleaving each node is dispatched at most once, and a join only after every group has delivered. |
| `ExecutorTheorems.FlagIndexInBounds` | internal/engine/executor.go:233-239 | The flag index is always in range and the counter never passes the group count. |
| `ExecutorTheorems.RunRecords` | internal/engine/executor.go:115-217 | A goroutine that failed or found the context cancelled has left the error or the cancellation behind. |
| `ExecutorTheorems.SuccessIsComplete` | internal/engine/executor.go:115-300 | If the verdict is success, every goroutine followed its output to the last target, every such target ran exactly once, and no join was reached without firing. |
| `ExecutorTheorems.FirstStarved` | internal/engine/executor.go:274-300 | The starved join that comes first in sorted order, or none if there is none. |
| `ExecutorTheorems.Decide` | internal/engine/executor.go:253-300 | No entries, then a recorded node error, then truncation, then the first starved join with its counts, else success. |
| `Executor.FirstDecisiveRetryDecides` | internal/engine/executor.go:199-217 | The first error edge whose retry stops returning "error" decides the outcome, a structural error included; if there is none the error edges are followed. |
| `ExecutorOutcomes.SettledMeans` | internal/engine/executor.go:127-217 | What a node answers fails the run exactly if it is a structural error, at first or in the decisive retry, or an error that no edge takes; otherwise it leads to exactly one output: its own, the decisive retry's, or "error". |
| `ExecutorOutcomes.AnswerIsFollowed` | internal/engine/executor.go:174-247 | In every run, an answer that leads to an output makes its goroutine follow that output for good. |
| `ExecutorOutcomes.ErrorIsFirstFailure` | internal/engine/executor.go:130-217 | In every run the recorded error is that of the first failing answer, and there is one if and only if some answer failed. |
| `ExecutorOutcomes.VerdictMeans` | internal/engine/executor.go:115-272 | The verdict is a node error if and only if some answer failed, and names the first such node; it is truncation if and only if none failed and the context was cancelled from outside. |
| `ExecutorOutcomes.SuccessMeansNoFailure` | internal/engine/executor.go:115-300 | If the verdict is success, no answer was a structural error or an error without error edges, and every answering goroutine followed the output that its answers lead to. |
| `ExecutorOutcomes.CancelledIff` | internal/engine/executor.go:91-217 | The context is cancelled by a failing node or from outside, and for no other reason. |
| `ExecutorOutcomes.CancelledNeverRuns` | internal/engine/executor.go:112-127 | A goroutine that looks at the context after cancellation never runs its node; one that looks before runs it. |
| `ScheduleIndependence.DispatchedWithinClosed` | internal/engine/executor.go:222-240 | At any point of any run, also one that fails or is cancelled later, only nodes of every closed set of the followed choice have been dispatched. |
| `ScheduleIndependence.CleanRunIsLeast` | internal/engine/executor.go:222-249 | A run without failure or cancellation executes exactly the least set closed under "entry, or all groups fed". |
| `ScheduleIndependence.Confluence` | internal/engine/executor.go:222-300 | For a fixed choice of outputs all clean runs dispatch the same nodes, end with the same counters and get the same verdict, including the starved join named and its counts. |
| `ExecutorProgress.RunsEnd` | internal/engine/executor.go:112-249 | Every step of every run spends from a finite budget fixed by the graph. |
| `ExecutorProgress.RunLengthsBounded` | internal/engine/executor.go:112-249 | There is a bound on the length of all runs of a graph. |
| `ExecutorProgress.NoGoroutineWaits` | internal/engine/executor.go:112-241 | In every reachable state, also after failures and cancellation, a goroutine that has not finished can move by itself: none waits for another. |
| `ExecutorProgress.NeverStuck` | internal/engine/executor.go:112-249 | Until all goroutines have finished, some step other than a cancellation is possible. |
| `ExecutorProgress.EveryRunReturns` | internal/engine/executor.go:112-249 | Every run, failed or cancelled ones included, extends to one after which the wait returns. |
| `ExecutorProgress.WaitReturns` | internal/engine/executor.go:249 | The wait always returns: runs are bounded, and one that only a cancellation could continue has finished all its goroutines. |
| `ExecutorProgress.RunsOn` | internal/engine/executor.go:112-249 | A run that is on course for a choice is never stuck: it extends to a clean end that follows the choice. |
| `ExecutorProgress.EveryChoiceHasARun` | internal/engine/executor.go:112-249 | Every choice of outputs is realised by some clean run, which executes its least closed set. |
| `Exclusivity.DominatingSplitIsExclusive` | internal/engine/compiler.go:468-537 | If a splitting ancestor lies on every entry path of both legs, no interleaving has both deliver. |
| `Exclusivity.BothDeliverExactlyWhenConcurrent` | internal/engine/compiler.go:468-471 | Two legs can both deliver in some interleaving if and only if some choice of outputs puts both into its least closed set with edges to the join. |
| `Exclusivity.GroupDeliversOnceIff` | internal/engine/compiler.go:403-412 | At most one leg of a group delivers in every run if and only if no two of its legs are concurrent. |
| `ExclusivityCounterexample.BypassCompiles` | internal/engine/compiler.go:152-294 | The bypass definition compiles. |
| `ExclusivityCounterexample.ExclusiveLegsCanBothDeliver` | internal/engine/compiler.go:468-507 | "Can never both deliver" fails: in the compiled bypass definition two legs that the compiler calls exclusive both deliver in some run. |
| `ForkCounterexample.GroupCanDeliverTwice` | internal/engine/compiler.go:403-412 | "A group delivers exactly one arrival" fails even when the splitter dominates everything: groups are closures, and two legs of one group of the compiled fork definition deliver in some run. |
| `WorkflowOutputs.FindOutputLeadingTo` | internal/engine/exclusivity.go:82-114 | The first output in sorted order that leads to the target, or none if none does. |
| `WorkflowOutputs.AreMutuallyExclusive` | internal/engine/exclusivity.go:52-79 | True if and only if some common ancestor with several outputs has different first outputs for the two nodes. |
| `WorkflowOutputs.Validate` | internal/engine/exclusivity.go:10-48 | No conflict if and only if all named outputs have different names and are separated two by two; a conflict names two that are not. |
| `OutputRuns.BothRunExactlyWhenCompatible` | internal/engine/executor.go:222-249 | Two nodes can both run in some interleaving if and only if some choice of outputs has both in its least closed set. |
| `OutputRuns.OneOutputFiresIff` | internal/engine/exclusivity.go:8-9 | "Only one can fire per execution" holds in every run if and only if no two outputs are compatible. |
| `OutputRuns.DominatingSplitsFireOne` | internal/engine/exclusivity.go:50-79 | It holds when every pair of outputs has an ancestor on all entry paths of both, none of whose outputs leads to both. |
| `ForkCounterexample.ForkCompiles` | internal/engine/compiler.go:152-294 | The fork definition compiles, its output check included. |
| `ForkCounterexample.OutputsCanBothFire` | internal/engine/exclusivity.go:82-114 | "Only one can fire" fails: both outputs of the compiled fork definition run in some run, because only the first output that leads to a node is compared. |
| `Engine.Prepare` | internal/engine/executor.go:42-89 | A definition that compiles yields a setup with everything the executor and the tracker rely on. |
| `Engine.EveryRunIsSafe` | internal/engine/executor.go:112-249 | For every definition that compiles and every interleaving: no node runs twice, and no waiting, running or retrying node misses a stored output that the definition lets it read, by an edge or by mentioning it, under the producer's alias or id. |
| `Engine.DefinitionDeterminesNodes` | internal/engine/compiler.go:380-440 | Separate compilations of one definition, run under any schedules, execute the same nodes when they follow the same outputs: group numbering does not matter. |
| `Eviction.IndexRefs` | internal/engine/eviction.go:38-45 | The reverse index lists exactly the nodes whose config mentions a key. |
| `Eviction.CollectReaders` | internal/engine/eviction.go:54-65 | Exactly the targets of the producer's edges and the other nodes whose config mentions its key. |
| `Eviction.NewEvictionTracker` | internal/engine/eviction.go:18-84 | Counts equal the number of readers; every consumer lists exactly the keys it may read, each once; terminal and unread outputs are not tracked. |
| `EvictionRuns.RunCounts` | internal/engine/eviction.go:89-97 | In every reachable state each count is the initial one less the releases so far, and a stored output is present unless its count has run out. |
| `EvictionRuns.EvictedOnlyAfterAllReaders` | internal/engine/eviction.go:89-97 | A stored output is missing only after every reader has released it. |
| `EvictionRuns.RunningReadersSeeOutputs` | internal/engine/eviction.go:89-97 | While a reader waits, runs or retries, every stored output it may read is there. |
| `EvictionRuns.TerminalOutputsStay` | internal/engine/eviction.go:47-51 | Terminal outputs, and all outputs of a retaining context, are never evicted. |
| `EvictionOutcomes.ExhaustedIff` | internal/engine/eviction.go:89-97 | The count of an output has run out if and only if every reader has released it. |
| `EvictionOutcomes.GoneIff` | internal/engine/eviction.go:89-97 | In every run, a stored output is gone if and only if the context does not retain outputs, the output is counted, all its readers have completed, and not all of them had when it was stored. |
| `LateOutputs.LingersIff` | internal/engine/eviction.go:7-8 | An output can outlive all its readers in some run if and only if, for some choice of outputs, its node and all its readers run without the node's help; this is decided on the compiled graph. |
| `LateOutputCounterexample.OutputCanLinger` | internal/engine/eviction.go:7-8 | "Evicted when no downstream node needs it" fails: in the compiled bypass definition an output can stay although its only reader has completed. |
| `Retry.RetryNode` | internal/engine/retry.go:17-74 | The attempts made, the delay before each and the result: every attempt but the last failed again, and the last one gave the result or was cut short. Every wait is the configured delay, a second if that cannot be parsed, or with exponential backoff positive and at most the cap. |
| `Retry.BackoffExactIff` | internal/engine/retry.go:30-39 | Wrapping backoff equals min(delay * 2^(attempt-1), 5 min) at every attempt if and only if the delay is positive and none of the first 39 products overflows into the range below the cap. |
| `Retry.ZeroDelayWaitsCap` | internal/engine/retry.go:35-38 | A delay of zero, which the configuration allows, waits five minutes at every attempt instead of nothing. |
| `Retry.SmallOddPartIsExact` | internal/engine/retry.go:13-39 | It is exact for every delay whose odd part is below 2^26. |
| `Retry.BackoffCanFallBelowCap` | internal/engine/retry.go:30-39 | The bound is sharp: a delay of 2^26+1 ns waits 2^38 ns at attempt 39 instead of the cap. |
| `Retry.LateAttempts` | internal/engine/retry.go:30-39 | From attempt 40 on the wait is always the cap, as it should be. |
| `QueueCalls.Queue.Push` | internal/bounded/queue.go:50-78 | A call that is not interrupted does to the buffer, the drop count and the waiting Pops, the signal included, exactly what its steps do in the concurrent model. It accepts if and only if the queue is open and has room or drops the oldest; the head is evicted if and only if the queue was full; a refusal changes nothing but the drop count, and that only if the queue was open. |
| `QueueCalls.Queue.PopFast` | internal/bounded/queue.go:105-117 | The fast path is the corresponding step of the concurrent model: it takes the head if there is one, and reports closed if there is none and the queue is closed. |
| `QueueCalls.Queue.PopTurn` | internal/bounded/queue.go:138-153 | One turn of the wait loop is the step that looks, followed by the one that parks if there is nothing to return. |
| `QueueCalls.Queue.Close` | internal/bounded/queue.go:159-166 | A call that is not interrupted does what its steps do: the first one sets the flag and wakes every waiter, later ones do nothing. |
| `QueueCalls.Queue.Broadcast` | internal/bounded/queue.go:164 | Every parked Pop is woken and nothing else changes. |
| `QueueTheorems.RunInv` | internal/bounded/queue.go:50-166 | The conjunction of the queue invariants holds in every reachable state of any number of concurrent Push, Pop and Close calls. |
| `QueueTheorems.ParkedPopsAreCovered` | internal/bounded/queue.go:102-154 | No lost wake-up: while a Pop is parked, buffered values never outnumber the Pops woken and not yet rerun. |
| `QueueTheorems.CloseAndCancelRelease` | internal/bounded/queue.go:102-166 | Once Close has finished no Pop is parked; a parked Pop has a watcher that will wake it when its context ends. |
| `QueueTheorems.NothingLostOrReordered` | internal/bounded/queue.go:50-97 | Accepted values are, in order, the departed ones then the buffer; length stays within capacity; Dropped is rejections plus evictions; every delivered value went to exactly one Pop. |
| `QueueTheorems.ClosedEmptyIsFinal` | internal/bounded/queue.go:102-166 | After a Pop has reported closed-and-empty, no continuation accepts anything and everything accepted has left. |
| `QueueOutcomes.PushMeans` | internal/bounded/queue.go:50-78 | In every concurrent use, Push returns false if and only if it found the queue closed, or full under a policy other than DropOldest; it returns true if and only if it found room or DropOldest. |
| `QueueOutcomes.PushChanges` | internal/bounded/queue.go:59-78 | In every reachable state, the deciding step appends the value if there is room, evicts the head and appends if it is full under DropOldest, and otherwise only counts the drop. |
| `QueueOutcomes.PopMeans` | internal/bounded/queue.go:102-154 | Pop returns a value if and only if it found it at the head, reports closed if and only if it found the queue empty and closed, and gives up if and only if its context had ended and, once it was waiting, the queue was empty and open. |
| `QueueOutcomes.CtxDoneIff` | internal/bounded/queue.go:119-136 | A call's context has ended if and only if it was cancelled. |
| `QueueOutcomes.ClosedIff` | internal/bounded/queue.go:159-166 | The queue is closed if and only if some Close call has run. |
| `QueueProgress.EveryUseSettles` | internal/bounded/queue.go:47-166 | Every run extends, without new calls, to one in which every Push and Close has returned and every Pop has returned or waits on an open, empty queue with its context alive. |
| `QueueProgress.NewPopGetsHead` | internal/bounded/queue.go:105-112 | Whenever nobody holds the mutex and a value is buffered, a new Pop can return the oldest one at once. |
| `QueueProgress.UsesEnd` | internal/bounded/queue.go:47-166 | Without new calls a run takes boundedly many steps. |
| `Lifecycle.RunInv` | internal/lifecycle/lifecycle.go:57-143 | A started component has exactly one owner (the counter, a StopAll call, StartAll in flight, or "stopped") in every interleaving. |
| `Lifecycle.StoppedExactlyOnce` | internal/lifecycle/lifecycle.go:57-177 | When all calls have returned every started component has been stopped exactly once, unless StartAll returned nil and StopAll was never called; no other component is stopped. |
| `Lifecycle.NeverStoppedTwice` | internal/lifecycle/lifecycle.go:132-177 | At every moment no component has been stopped twice, without having started, or while still counted. |
| `Lifecycle.StopsInReverse` | internal/lifecycle/lifecycle.go:155-174 | Each StopAll call stops its components in reverse registration order. |
| `Lifecycle.StopBudgets` | internal/lifecycle/lifecycle.go:145-174 | Every component gets exactly the equal share of the budget. |
| `LifecycleOutcomes.StartResult` | internal/lifecycle/lifecycle.go:57-118 | StartAll returns nil if and only if every component was started successfully and no shutdown was found under way; otherwise some Start failed or somebody called StopAll, and a failed Start always makes it return an error. |
| `LifecycleOutcomes.StartsInOrder` | internal/lifecycle/lifecycle.go:64-107 | Components are started in registration order, one after the other, and none after a failure. |
| `LifecycleOutcomes.FoundMeansCalled` | internal/lifecycle/lifecycle.go:57-143 | StartAll finds a shutdown under way only if somebody called StopAll. |
| `LifecycleProgress.AllCallsReturn` | internal/lifecycle/lifecycle.go:57-177 | From every reachable state, with any number of StopAll calls in progress, all calls can return without further calls being made. |
| `LifecycleProgress.StartCanSucceed` | internal/lifecycle/lifecycle.go:57-118 | For any number of components, StartAll can return nil with all of them running. |
| `LifecycleProgress.StopAllStopsAll` | internal/lifecycle/lifecycle.go:132-177 | Whenever StopAll is called, the run can go on until all calls have returned and exactly the started components have been stopped, each once. |
| `Gateway.RunInv` | internal/wasm/gateway.go:170-425 | One driver per connection, a truthful running flag and a single teardown, in every interleaving. |
| `Gateway.OneReaderOneClose` | internal/wasm/gateway.go:261-295 | At most one read loop is reading and no stop channel is closed twice. |
| `Gateway.TeardownIsPermanent` | internal/wasm/gateway.go:356-425 | Once the current stop channel has been closed, no interleaving replaces it or the socket or reopens the connection. |
| `Gateway.FinishedCloseClosesSocket` | internal/wasm/gateway.go:170-203 | When a CloseConn or CloseAll that found the connection has finished, the current socket is closed. |
| `Gateway.NoReconnectAfterTeardown` | internal/wasm/gateway.go:261-295 | After teardown a read loop that ends starts no reconnect loop. |
| `GatewayRecovery.CheckStopsIffTorn` | internal/wasm/gateway.go:370-379 | A check of a reconnect loop stops it if and only if the connection has been torn down. |
| `GatewayRecovery.InstalledIffNotTorn` | internal/wasm/gateway.go:393-408 | A dialled socket is installed if and only if the connection has not been torn down, and then the connection is open again, on a socket not used before and under a new stop channel; otherwise the socket is closed and the connection stays as it was. |
| `GatewayRecovery.EndsExactlyWhen` | internal/wasm/gateway.go:356-425 | A step ends a reconnect loop if and only if it is not configured, its attempts are used up, a check or the installation finds the connection torn down, or the new read loop is started. |
| `GatewayRecovery.WaitEnds` | internal/wasm/gateway.go:416-421 | The wait for the old read loop cannot block: the new one can be started at once, or after the step that the old one is about to take. |
| `GatewayRecovery.DropsRecover` | internal/wasm/gateway.go:261-425 | Whenever the read loop of an open connection fails, the run can go on, through any number of failed dials, so that the connection is open again, on a new socket that a read loop reads from. |
| `GatewayRecovery.FreshComesUp` | internal/wasm/gateway.go:261-263 | A new connection is open and read from as soon as its read loop runs. |
| `GatewayRecovery.CloseTearsDown` | internal/wasm/gateway.go:170-203 | A closing call can always run to its end: the connection is then torn down, closed and gone, its socket closed, unless another closing call had claimed it. |
| `SchemaRefs.ErrorsExactly` | internal/config/refs.go:246-316 | On any registry, cyclic or not: no error if and only if everything reachable is registered, on no reference cycle, and not already being expanded. |
| `SchemaRefs.ResolvesIffAcyclicAndRegistered` | internal/config/refs.go:246-316 | The same for a top-level value: registered and acyclic. |
| `SchemaRefs.ErrorsAreReal` | internal/config/refs.go:282-316 | An error names a reachable unregistered name, or a chain of references that returns to one of its names. |
| `SchemaRefs.ResultIsRefFree` | internal/config/refs.go:246-280 | A result without errors contains no reference at any depth. |
| `SchemaRefs.RefFreeUnchanged` | internal/config/refs.go:246-280 | A value without references is returned unchanged. |
| `SchemaRefs.PathIrrelevant` | internal/config/refs.go:246-316 | Without errors the result does not depend on the path by which a value was reached. |
| `SchemaRefs.ReferenceMeansDefinition` | internal/config/refs.go:282-316 | A reference resolves to what its definition resolves to on its own. |
| `SchemaInlining.ResolvesToInlined` | internal/config/refs.go:246-316 | Resolution returns a value and no error if and only if that value is the original with every reference replaced by its inlined definition and everything else in place. |
| `SchemaInlining.ResolutionInlines` | internal/config/refs.go:246-316 | The same below any chain of definitions: without errors the result inlines the value. |
| `SchemaInlining.InlinedOnce` | internal/config/refs.go:246-316 | A value has at most one inlined form. |
| `SchemaInlining.InlinableResolves` | internal/config/refs.go:282-316 | Whatever can be inlined at all is resolved without errors. |
| `WorkflowReports.DetectWorkflowCycles` | internal/config/crossrefs.go:494-542 | For every order of the workflows: nothing is reported if and only if no workflow calls itself through any chain; the callee of every report leads to a cycle; a report is a cycle if and only if its callee was on the search stack; the first one is. |
| `WorkflowCycles.Detector.FollowAll` | internal/config/crossrefs.go:509-531 | The loop over a workflow's calls computes the recursive meaning that the other statements are about, early return after a report included. |
| `WorkflowCycles.Detector.Search` | internal/config/crossrefs.go:507-533 | The recursive closure computes the same tour: colours, parents and reports. |
| `WorkflowCycles.Detector.Walk` | internal/config/crossrefs.go:512-521 | The bounded walk along parents, where a missing parent reads as the empty string. |
| `WorkflowReports.ReportsExactly` | internal/config/crossrefs.go:494-542 | No report if and only if the calls are acyclic, and the first report is a cycle, whatever the order. |
| `WorkflowReports.CycleIffOnStack` | internal/config/crossrefs.go:510-525 | Every report under every order: it lists a cycle if and only if its callee was on the search stack, and in any case its callee leads to a cycle. |
| `WorkflowReporters.OneReportPerCaller` | internal/config/crossrefs.go:507-542 | Under every order each workflow is the caller of at most one report, and the search finishes exactly those that are the caller of none. |
| `SpuriousReports.ReportCanBeSpurious` | internal/config/crossrefs.go:492-525 | "Errors for each cycle found" fails: with A calling itself and B calling A, the second report lists no cycle and its caller is on none. |
| `SpuriousReports.CalledOnceNoneSpurious` | internal/config/crossrefs.go:494-542 | If every workflow on a cycle is called once in all lists together, every report is a cycle under every order. |
| `SpuriousOrders.LeadingToCycleMisleads` | internal/config/crossrefs.go:536-540 | If some workflow leads to a cycle without being on one, some order of the workflows gives a report that is no cycle. |
| `SpuriousOrders.SharedFirstCallMisleads` | internal/config/crossrefs.go:509-531 | So it does if two workflows have the same first call that leads to a cycle. |
| `ExprParser.FindClosingBraces` | internal/expr/parser.go:87-133 | The first pair of closing braces that is neither in a string literal nor inside nested braces, or none if there is none. |
| `ExprParser.Parse` | internal/expr/parser.go:33-82 | Computes the segments, the classification and the position of the first error; the remaining text shrinks at every turn. |
| `ExprParser.ParseSpellsInput` | internal/expr/parser.go:41-74 | On success the input is the literals and "{{" + padding + expression + padding + "}}", one after the other. |
| `ExprParser.ErrorNamesFaultyOpening` | internal/expr/parser.go:60-71 | The position in an error is that of an opening that is never closed, or that encloses only white space. |
| `ExprParser.ReparsedSegments` | internal/expr/parser.go:41-74 | Printing the segments with single spaces and parsing again gives the same segments. |
| `ExprParser.RoundTrip` | internal/expr/parser.go:33-82 | The same for whole parses, with the literal and simple flags. |
| `ExprGrammar.ClosesIff` | internal/expr/parser.go:87-133 | An expression ends at the first two closing braces that follow a complete text: plain characters, complete string literals with their escapes, and complete braced texts. |
| `ExprGrammar.BackAtStartIff` | internal/expr/parser.go:87-133 | The scanner is outside all quotes and braces exactly after a complete text. |
| `ExprGrammar.FlagsMean` | internal/expr/parser.go:33-82 | The literal flag says that the input holds no opening braces, and then it is one literal; the simple flag says that it is one expression in braces and nothing else. |
| `Scheduler.KeyExact` | internal/scheduler/runtime.go:213-215 | Two fires share a lock key if and only if they are of one schedule id and one second, whatever characters the ids hold. |
| `Scheduler.Store.TryAcquire` | internal/scheduler/lock.go:23-45 | What the call does to the shared store, and whether it succeeds, is what the job's step in the model of all instances does: the key is taken exactly when absent or expired. |
| `Scheduler.AcquisitionsApart` | internal/scheduler/lock.go:23-45 | Across any number of instances, acquisitions for one tick are at least the first one's time to live apart. |
| `Scheduler.ProtectedIff` | internal/scheduler/runtime.go:274-353 | No other instance can take a tick's lock before the holder's deadline, in any run, if and only if the effective time to live is absent or no shorter than the timeout. |
| `Scheduler.ConfiguredTtlProtects` | internal/scheduler/runtime.go:291-296 | A positive lock time to live always protects, as long as timeout plus buffer fits 64 bits. |
| `Scheduler.DefaultTtlProtectsIff` | internal/scheduler/lock.go:29-31 | Without a configured time to live the lock protects if and only if the timeout is at most five minutes. |
| `Scheduler.OneJobPerSchedule` | internal/scheduler/runtime.go:244-257 | In every run at most one job per instance and schedule id is past the guard, and the guard is taken exactly while one is. |
| `SchedulerOutcomes.LockedOutIff` | internal/scheduler/lock.go:23-45 | In every run, a job gets its tick's lock and works if and only if no job of any instance has taken the same lock and still has it; otherwise it is skipped and the store is left alone. |
| `SchedulerOutcomes.OneWorkerPerTick` | internal/scheduler/runtime.go:274-353 | Across all instances, when two jobs of one tick of a schedule with a lock both work, one of them is past its deadline, provided their locks outlive them: no job works without its lock. |
| `SchedulerOutcomes.TickCanBeWorkedOn` | internal/scheduler/runtime.go:240-353 | A tick that fires while its guard is free and its lock, if it has one, is free can be worked on. |
| `SchedulerOutcomes.AllJobsEnd` | internal/scheduler/runtime.go:244-273 | Every run extends to one in which all jobs have ended and every guard is free again. |
| `Scheduler.History.Record` | internal/scheduler/runtime.go:425-435 | The history holds exactly the latest thousand of all runs ever recorded. |
| `ConfigSchema.TemplatingAccepted` | internal/registry/configschema.go:149-252 | Replacing any set of values of an accepted config, at any depth, by expression strings leaves it accepted, through properties, items and oneOf, for every schema whose enums list no non-empty object or array. |
| `ConfigSchema.EnumTolerantIff` | internal/registry/configschema.go:189-201 | The condition is exact for enumerations: one tolerates expressions inside its members if and only if none is a non-empty object or array. |
| `SchemaWalker.ValidateValue` | internal/registry/configschema.go:149-252 | Reports exactly the faults of the value, each with the place where it is: no alternative matches, not enumerated, of a wrong type, a required field missing, an unknown field. Nothing is reported if and only if the value is accepted. |
| `SchemaWalker.AcceptsIff` | internal/registry/configschema.go:149-252 | A value is accepted if and only if no part of it that the walk looks at, however deep, has a fault. |
| `SchemaWalker.MatchesTypeMeans` | internal/registry/configschema.go:282-307 | A value matches the type name that error messages give it, whole numbers match "integer" too, and nothing matches any other name. |
| `SchemaWalker.CheckRequired` | internal/registry/configschema.go:211-221 | Exactly the required names that are not among the fields. |
| `SchemaWalker.CheckFields` | internal/registry/configschema.go:223-243 | Exactly the faults of declared fields, and the undeclared fields where those are errors. |
| `SchemaWalker.MatchesVariant` | internal/registry/configschema.go:165-187 | True if and only if some alternative accepts the value. |

## Left out

- SpuriousReports.CalledOnceNoneSpurious: states a sufficient condition; between it and the two necessary ones, whether some order yields a report that is no cycle depends on how the calls of several cycles interlock.
- In the executor all retries of a node are one step of its goroutine; the attempt loop is `Retry.RetryNode`, where the context and the dispatched node are functions of the attempt number.
- Stopping times are given to `Lifecycle.StopBudgets`; the parent's deadline enters only through the total.
- Storing an output belongs to the step that settles a node, and an output stored by a node that then fails is not modelled; `SetOutput`, `GetOutput` and `RegisterAlias` as methods of an execution context would only add easy members.
- The executor, the lifecycle, the gateway and the scheduler's guards are modelled as transitions of a state value, not as objects updated in place: aliasing between goroutines' references is not captured.
- The string key of the edge map (`from:output:to`) is a triple, so keys that collide because ids contain colons are not captured.
- Config references (`extractConfigRefs`, internal/engine/compiler.go:592-669) are given with each node, complete or not.
- Parsing of duration strings, output declarations of plugins and the wording of errors: a timeout is absent, parsed or malformed, outputs come from a function of the node's configuration, errors carry what they name.
- Sub-workflows, the depth limit, tracing, logging, metrics and response interception.
- Building the schema registry, collisions between schema files, and `ResolveRefs` over whole files (internal/config/refs.go:14-240).
- `CheckSchemaVocabulary`, and which alternative the schema walker calls closest; numbers are compared exactly rather than as 64-bit floats.
- The parser works on characters where the source works on bytes; the delimiters, quotes and backslash are one byte each, so only error positions after non-ASCII text differ.
- The queue's drop counter is unbounded where the source's is 64 bits wide.
- Gateway: creating connections and the uniqueness of their ids, sending, heartbeats, the host allow-list, back-off times and the number of attempts (each failed dial may be the last).
- Scheduler: cron parsing, time zones, the tick's fire time (given), token generation, and expiry of a key at a finer grain than the clock; the store is assumed to keep a key without a positive time to live for ever.
- Registration of lifecycle components while StartAll runs, and the deadlines of Start and Stop.
- HTTP routing, middleware, the command line, the editor, plugins, node executors and the expression virtual machine.
