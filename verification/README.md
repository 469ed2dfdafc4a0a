# Prompt flow, modelled and proved in Dafny

This project models the parts of prompt flow whose correctness rests on order, interleaving or
arithmetic, and proves what they promise for all inputs, all runs and all interleavings:

- **Flow graphs** (`FlowContracts`, `InputParser`, `NodeOutcome`, `Evaluation`, `FlowValidator`): nodes, the
  references between them (inputs, skip condition, return value), what a node answers to the outputs so far,
  as the parser computes it and as a relation, and the greedy topological sort of the validator.
- **The node scheduler** (`DagManager`, `SchedulerMachine`, `SchedulerSafety`, `SchedulerTheorems`,
  `SchedulerOutcomes`, `FlowNodesScheduler`): a state machine in which pool threads read the live output dictionary one look-up
  at a time while the main thread collects any non-empty batch of finished futures; and the scheduler's
  own loop as a class, proved against it. Every run agrees with evaluating the nodes one by one.
- **Which nodes are submitted** (`NodeSelection`, `FlowRun`, `AggregationRun`): the split into normal and
  aggregation nodes, and exactly when the nodes of each side can be ordered and their runs end.
- **Batches** (`ProcessPool`, `LineMerge`, `InputsMapping`, `BatchOrder`, `StableSort`, `Aggregation`,
  `ReferenceText`): the worker and child process protocol with its queues, crashes and timeouts; the join of
  the input lists; the inputs mapping; line numbers; and the hand-over of the succeeded lines to aggregation.
- **Traces and metrics** (`TraceForest`, `TraceLeaks`, `Tracer`, `RunTracker`): the trace stack and forest,
  with real, linked trace objects, and the token counts folded over it.
- **Greedy and work-list algorithms** (`ColumnWidths`, `HistoryWindow`, `DocstringWorklist`, `TextChunks`).

Code that changes state is a class or a loop with invariants, proved against specification functions;
the theorems are lemmas about those. Inductions are written out: every lemma carries
`{:induction false}`. `dafny verify dfyconfig.toml` checks everything.

## What the proofs show about the code

Where the code does not meet its own promise, the condition under which it does is stated and proved,
with an input for which it fails:

- A validated flow in which a normal node refers to an aggregation node never returns: every run raises or,
  from a bound on, waits on an empty set of futures for ever (`FlowRun.OrderableIff`,
  `FlowRun.NormalOnAggregationNeverReturns`, `SchedulerTheorems.WithoutOrder`). `FlowRun.StuckFlowSpins` gives
  such a flow that spins from the start, `FlowRun.StuckFlowRaises` one that raises.
- The same holds for the aggregation nodes of a flow in which the skip condition or return value of one refers
  to a normal node, and only then (`AggregationRun.AggregationOrderableIff`, `AggregationRun.AggregationRuns`,
  `AggregationRun.SkipOnNormalNeverReturns`); `AggregationRun.SkippingFlowSpins` gives such a flow.
- Aggregation reads the inputs of result *j* from row *j*. That is right for every answer of the pool if and
  only if the given line numbers are absent, repeated or ascending (`BatchOrder.RowByRowIff`); two rows numbered
  1 and 0 are mixed up (`BatchOrder.SwappedBatchMisplaced`).
- Numbers and rows are paired from the front, and surplus rows are dropped. Every row gets a result if and only
  if the line numbers are absent, repeated or present on every row (`BatchOrder.EveryRowAnsweredIff`); and given
  numbers that are used belong to the rows that run under them if and only if no row without a number stands
  before one that has one (`BatchOrder.OwnNumbersIff`). Of a row without a number and one numbered 5, the first
  runs as line 5 and the second never runs (`BatchOrder.PartlyNumberedRowLost`).
- A reference to a node named `flow` or `inputs` does not survive being written and read again
  (`ReferenceText.NodeReferenceRoundTrip`, `ReferenceText.ReservedNodeIsLost`), which fails every line of a flow
  whose aggregation refers to such a node (`Aggregation.ReservedReferenceFails`).
- A nested tool call that raises is not popped; the traces of a node run are all closed if and only if no
  such call raised (`TraceLeaks.NodeTraceClosedIff`); `TraceLeaks.LeakLeavesRootOpen` gives a node run whose own
  trace stays open.
- A new docstring replaces the text of the old one where it first occurs in header and body together, which is
  in the body if and only if that text does not begin in the header already
  (`DocstringWorklist.OnlyTheDocstringChanges`); otherwise a default value is changed and the docstring stays
  (`DocstringWorklist.DefaultValueChanges`).
- A text shorter than the overlap may be cut down to a piece of itself (`TextChunks.ShortTextIff`,
  `TextChunks.ShortTextLost`).
- The comment above the insertion of history messages speaks of two system prompts; the code inserts behind
  three messages. The model follows the code.

## Model

| member | source | states |
|---|---|---|
| FlowValidator.EnsureNodesOrder | src/promptflow/promptflow/executor/flow_validator.py:24-57 | `NodeReferenceNotFound` exactly if a reference dangles, and it names one; otherwise `NodeCircularDependency` exactly if a name is repeated or the graph of inputs and skip conditions has a cycle; otherwise the greedy topological permutation |
| FlowValidator.ValidateNodesTopology | src/promptflow/promptflow/executor/flow_validator.py:60-75 | each error exactly under its condition and precedence; a flow passes if and only if names are distinct, flow inputs and references exist and there is no cycle |
| FlowValidator.FindDangling | src/promptflow/promptflow/executor/flow_validator.py:25-36 | answers with nothing if and only if every reference names a node of the flow |
| FlowValidator.PickAvailable | src/promptflow/promptflow/executor/flow_validator.py:40-45 | finds the first node in flow order that is unpicked with all dependencies picked, or shows that there is none |
| FlowValidator.GreedyComplete | src/promptflow/promptflow/executor/flow_validator.py:37-47 | a selection that never gets stuck is a permutation with every dependency earlier, and the names were distinct |
| FlowValidator.StuckHasCycle | src/promptflow/promptflow/executor/flow_validator.py:43-45 | a selection stuck before its end follows dependencies into a cycle |
| FlowValidator.OrderedAcyclic | src/promptflow/promptflow/executor/flow_validator.py:24-57 | a flow that has an order has no cycle |
| FlowValidator.GreedyIsLeast | src/promptflow/promptflow/executor/flow_validator.py:40-47 | among all topological orders the returned one is lexicographically least by position in the flow |
| FlowValidator.OrderedIsFixed | src/promptflow/promptflow/executor/flow_validator.py:48-57 | an ordered flow keeps its order, so sorting twice is sorting once |
| InputParser.ExecNodeAgree | src/promptflow/promptflow/executor/_flow_nodes_scheduler.py:76-97 | the outcome of a node depends on the outputs of the nodes it refers to and on nothing else |
| NodeOutcome.ParseValueMeans | src/promptflow/promptflow/executor/_input_assignment_parser.py:15-41 | an assignment stands for its literal, the flow input of its name or the property of the output of its node, and for nothing else; otherwise it fails for the one reason that applies |
| NodeOutcome.ToolReceives | src/promptflow/promptflow/executor/_flow_nodes_scheduler.py:76-97 | without a skip condition the tool receives exactly the values of the inputs, by name and in order, and its answer is the outcome; or the node fails with its first input that cannot be resolved |
| NodeOutcome.SkippedReturns | src/promptflow/promptflow/executor/_flow_nodes_scheduler.py:78-81 | a node whose condition is the same as the condition value answers with its return value, whatever its tool and its inputs are |
| NodeOutcome.NotSkippedRuns | src/promptflow/promptflow/executor/_flow_nodes_scheduler.py:78-97 | a node whose condition differs from the condition value is run as if it had none |
| NodeOutcome.OutcomeMeans | src/promptflow/promptflow/executor/_flow_nodes_scheduler.py:76-97 | which value a node gives and which failure it raises, in all cases |
| NodeOutcome.ReferencesAre | src/promptflow/promptflow/executor/_dag_manager.py:27-36 | a node depends on exactly the nodes named by its inputs, its skip condition and its return value |
| Evaluation.OrderIrrelevant | src/promptflow/promptflow/executor/_flow_nodes_scheduler.py:27-61 | any two topological orders of the same nodes both fail or give the same outputs |
| Evaluation.SolutionDecides | src/promptflow/promptflow/executor/_flow_nodes_scheduler.py:27-61 | a map that gives each node an output exactly when its dependencies have one and it succeeds on them decides every sequential evaluation |
| Evaluation.EvaluationMeans | src/promptflow/promptflow/executor/_flow_nodes_scheduler.py:27-61 | ordered nodes evaluate to a map if and only if it has one entry for each of them, which is what the node computes from the others |
| Evaluation.EvaluationFailsIn | src/promptflow/promptflow/executor/_flow_nodes_scheduler.py:27-69 | the sequential evaluation fails with the failure of a node all of whose dependencies can be evaluated |
| DagManager.DAGManager.constructor | src/promptflow/promptflow/executor/_dag_manager.py:7-11 | nothing completed; the nodes pending by name, later duplicates replacing earlier ones |
| DagManager.DAGManager.IsNodeReady | src/promptflow/promptflow/executor/_dag_manager.py:27-36 | ready if and only if every node referred to by an input, skip condition or return value has an output |
| DagManager.DAGManager.PopReadyNodes | src/promptflow/promptflow/executor/_dag_manager.py:17-25 | hands out the ready pending nodes in order and leaves exactly the waiting ones, in order |
| DagManager.DAGManager.CompleteNodes | src/promptflow/promptflow/executor/_dag_manager.py:43-45 | the new outputs replace or join the recorded ones |
| DagManager.DAGManager.Completed | src/promptflow/promptflow/executor/_dag_manager.py:47-49 | as many outputs as nodes |
| DagManager.PopSplits | src/promptflow/promptflow/executor/_dag_manager.py:17-25 | popping partitions the pending nodes by readiness and keeps names distinct |
| DagManager.SplitKeepsOrder | src/promptflow/promptflow/executor/_dag_manager.py:17-25 | nodes that are popped together keep their order, and so do those that are left |
| DagManager.PendingOfDistinct | src/promptflow/promptflow/executor/_dag_manager.py:9 | the dictionary of pending nodes keeps every name, and keeps the nodes and their order when the names differ |
| DagManager.PendingHoldsLast | src/promptflow/promptflow/executor/_dag_manager.py:9 | the dictionary of pending nodes holds the last node of every name |
| DagManager.StorePlaces | src/promptflow/promptflow/executor/_dag_manager.py:9 | storing a node keeps the place of its name in the dictionary, or puts it last |
| SchedulerMachine.AdvanceKeepsFinish | src/promptflow/promptflow/executor/_flow_nodes_scheduler.py:76-97 | no single look-up of a node in flight changes what it will answer in the end |
| SchedulerSafety.RunInv | src/promptflow/promptflow/executor/_flow_nodes_scheduler.py:27-74 | in every reachable state pending, in-flight and completed nodes partition the flow; in-flight nodes have all their dependencies' outputs; recorded outputs are what the nodes compute |
| SchedulerSafety.NextInv | src/promptflow/promptflow/executor/_flow_nodes_scheduler.py:44-60 | the invariant survives every step: a look-up, a collection of any batch, a failure, a return |
| SchedulerTheorems.RunExtends | src/promptflow/promptflow/executor/_flow_nodes_scheduler.py:40-61 | along a run outputs never change, completed nodes keep their place and no node becomes pending again, so each is submitted at most once |
| SchedulerTheorems.AncestorsNeverMissing | src/promptflow/promptflow/executor/_input_assignment_parser.py:27-31 | `InputNotFoundFromAncestorNodeOutput` cannot occur |
| SchedulerTheorems.SomethingInFlight | src/promptflow/promptflow/executor/_flow_nodes_scheduler.py:44-50 | if the nodes can be ordered, then while one lacks its output a future is in flight |
| SchedulerTheorems.SomeStepEnabled | src/promptflow/promptflow/executor/_flow_nodes_scheduler.py:37-61 | a run that has neither returned nor raised can go on |
| SchedulerTheorems.NextLowersWork | src/promptflow/promptflow/executor/_flow_nodes_scheduler.py:44-52 | every step but a wait on no future lowers a measure |
| SchedulerTheorems.RunsEnd | src/promptflow/promptflow/executor/_flow_nodes_scheduler.py:44-61 | the length of every run is bounded by the nodes alone, and a run that cannot go on has returned or raised |
| SchedulerTheorems.RunIsEvaluation | src/promptflow/promptflow/executor/_flow_nodes_scheduler.py:27-97 | every interleaving that returns gives the sequential result of any topological order; one that raises has a failing sequential evaluation, and raises the failure of a node all of whose dependencies that can evaluate |
| SchedulerTheorems.RaisedByNode | src/promptflow/promptflow/executor/_flow_nodes_scheduler.py:63-69 | on any nodes with distinct names the failure raised is that of a node on the outputs recorded so far, and on every map that gives each node an output exactly when it can have one |
| SchedulerTheorems.RunsInOrder | src/promptflow/promptflow/executor/_flow_nodes_scheduler.py:27-97 | on nodes given in an order every run is bounded, never waits on nothing, and agrees with evaluating them in that order |
| SchedulerTheorems.RunsAgree | src/promptflow/promptflow/executor/_flow_nodes_scheduler.py:27-97 | for any nodes with distinct names, ordered or not: two runs that have returned, raised or come to spin, even with different pool sizes, both raise, each the failure of a node on its recorded outputs, or both return or both spin with the same outputs |
| SchedulerTheorems.ReturnedOrders | src/promptflow/promptflow/executor/_flow_nodes_scheduler.py:44-61 | a run can return only if the nodes can be ordered; its completion order is such an order |
| SchedulerTheorems.WithoutOrder | src/promptflow/promptflow/executor/_flow_nodes_scheduler.py:44-61 | on nodes that cannot be ordered no run returns; one that cannot go on has raised, and one longer than a bound given by the nodes waits on nothing for ever |
| SchedulerTheorems.StuckForever | src/promptflow/promptflow/executor/_flow_nodes_scheduler.py:44-50 | a loop that waits on no future stays where it is for ever |
| SchedulerOutcomes.RecordedOutcome | src/promptflow/promptflow/executor/_flow_nodes_scheduler.py:76-97 | whatever a run has recorded for a node is its return value if its condition holds and otherwise its tool's answer to the values of its inputs, given the other recorded outputs |
| SchedulerOutcomes.ReturnedOutcome | src/promptflow/promptflow/executor/_flow_nodes_scheduler.py:27-97 | a run that returns has such an output for every node and no others |
| SchedulerOutcomes.RaisedOutcome | src/promptflow/promptflow/executor/_flow_nodes_scheduler.py:63-97 | a run that raises does so because a condition, a return value or an input of some node cannot be resolved from the recorded outputs, or because its tool fails on them |
| SchedulerOutcomes.BusyBounded | src/promptflow/promptflow/executor/_flow_nodes_scheduler.py:31-38 | at no time are more nodes being run than the pool has threads |
| FlowNodesScheduler.FlowNodesScheduler.Execute | src/promptflow/promptflow/executor/_flow_nodes_scheduler.py:27-61 | on nodes that can be ordered the loop ends; what it has done is a run of the state machine, and its answer is that run's: the outputs of the sequential evaluation, right for every node, or, only if that fails, the failure of a node all of whose dependencies can be evaluated |
| FlowNodesScheduler.FlowNodesScheduler.Round | src/promptflow/promptflow/executor/_flow_nodes_scheduler.py:44-60 | one round prolongs the run of the state machine: it raises the failure of a collected future, or leaves the manager and the table of futures in the state after a collection, with less work left |
| FlowNodesScheduler.FlowNodesScheduler.SubmitNodes | src/promptflow/promptflow/executor/_flow_nodes_scheduler.py:71-74 | one queued future per node, in order, behind those in flight |
| FlowNodesScheduler.FlowNodesScheduler.CollectOutputs | src/promptflow/promptflow/executor/_flow_nodes_scheduler.py:63-69 | the outputs of exactly the batch, or the failure of one of its futures |
| FlowNodesScheduler.FlowNodesScheduler.Wait | src/promptflow/promptflow/executor/_flow_nodes_scheduler.py:46 | answers with a non-empty batch of finished futures; the state is reached from the present one by look-ups of pool threads alone |
| NodeSelection.SelectTopologicalIff | src/promptflow/promptflow/executor/flow_executor.py:664-669 | nodes selected from an ordered flow are ordered if and only if they refer to selected nodes only |
| NodeSelection.SelectOrderableIff | src/promptflow/promptflow/executor/flow_executor.py:664-669 | nodes selected from an ordered flow have any order at all if and only if they refer to selected nodes only |
| FlowRun.OrderableIff | src/promptflow/promptflow/executor/flow_executor.py:664-669 | the normal nodes have any order at all if and only if none of them refers to an aggregation node; then the validated order is one |
| FlowRun.ValidatedFlowRuns | src/promptflow/promptflow/executor/flow_executor.py:664-669 | then every run of a validated flow ends within a bound, never waits on nothing and agrees with the validated order |
| FlowRun.NormalOnAggregationNeverReturns | src/promptflow/promptflow/executor/flow_executor.py:664-669 | otherwise no run returns: one that cannot go on has raised, and one longer than the bound waits on nothing for ever |
| FlowRun.StuckFlowSpins | src/promptflow/promptflow/executor/_flow_nodes_scheduler.py:44-50 | a two-node flow in topological order whose scheduler spins from the start |
| FlowRun.StuckFlowRaises | src/promptflow/promptflow/executor/_flow_nodes_scheduler.py:44-69 | with a further node whose tool fails there is a run that raises, and no run spins |
| ProcessPool.RunInv | src/promptflow/promptflow/executor/_line_execution_process_pool.py:125-176 | in every reachable state a ready worker's queues are empty, a waiting worker's process holds traces of its own line only, no process is shared, and every task is queued, waited for or credited once |
| ProcessPool.NothingLeftAtTake | src/promptflow/promptflow/executor/_line_execution_process_pool.py:127-135 | when a worker takes a task its queues hold nothing of an earlier line, so no late result is credited to another line |
| ProcessPool.ExactlyOnce | src/promptflow/promptflow/executor/_line_execution_process_pool.py:204-232 | when all workers have left the results are those of the batch: one per enqueued line, with its index, that line's own result or its timeout |
| ProcessPool.ParentProgress | src/promptflow/promptflow/executor/_line_execution_process_pool.py:127-176 | no step of parent or child raises the parent's work; taking, crediting, a timeout and leaving lower it |
| ProcessPool.ParentStepEnabled | src/promptflow/promptflow/executor/_line_execution_process_pool.py:127-176 | while a worker is left one of them can take, leave or time out, whatever its child does |
| ProcessPool.RunCanFinish | src/promptflow/promptflow/executor/_line_execution_process_pool.py:125-176 | every run can be prolonged to one in which all workers have left, within as many steps as the parent has work left |
| ProcessPool.ProductiveStepsBounded | src/promptflow/promptflow/executor/_line_execution_process_pool.py:125-176 | no run, however long, holds more than two steps of the workers for every line and one for every worker |
| ProcessPool.FairRunReturns | src/promptflow/promptflow/executor/_line_execution_process_pool.py:204-232 | in every infinite run in which the workers left are not kept from getting on for ever, all workers leave, and the results are those of the batch, exactly one for every line |
| ProcessPool.ReceiveFromHandling | src/promptflow/promptflow/executor/_line_execution_process_pool.py:146-155 | the first line result found is that of the awaited line, and nothing follows it |
| LineMerge.MergeInputDictsByLine | src/promptflow/promptflow/executor/flow_executor.py:753-795 | both errors exactly under their conditions, an empty list reported by the key of the first one; otherwise the join, which has exactly the lines that every list offers a row for, each with these rows |
| LineMerge.CompleteLinesJoin | src/promptflow/promptflow/executor/flow_executor.py:772-795 | the table of lines yields exactly one entry per line that all inputs supply, with the last row of every input, in first-seen order, and nothing else |
| LineMerge.SuppliesOffered | src/promptflow/promptflow/executor/flow_executor.py:773-787 | a list without line numbers offers its rows as the lines 0, 1, 2 and so on; any other list offers, for every number a row carries, the last row that carries it |
| LineMerge.JoinOfRows | src/promptflow/promptflow/executor/flow_executor.py:772-795 | the lines of a join are exactly those for which every list offers a row, with these rows |
| LineMerge.CollectSource | src/promptflow/promptflow/executor/flow_executor.py:773-787 | one input enters the rows it offers under its key, by position or by line number, passing over rows without one; every other entry of the table stays as it was |
| LineMerge.CheckAligned | src/promptflow/promptflow/executor/flow_executor.py:760-770 | aligned if and only if all lists without line numbers have one length |
| LineMerge.KeepComplete | src/promptflow/promptflow/executor/flow_executor.py:788-795 | keeps the lines with as many entries as there are inputs |
| LineMerge.FirstInputDecidesOrder | src/promptflow/promptflow/executor/flow_executor.py:772-795 | the lines of a join stand in the order in which the first input supplies them |
| LineMerge.JoinAscending | src/promptflow/promptflow/executor/flow_executor.py:772-795 | if the first input is positional or ascending, the join is in ascending line order |
| LineMerge.AscendingRows | src/promptflow/promptflow/executor/flow_executor.py:773-787 | a list is ascending if it has no line numbers or those its rows carry ascend |
| InputsMapping.FindSource | src/promptflow/promptflow/executor/flow_executor.py:720-730 | finds the value under the key with the fewest dots among all readings of the reference, and fails exactly if there is none |
| InputsMapping.CutsAreDots | src/promptflow/promptflow/executor/flow_executor.py:723-726 | joining the first i parts and the rest gives the reference back, with i - 1 dots in the key |
| InputsMapping.SplitJoin | src/promptflow/promptflow/executor/flow_executor.py:723-726 | splitting undoes joining for parts without dots |
| InputsMapping.MatchReferenceMeans | src/promptflow/promptflow/executor/flow_executor.py:718-720 | a text is a reference exactly if it is `${p}` with a non-empty `p` without braces, perhaps with a final newline |
| InputsMapping.ReferenceOfMeans | src/promptflow/promptflow/executor/flow_executor.py:711-720 | an entry has a reference exactly if its key is not `line_number` and its value is such a text |
| InputsMapping.AsksLineNumberMeans | src/promptflow/promptflow/executor/flow_executor.py:723-730 | a reference reaches into the line number exactly if it starts with `line_number.` |
| InputsMapping.ApplyInputsMapping | src/promptflow/promptflow/executor/flow_executor.py:711-750 | the row holds the image of every entry and the line number and nothing else; `MappingSourceNotFound` exactly if some reference has no reading, and it lists all of them in order |
| InputsMapping.ApplyInputsMappingForAllLines | src/promptflow/promptflow/executor/flow_executor.py:835-845 | one mapped row per joined line, in the order of the join; fails exactly if the lists cannot be merged (naming the first empty one), if no line is complete, or if some line cannot be mapped, and then with the error of the first such line |
| InputsMapping.MapLines | src/promptflow/promptflow/executor/flow_executor.py:844 | succeeds if and only if no line has a mapping error; otherwise the error is that of the first line that has one |
| BatchOrder.LineNumbersDistinct | src/promptflow/promptflow/executor/flow_executor.py:313-324 | the numbers handed to the pool never repeat, and are at most as many as the rows |
| BatchOrder.LineNumbersMean | src/promptflow/promptflow/executor/flow_executor.py:313-324 | rows are numbered 0, 1, 2 and so on if none carries a number or two carry equal ones; otherwise the numbers are those of the rows that carry one, in the order of the batch |
| BatchOrder.RowByRowIff | src/promptflow/promptflow/executor/flow_executor.py:339-355 | result j carries number j and is that of row j, for all results, if and only if the given line numbers are absent, repeated or strictly ascending |
| BatchOrder.EveryRowAnsweredIff | src/promptflow/promptflow/executor/flow_executor.py:313-339 | there is one result per line number, for the rows at the front; every row gets one if and only if the line numbers are absent, repeated or complete |
| BatchOrder.OwnNumbersIff | src/promptflow/promptflow/executor/flow_executor.py:313-337 | given numbers that are used are those of the rows they are paired with if and only if the rows that carry one come first |
| BatchOrder.SwappedBatchMisplaced | src/promptflow/promptflow/executor/flow_executor.py:339-355 | for two rows numbered 1 and 0 no answer of the pool stands row by row after sorting |
| BatchOrder.PartlyNumberedRowLost | src/promptflow/promptflow/executor/flow_executor.py:313-339 | a row without a number and one numbered 5: the first runs as line 5, the second never runs, and the one result stands at its row |
| StableSort.SortBySorts | src/promptflow/promptflow/executor/flow_executor.py:339 | sorting orders by the key and keeps every element |
| StableSort.SortByIsStable | src/promptflow/promptflow/executor/flow_executor.py:339 | elements with equal keys keep their order |
| Aggregation.AggregationReferences | src/promptflow/promptflow/executor/flow_executor.py:270-281 | the texts of exactly the references from inputs of aggregation nodes to normal nodes |
| Aggregation.LineInputsMeans | src/promptflow/promptflow/executor/flow_validator.py:78-107 | a line has its inputs exactly if every flow input is there and of its type, and they are the row with the flow inputs converted; otherwise the first missing input is reported, or if there is none the first of the wrong type |
| Aggregation.LineOutputsMean | src/promptflow/promptflow/executor/flow_executor.py:664-669 | the normal nodes of a line evaluate to a map exactly if it holds the right output of each of them and nothing else |
| Aggregation.CompletedIff | src/promptflow/promptflow/executor/flow_executor.py:611-628 | a line is completed if and only if its flow inputs are there and convert, its normal nodes evaluate, its outputs can be built and serialised, and every collected reference resolves; otherwise it is failed |
| Aggregation.Transpose | src/promptflow/promptflow/_utils/utils.py:51-53 | fails exactly for no rows and no keys; otherwise there is a column for every key (of the first row if none are given), and it holds at each position what that row has for the key, or null |
| Aggregation.SucceededFacts | src/promptflow/promptflow/executor/flow_executor.py:352 | the positions of exactly the completed lines, ascending |
| Aggregation.SucceededIff | src/promptflow/promptflow/executor/flow_executor.py:351-354 | with results row by row the handed-over lines are exactly those that complete and did not time out |
| Aggregation.HandOverAligned | src/promptflow/promptflow/executor/flow_executor.py:341-366 | with results row by row, position j of every reference column and every flow input column belongs to the same succeeded line; it fails only for want of a row to take keys from |
| Aggregation.AggregationInputReceives | src/promptflow/promptflow/executor/flow_executor.py:378-384 | an input `${n.output.p}` of an aggregation node receives exactly the values of that reference on the succeeded lines, in line order |
| Aggregation.AggregationInputMeans | src/promptflow/promptflow/executor/flow_executor.py:378-384 | a literal, a flow input and a reference without a column mean what they meant; a reference with a column means the list of it |
| AggregationRun.RewrittenMeans | src/promptflow/promptflow/executor/flow_executor.py:409-414 | rewriting changes nothing of a node but the inputs that have a column |
| AggregationRun.RewrittenReferences | src/promptflow/promptflow/executor/flow_executor.py:410-414 | after rewriting a node still refers to the nodes of its skip condition and of inputs without a column, and to no others |
| AggregationRun.AggregationOrderableIff | src/promptflow/promptflow/executor/flow_executor.py:409-434 | with a column for every collected reference, the rewritten aggregation nodes have any order at all if and only if no skip condition or return value refers to a normal node; then the validated order is one |
| AggregationRun.HandOverOrderableIff | src/promptflow/promptflow/executor/flow_executor.py:341-366 | the hand-over of a bulk run makes all those columns, so behind it the skip conditions alone decide |
| AggregationRun.AggregationRuns | src/promptflow/promptflow/executor/flow_executor.py:409-434 | then every run of the aggregation nodes ends within a bound, never waits on nothing and agrees with the validated order |
| AggregationRun.SkipOnNormalNeverReturns | src/promptflow/promptflow/executor/flow_executor.py:409-434 | otherwise no run returns: one that cannot go on has raised, and one longer than the bound waits on nothing for ever |
| AggregationRun.SkippingFlowSpins | src/promptflow/promptflow/executor/_flow_nodes_scheduler.py:44-50 | a two-node flow in topological order, without any reference to collect, whose aggregation scheduler spins from the start |
| Aggregation.ReservedReferenceFails | src/promptflow/promptflow/executor/flow_executor.py:459-466 | a collected reference to a node named `flow` or `inputs` fails every line |
| Aggregation.BulkRunAligned | src/promptflow/promptflow/executor/flow_executor.py:310-366 | after numbering, pool under any interleaving and sorting there is one result per line number; the results stand row by row exactly if the given line numbers are absent, repeated or ascending, and then exactly the lines that complete in time are handed over, with every column aligned |
| Aggregation.MappedBatchIsGood | src/promptflow/promptflow/executor/flow_executor.py:798-845 | in a batch mapped from joined inputs whose first input is positional or ascending, the line numbers are complete and ascending and every row runs under its own |
| ReferenceText.FlowInputRoundTrip | src/promptflow/promptflow/contracts/flow.py:41-100 | a flow input is read back as itself, up to the spelling of its prefix |
| ReferenceText.LooksLikeReferenceMeans | src/promptflow/promptflow/contracts/flow.py:52-61 | a text is read as a reference exactly if it is `${path}` for some path |
| ReferenceText.FlowInputSpelling | src/promptflow/promptflow/contracts/flow.py:41-73 | a flow input is written `${flow.name}` and may also be read from `${inputs.name}` |
| ReferenceText.NodeSpelling | src/promptflow/promptflow/contracts/flow.py:41-79 | a node reference is written `${node.section.property}`, and `${node}` is read as the output of the node |
| ReferenceText.LiteralRoundTrip | src/promptflow/promptflow/contracts/flow.py:41-61 | a literal is read back as itself exactly if it is not a text of the form of a reference |
| ReferenceText.NodeReferenceRoundTrip | src/promptflow/promptflow/contracts/flow.py:41-79 | a node reference is read back as itself if and only if its node has no dot and is not `flow` or `inputs` and its section has no dot |
| ReferenceText.ReadReferenceRoundTrip | src/promptflow/promptflow/contracts/flow.py:52-79 | a reference read from a text survives writing and reading exactly if its node is not `flow` or `inputs` |
| ReferenceText.ReservedNodeIsLost | src/promptflow/promptflow/contracts/flow.py:52-79 | `${flow}` is such a reference |
| ReferenceText.SerializeInjective | src/promptflow/promptflow/contracts/flow.py:41-50 | faithful references with the same text are the same |
| ReferenceText.FirstDotUnique | src/promptflow/promptflow/contracts/flow.py:75-78 | a name without a dot ends at the first dot behind it |
| TraceForest.PlayGrows | src/promptflow/promptflow/_core/tracer.py:90-121 | from any tracer state, matched pushes and pops leave the stack as it was and append exactly the calls, closed, to the roots or to the trace on top |
| TraceForest.TraceForestIsCallForest | src/promptflow/promptflow/_core/tracer.py:90-121 | after a whole run the stack is empty, all traces are closed, roots and children are the call forest in call order, and a visit meets each trace once |
| TraceLeaks.StackGrowsByLeaks | src/promptflow/promptflow/_core/flow_execution_context.py:84-89 | the stack grows by one for every nested tool call that raises and by nothing else |
| TraceLeaks.NoLeakIsPlay | src/promptflow/promptflow/_core/openai_injector.py:43-51 | without such calls the tracer sees the executed calls as properly nested |
| TraceLeaks.NodeTraceClosedIff | src/promptflow/promptflow/_core/flow_execution_context.py:123-144 | the traces of a node run are closed if and only if no nested tool call raised; then they are the forest of the executed calls |
| TraceLeaks.LeakLeavesRootOpen | src/promptflow/promptflow/_core/flow_execution_context.py:84-89 | a node run around one nested tool call that raises: the result of the node closes the trace of that call, and the trace of the node stays open on the stack |
| TraceLeaks.OneCall | src/promptflow/promptflow/_core/openai_injector.py:43-51 | a call that returns closes its trace with the result; if it raises, an API call closes its trace with the error and a nested tool call leaves it open |
| TraceLeaks.Propagation | src/promptflow/promptflow/_core/flow_execution_context.py:84-144 | an unhandled error, from inside a call or its own, ends the sequence and is its error; after any other call the rest follows |
| Tracer.Tracer.constructor | src/promptflow/promptflow/_core/tracer.py:25-28 | no traces and an empty stack |
| Tracer.Tracer.Push | src/promptflow/promptflow/_core/tracer.py:90-100 | the linked objects change as one push of the specification: a new root, or a new last child of the trace on top |
| Tracer.Tracer.Pop | src/promptflow/promptflow/_core/tracer.py:107-121 | an index error exactly on the empty stack; otherwise the trace on top is closed with its output or error and leaves the stack |
| RunTracker.TotalConcat | src/promptflow/promptflow/_core/run_tracker.py:265-303 | the fold of a concatenation of forests is the sum of the folds |
| RunTracker.TotalIsSum | src/promptflow/promptflow/_core/run_tracker.py:276-299 | the fold of a metric is the sum, over all calls at any depth, below LLM calls too, of what LLM calls report |
| RunTracker.ReportedIff | src/promptflow/promptflow/_core/run_tracker.py:276-299 | a metric is in the fold exactly if some LLM call at some depth reports it |
| RunTracker.BelowMembers | src/promptflow/promptflow/_core/run_tracker.py:284-288 | all calls at any depth are those of a list and those below them |
| RunTracker.MergeMetricsDict | src/promptflow/promptflow/_core/run_tracker.py:301-303 | the union of the keys, every key with the sum of both values |
| RunTracker.GetOpenaiMetrics | src/promptflow/promptflow/_core/run_tracker.py:276-288 | exactly the metrics reported by LLM calls with usage at any depth below the call, with their sums |
| RunTracker.FoldCalls | src/promptflow/promptflow/_core/run_tracker.py:267-272 | the same for a list of calls |
| RunTracker.CollectMetrics | src/promptflow/promptflow/_core/run_tracker.py:314-323 | over ended runs, the sum of `total_tokens` of all their calls; nothing for no runs |
| RunTracker.AllCallsConcat | src/promptflow/promptflow/_core/run_tracker.py:305-310 | the calls of several runs are the calls of each, one run after the other |
| RunTracker.BulkOpenaiMetrics | src/promptflow/promptflow/executor/_result.py:77-84 | the metrics of a bulk run are the sums over the calls of all its node runs |
| RunTracker.ChildrenAre | src/promptflow/promptflow/_core/run_tracker.py:250-251 | a run is collected if and only if it is recorded and the parent is its own; each once, in the order in which the ids were first used |
| RunTracker.RunTracker.StartNodeRun | src/promptflow/promptflow/_core/run_tracker.py:104-129 | a new, running record under the id; others are untouched |
| RunTracker.RunTracker.EndNodeRun | src/promptflow/promptflow/_core/run_tracker.py:180-196 | an unknown run is an error; otherwise the run has its traces, the duration, the sums of what its calls report and its other metrics as before, and no other run changes |
| RunTracker.RunTracker.CollectChildNodeRuns | src/promptflow/promptflow/_core/run_tracker.py:250-251 | exactly the recorded runs of the parent, in the order they were started |
| RunTracker.RunTracker.UpdateFlowRunInfo | src/promptflow/promptflow/_core/run_tracker.py:139-144 | the collected `api_calls` are those of exactly the recorded runs of the line, in order; once these have ended, and there is one, the line's `total_tokens` is the sum over all LLM calls with usage at any depth in them |
| ColumnWidths.AssignAvailableWidth | src/promptflow/promptflow/_cli/_utils.py:246-263 | widths and remaining budget keep their sum; the first columns of the list are served in full, one in part, the rest not at all |
| ColumnWidths.RoundTwo | src/promptflow/promptflow/_cli/_utils.py:301-310 | what is left goes to the recorded columns, the widest need first, each in full until the budget is spent |
| ColumnWidths.RoundThree | src/promptflow/promptflow/_cli/_utils.py:312-319 | the same for all columns and their maxima; what is left after it is left because every column has its maximum |
| ColumnWidths.RoundOne | src/promptflow/promptflow/_cli/_utils.py:288-298 | every column gets the smaller of the share and its need, and exactly those whose need is at or above the share are recorded, with their needs |
| ColumnWidths.SortKeeps | src/promptflow/promptflow/_cli/_utils.py:232-243 | sorting puts the widest first and keeps the columns |
| ColumnWidths.LongestMeans | src/promptflow/promptflow/_cli/_utils.py:274-282 | the longest length is one of the lengths and no other is longer |
| ColumnWidths.AverageMeans | src/promptflow/promptflow/_cli/_utils.py:279-281 | the average is the sum over the number, rounded down |
| ColumnWidths.SumConcat | src/promptflow/promptflow/_cli/_utils.py:279-300 | the sum of two lists put together is the sum of both, and that of one number is the number |
| ColumnWidths.MarginMeans | src/promptflow/promptflow/_cli/_utils.py:283-288 | the margin is 4 exactly if the header is as long as every cell, else 2 |
| ColumnWidths.IndexWidthMeans | src/promptflow/promptflow/_cli/_utils.py:268 | the index column is two wider than the number of rows has digits, and at least four wide |
| ColumnWidths.ExpectedMean | src/promptflow/promptflow/_cli/_utils.py:232-243 | without its margin the maximum of a column is the least width that holds its header and every cell, and its need the least that holds header and average |
| ColumnWidths.CalculateColumnWidths | src/promptflow/promptflow/_cli/_utils.py:266-324 | the index column, the widths with margins, a frame of one per column and two, and ten to spare never exceed the terminal, however narrow, nor a column its maximum; unless every column has its maximum the whole width is used, first on the shares, then on the needs and then on the maxima, each from the largest down; fails exactly on an empty table |
| HistoryWindow.CountMessageTokens | examples/flows/standard/autonomous-agent/util.py:40-88 | the sum over the messages plus one reply primer |
| HistoryWindow.MessageCosts | examples/flows/standard/autonomous-agent/util.py:40-88 | what a message costs in each model family, with and without a name |
| HistoryWindow.AddHistory | examples/flows/standard/autonomous-agent/autogpt_class.py:46-61 | the header and a chronological suffix of the history, the longest within the estimate |
| HistoryWindow.ChatContext | examples/flows/standard/autonomous-agent/autogpt_class.py:34-66 | header, suffix, trigger; their tokens, the 500 for memory and the tokens left fall short of the limit by exactly three for every message counted on its own |
| HistoryWindow.Chat | examples/flows/standard/autonomous-agent/autogpt_class.py:31-66 | the context starts with the three header messages and ends with the trigger, and the whole never exceeds the token limit |
| DocstringWorklist.DivideAll | examples/flows/standard/gen-docstring/generate_docstring_tool.py:46-60 | the loop over the stack ends and computes the recursive division of the parts, in order |
| DocstringWorklist.DivisionConserves | examples/flows/standard/gen-docstring/generate_docstring_tool.py:46-60 | whatever validation answers, the pieces put together are the input put together |
| DocstringWorklist.AllPiecesFit | examples/flows/standard/gen-docstring/generate_docstring_tool.py:48-60 | every piece was accepted, failed for another reason, or has at most one character |
| DocstringWorklist.StaysWholeIff | examples/flows/standard/gen-docstring/generate_docstring_tool.py:50-57 | a text is divided if and only if it is too long and has two characters |
| DocstringWorklist.DivisionIsLighter | examples/flows/standard/gen-docstring/generate_docstring_tool.py:52-55 | dividing lowers the weight of the stack, even into single characters |
| DocstringWorklist.HalvesAreSmaller | examples/flows/standard/gen-docstring/divider.py:47-55 | both halves are non-empty, together they are the text, and half of the definitions, rounded down, begin in the first |
| DocstringWorklist.MergeDoc2Code | examples/flows/standard/gen-docstring/divider.py:74-103 | the loop computes the text before the first definition followed by every definition, documented or not |
| DocstringWorklist.MergeDefinition | examples/flows/standard/gen-docstring/divider.py:81-102 | one definition: kept, its first docstring replaced, or a docstring inserted behind the header |
| DocstringWorklist.NewDocMeans | examples/flows/standard/gen-docstring/divider.py:83-88 | a definition gets the first docstring in the body of the first definition of the answer with its signature |
| DocstringWorklist.NothingNewKeepsCode | examples/flows/standard/gen-docstring/divider.py:83-102 | without a docstring for any of its definitions the code comes back unchanged |
| DocstringWorklist.OnlyTheDocstringChanges | examples/flows/standard/gen-docstring/divider.py:89-100 | a documented definition differs from the original in one place only: an insertion behind the header if it had no docstring, else the first place where the text of its docstring occurs, which lies behind the header if and only if that text does not begin in the header |
| DocstringWorklist.AdditionAppears | examples/flows/standard/gen-docstring/divider.py:81-103 | a docstring that the answer has for a definition of the code stands in the merged text |
| DocstringWorklist.DefaultValueChanges | examples/flows/standard/gen-docstring/divider.py:89-100 | a default value spelled like the docstring is replaced in its stead |
| DocstringWorklist.IndexOf | examples/flows/standard/gen-docstring/divider.py:84 | the first definition with the signature, if there is one |
| DocstringWorklist.AGenerateDocstring | examples/flows/standard/gen-docstring/generate_docstring_tool.py:31-76 | one result for every piece of the division, in order: if the piece has a definition and got a text as answer, that text merged into it, with every docstring it has for the piece; otherwise the piece |
| DocstringWorklist.UnhelpfulRunKeepsText | examples/flows/standard/gen-docstring/generate_docstring_tool.py:31-76 | divided, answered without docstrings and combined again, the text is the same |
| TextChunks.SplitText | examples/flows/chat/chat-with-pdf/chat_with_pdf/build_index.py:50-64 | fails exactly if size and overlap are equal; otherwise the full chunks and the rest |
| TextChunks.ChunksWellCut | examples/flows/chat/chat-with-pdf/chat_with_pdf/build_index.py:50-64 | all chunks but the last have the full size, the last at least the overlap and less than the size, neighbours share exactly the overlap, and leaving the overlaps out rebuilds the text |
| TextChunks.ShortTextIff | examples/flows/chat/chat-with-pdf/chat_with_pdf/build_index.py:61-62 | a text shorter than the overlap is kept whole if and only if the start of its only chunk does not fall inside it |
| TextChunks.ShortTextLost | examples/flows/chat/chat-with-pdf/chat_with_pdf/build_index.py:61-62 | ten characters with an overlap of eleven and a size of twelve: only the last is left |

## Left out

- Tools, regular expressions, tokenizers, the walk along a property path (`parse_node_property`), Python's `==` on values and the conversion of flow inputs are parameters: any deterministic function.
- Values are null, truth values, integers, texts, lists and dictionaries; floats, and dictionary keys that Python takes for equal though they differ (`1`, `1.0` and `True`), are not modelled.
- `FlowNodesScheduler.execute` cancels and awaits the other futures before it raises, and logs; only the outcome is modelled. Pool threads take queued futures in any order, which allows the first-in-first-out order of the real pool.
- FlowNodesScheduler.FlowNodesScheduler.Execute: asks for nodes that can be ordered, because otherwise the loop does not end; what happens then is stated for the state machine by `SchedulerTheorems.WithoutOrder`.
- FlowNodesScheduler.FlowNodesScheduler.Wait: its body picks one future; callers rely only on its contract, which allows any look-ups by the pool threads, and the theorems about all interleavings are those of `SchedulerTheorems`.
- FlowValidator.EnsureNodesOrder: answers with the order of the nodes only; the reordered flow loses its `node_variants`, which are not modelled.
- InputsMapping.ApplyInputsMapping: the type error for a reference into the line number is raised for every line number, though a line number that is a text would be searched instead.
- InputsMapping.ApplyInputsMapping: mapping values that are not texts are literal values of the model's kinds.
- ReferenceText.LiteralRoundTrip: connections, which `serialize` writes in a form of their own, are not values of the model.
- BatchOrder.RowByRowIff: line numbers are values of any kind, compared by their rank in an integer order; numbers that Python cannot hash or cannot compare with one another raise an error, which is not modelled.
- Aggregation.MappedBatchIsGood: supposes that integers are ranked by size, as Python ranks them.
- ProcessPool.FairRunReturns: fairness stands for the clock: as long as a worker is left, some worker gets on sooner or later, if only by its timeout.
- ProcessPool.ExactlyOnce: at least one worker, that is, a batch that is not empty: the number of workers is at most the number of rows, and for an empty batch the thread pool refuses to be created without threads. The same goes for `ProcessPool.FairRunReturns` and `Aggregation.BulkRunAligned`, which with an empty batch and a worker describe no run of the program.
- ProcessPool.ExactlyOnce: queues are first-in-first-out and tell reliably whether they are empty; clocks are replaced by a timeout that may happen at any moment while a worker waits. Starting a process always succeeds.
- Aggregation.BulkRunAligned: flow inputs are always validated, as bulk runs do by default, and the answer of a line is a function of its row.
- Aggregation.AggregationInputReceives: for references that survive being written and read again; for the others see `Aggregation.ReservedReferenceFails`.
- Generators, streaming outputs, run-info timestamps, log contents, the texts of exceptions and the presentation of errors.
- Tracer.Tracer.Push: inputs, start times and the conversion of recorded values to serializable ones; whether a trace is closed stands for its end time.
- RunTracker.RunTracker.EndNodeRun: usage numbers are integers, and the duration is a number that no metric is named after.
- HistoryWindow.CountMessageTokens: for the two model families that the counter knows; it raises an error for any other name.
- HistoryWindow.ChatContext: the rendering of the context as one prompt text and the call of the model; the time message and the encoder are parameters.
- ColumnWidths.CalculateColumnWidths: columns have distinct names, and the lengths of headers and cells stand for their texts.
- DocstringWorklist.OnlyTheDocstringChanges: the signature normalization and the indentation of docstrings are parameters.
- DocstringWorklist.AGenerateDocstring: validation and the model's answers are functions of the piece; asynchronous order is not modelled, as answers are gathered by position.
- `Divider.divide_file`, which drops newlines and fails on text without a top-level definition: it promises no round trip.
- TextChunks.ChunksWellCut: for an overlap from 0 up to below the size; `TextChunks.SplitText` itself covers every size and overlap.
- The cache manager (only its dummy is in use), retry decorators, connection resolution, variant replacement, YAML loading, storage and the command line: plumbing or easy members.
