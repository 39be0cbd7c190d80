# prompt-flow: flow graph, validation, scheduling and layout

prompt-flow runs *flows*. A flow is a named, versioned list of nodes. Each
node (usually an `llm` node with a prompt template) declares named inputs
and outputs. An input's `from` is either `"input"` (a value the user
supplies when running the flow) or a reference `"<node id>.<output name>"`
to another node's output. An output whose `to` is `"output"` becomes one of
the flow's results.

This project models the logic that works on that graph and proves
properties of it:

- **FlowModel** (`flow.dfy`): the flow data model, and how each side of
  the system resolves a binding to its producer node. The web views use
  JavaScript `split('.')` and need exactly two parts. The Go code uses
  `strings.SplitN(from, ".", 2)`, so the output name is everything after
  the first dot. The module also holds the per-node dependency
  (adjacency) list that both the layout and the cycle check build, and
  the graph predicates (ranked, path, cycle).
- **Layout** (`layout.dfy`): the diagram builder of the web canvas.
  `calculateNodePositions` gives each node a level (0 with no
  dependencies, otherwise one more than its deepest dependency), memoised
  in a map. Each node is placed at x = level·300+50 and
  y = index·120+50. `buildGraphNodes` emits one diagram node per flow
  node and one edge per resolved binding. The server's `app.js` carries
  the same algorithm and is modelled by the same members.
- **Validator** (`validator.go`): the ordered structural checks of
  `Validate`, `validateNode` and `validateReferences`, and the
  depth-first cycle search of `checkCycles`. The search is modelled as a
  class over its visited and on-stack sets.
- **Executor** (`executor.go`):
  - Kahn's topological sort.
  - The input resolution of `executeNode`.
  - The LLM node, with the template engine and the provider call as
    abstract functions.
  - The loop of `Execute`, which stops at the first failing node.
  - The collection of the flow outputs.
- **Providers** (`provider.go`): the provider registry, a name → provider
  table kept in a class with a map field.
- **Cli** (`test_cmd.go`): `pfctl test`. It parses the `-i key=value`
  arguments, runs the flow and sums the total tokens that
  `printExecutionResult` reports.
- **Strings** and **Wrappers** (`strings.dfy`): the string splitting both
  languages use, and the `Option`/`Result` types.

Go map iteration order is left open wherever the source depends on it.
The code uses it in three places: the cycle search's roots, the sort's
initial queue and `Registry.List`. The same holds for JavaScript's
`Object.entries` order in the layout. Each of these is a
nondeterministic choice in the model, so every property is proved for
every order.

The model follows the code as written:

- A binding resolves in the layout when `split('.')` gives exactly two
  parts, even when one part is empty (`"a."` names producer `a`).
- The layout has no cycle detection. On a cyclic graph, or on a reference
  to a missing node, its recursion fails. The model makes "acyclic and
  every producer exists" a precondition, witnessed by a ranking.
- Edge ids are not checked for uniqueness.
- The code computes no node sizes and no start or end nodes, so the model
  has none.

## Model

| member | source | states |
|---|---|---|
| Strings.Split | web/src/components/FlowCanvas.tsx:39 | `split` on a one-character separator yields one more piece than there are separators, and no piece contains the separator |
| Strings.JoinSplit | web/src/components/FlowCanvas.tsx:39 | joining the pieces of `split` with the separator gives back the string |
| Strings.SplitN2 | pkg/flow/validator.go:143 | `SplitN(s, sep, 2)` gives two pieces exactly when `sep` occurs: the text before the first separator and the rest, which rebuild `s`; otherwise the one piece `s` |
| Strings.PrefixBeforeSplitN2 | pkg/flow/validator.go:151 | the first piece of `SplitN` is the text before the first separator |
| Strings.SuffixAfterSplitN2 | pkg/flow/validator.go:151 | the second piece of `SplitN` is the text after the first separator |
| Strings.SplitTwoAgrees | pkg/executor/executor.go:261-262 | whenever JavaScript's `split` gives exactly two pieces, Go's `SplitN` with limit 2 gives the same two |
| Strings.SplitsDisagreeOnTwoDots | pkg/flow/validator.go:143 | `"a.b.c"` is three pieces for `split` but `["a", "b.c"]` for `SplitN` |
| Strings.NatToString | pkg/flow/validator.go:37 | `%d` of a non-negative index is a non-empty string of decimal digits |
| FlowModel.ReferenceSplits | pkg/flow/validator.go:143-151 | a reference is read as (node id, output name) exactly when `SplitN` gives two parts, and then those are the parts |
| FlowModel.ProducerSplits | web/src/components/FlowCanvas.tsx:38-42 | the JavaScript resolver names a producer exactly when `from` is not `"input"` and `split` gives two parts, and then it is the first part; the Go resolver does the same with `SplitN` |
| FlowModel.JsProducerIsGoProducer | web/src/components/FlowCanvas.tsx:38-42 | whenever the web view records a dependency for a binding, the Go code records one on the same producer |
| FlowModel.ThreePartBindingGoOnly | pkg/flow/validator.go:180-184 | `"a.b.c"` is no dependency for the web view and a dependency on `a` for the Go code |
| FlowModel.DepOf | web/src/components/FlowCanvas.tsx:37-43 | one binding contributes at most one producer |
| FlowModel.DepsOfFirst | web/src/components/FlowCanvas.tsx:37-43 | the first n bindings contribute at most n producers |
| FlowModel.Deps | web/src/components/FlowCanvas.tsx:37-43 | a node has at most one dependency per binding |
| FlowModel.DepsInclude | web/src/components/FlowCanvas.tsx:38-42 | each resolved binding's producer is among the node's dependencies |
| FlowModel.DepsSource | web/src/components/FlowCanvas.tsx:38-42 | each dependency comes from some resolved binding |
| FlowModel.DepsMembers | web/src/components/FlowCanvas.tsx:37-43 | a node depends on d exactly when one of its bindings resolves to d |
| FlowModel.NodeIds | pkg/flow/validator.go:33-48 | every node's id is among the flow's ids |
| FlowModel.IdsOfFirstMembers | pkg/flow/validator.go:33-48 | the ids of the first n nodes are exactly those nodes' ids |
| FlowModel.IdsCount | pkg/flow/validator.go:33-48 | n nodes have at most n ids, and exactly n when no id repeats |
| FlowModel.EntriesKeys | web/src/components/FlowCanvas.tsx:35-36 | the per-id table has an entry for exactly the ids of the nodes written |
| FlowModel.EntriesLast | web/src/components/FlowCanvas.tsx:35-36 | a repeated id keeps the entry of the last node with that id |
| FlowModel.Adjacency | web/src/components/FlowCanvas.tsx:35-45 | the adjacency list has an entry for exactly the node ids |
| FlowModel.AdjacencyEntry | web/src/components/FlowCanvas.tsx:35-45 | an id's entry lists the dependencies of the last node with that id, in binding order |
| FlowModel.AdjacencyOfUnique | web/src/components/FlowCanvas.tsx:35-45 | with unique ids, each node's entry is its own dependencies |
| FlowModel.PushProducers | web/src/components/FlowCanvas.tsx:37-44 | the inner loop appends the producer of every resolved binding, in order, to the node's entry |
| FlowModel.BuildAdjacency | web/src/components/FlowCanvas.tsx:35-45 | the adjacency loop (also validator.go:176-187 with `SplitN`) builds the adjacency list |
| FlowModel.PathRankDecreases | pkg/flow/validator.go:193-210 | along a dependency path of a ranked graph the rank strictly falls |
| FlowModel.RankedHasNoCycle | pkg/flow/validator.go:174-224 | a graph with a ranking has no cycle |
| Layout.MaxDepLevel | web/src/components/FlowCanvas.tsx:57-60 | the running maximum of the dependencies' levels is -1 exactly when none has been seen |
| Layout.MaxDepLevelBounds | web/src/components/FlowCanvas.tsx:57-60 | the running maximum bounds every dependency seen so far, and some dependency attains it |
| Layout.LevelAboveDeps | web/src/components/FlowCanvas.tsx:57-62 | every dependency of a node sits on a strictly lower level |
| Layout.LevelTight | web/src/components/FlowCanvas.tsx:52-62 | a level is 0 exactly when the node has no dependencies; otherwise it is one more than the level of one of its dependencies |
| Layout.LevelRankIndependent | web/src/components/FlowCanvas.tsx:48-64 | levels do not depend on which ranking witnesses acyclicity |
| Layout.GetLevel | web/src/components/FlowCanvas.tsx:48-64 | `getLevel` returns the node's level and memoises it; every memo entry stays and stays correct, and the entries it adds have rank at most the node's |
| Layout.MaxDepLevels | web/src/components/FlowCanvas.tsx:57-60 | the dependency loop returns the largest dependency level (-1 for none) and memoises only nodes of lower rank |
| Layout.AssignLevels | web/src/components/FlowCanvas.tsx:66 | after the loop every node id has its correct level and nothing else is memoised |
| Layout.KeysOf | web/src/components/FlowCanvas.tsx:70 | `Object.entries` lists every memo key exactly once |
| Layout.AtLevelOfFirst | web/src/components/FlowCanvas.tsx:69-73 | a level's list holds only ids with that level |
| Layout.AtLevelMembers | web/src/components/FlowCanvas.tsx:69-73 | an id is in a level's list exactly when it was enumerated and has that level |
| Layout.AtLevelDistinct | web/src/components/FlowCanvas.tsx:69-73 | a level's list has no repeated id |
| Layout.ArrangeByLevel | web/src/components/FlowCanvas.tsx:69-73 | `nodesByLevel` has a list for exactly the occupied levels, holding that level's ids in enumeration order |
| Layout.AtLevelPrefix | web/src/components/FlowCanvas.tsx:69-73 | pushing more ids only extends each level's list |
| Layout.AtLevelIndex | web/src/components/FlowCanvas.tsx:72 | an id's index in its level's list is the number of ids of that level enumerated before it |
| Layout.SlotInjective | web/src/components/FlowCanvas.tsx:81-84 | different (level, index) pairs give different points |
| Layout.PlaceLevel | web/src/components/FlowCanvas.tsx:80-85 | the index-th id of a level gets point (level·300+50, index·120+50); other positions stay |
| Layout.PlacePositions | web/src/components/FlowCanvas.tsx:79-86 | every id of every level gets its slot, and nothing else is placed, whatever order the levels are visited in |
| Layout.GroupedDisjoint | web/src/components/FlowCanvas.tsx:69-73 | level lists have no repeats and no id is in two of them |
| Layout.PlacedKeys | web/src/components/FlowCanvas.tsx:79-86 | exactly the enumerated ids are placed |
| Layout.PlacedSlots | web/src/components/FlowCanvas.tsx:79-86 | each id is placed in its level's column, at its index within its level |
| Layout.IndexGrows | web/src/components/FlowCanvas.tsx:72 | a later id of the same level gets a higher index |
| Layout.PlacedApart | web/src/components/FlowCanvas.tsx:79-86 | no two ids share a point |
| Layout.PositionsFromLevels | web/src/components/FlowCanvas.tsx:68-88 | each memoised id gets the slot of its level and its index in enumeration order, and no two ids share a point |
| Layout.CalculateNodePositions | web/src/components/FlowCanvas.tsx:29-89 | on an acyclic graph whose producers are all nodes, every node id gets a point whose column is its level, and no two nodes share a point |
| Layout.InputEdgesMembers | web/src/components/FlowCanvas.tsx:114-127 | a node's edges are exactly one per resolved binding, with id `producer-node-name`, that source, the node as target and the binding name as label |
| Layout.EdgesMembers | web/src/components/FlowCanvas.tsx:97-128 | an edge is in the diagram exactly when it is drawn for a resolved binding of some node |
| Layout.EdgesFromInputs | web/src/components/FlowCanvas.tsx:114-127 | the inner loop emits a node's edges in binding order |
| Layout.AssembleDiagram | web/src/components/FlowCanvas.tsx:96-128 | one diagram node per flow node, in flow order, at its computed position, then all the edges |
| Layout.BuildGraphNodes | web/src/components/FlowCanvas.tsx:91-131 | one `default` diagram node per flow node, in order, carrying its id and the flow node (what the click handler at 143-148 returns), placed at the point `calculateNodePositions` gave its id: x from its level, y from the number of same-level ids enumerated before it; nodes with different ids never overlap; one edge per resolved binding |
| Layout.DiagramFacts | web/src/components/FlowCanvas.tsx:97-111 | per node: the diagram node's id, kind, data and column, and that clicking it returns the flow node |
| Layout.PositionFacts | web/src/components/FlowCanvas.tsx:79-86 | per id: the column is level·300+50, and different ids get different points |
| Layout.EdgesPointRight | web/src/components/FlowCanvas.tsx:114-124 | with unique ids every edge runs from a lower level to a higher one, so the diagram reads left to right |
| Validator.OutputNamesMembers | pkg/flow/validator.go:79-93 | the set of seen output names is exactly the names of the outputs checked so far |
| Validator.InputNamesMembers | pkg/flow/validator.go:97-117 | the set of seen input names is exactly the names of the inputs checked so far |
| Validator.OutputsErrorNone | pkg/flow/validator.go:79-94 | the outputs pass exactly when every name is non-empty and no name repeats |
| Validator.InputsErrorNone | pkg/flow/validator.go:97-118 | the inputs pass exactly when every name and every `from` is non-empty and no name repeats |
| Validator.NodeErrorNone | pkg/flow/validator.go:69-121 | `validateNode` accepts exactly the nodes with a type, a prompt if they are `llm`, and valid outputs and inputs |
| Validator.OutputsErrorSticks | pkg/flow/validator.go:81-92 | the first bad output's error is the result, whatever follows |
| Validator.InputsErrorSticks | pkg/flow/validator.go:99-116 | the first bad input's error is the result, whatever follows |
| Validator.CheckOutputs | pkg/flow/validator.go:79-94 | the outputs loop returns the first complaint in order: `outputs[i].name` empty or duplicate |
| Validator.CheckInputs | pkg/flow/validator.go:97-118 | the inputs loop returns the first complaint, in the order name, `from`, duplicate |
| Validator.ValidateNode | pkg/flow/validator.go:69-121 | `validateNode` checks type, then prompt, then outputs, then inputs, and returns the first complaint |
| Validator.AvailableLookup | pkg/flow/validator.go:125-132 | an id is available exactly when a node carries it, and then it offers the outputs of the last such node |
| Validator.AvailableOfLast | pkg/flow/validator.go:127-131 | the last node with an id supplies that id's available outputs |
| Validator.AvailableOutputs | pkg/flow/validator.go:125-132 | the loop builds the available-outputs table |
| Validator.BindingsErrorSticks | pkg/flow/validator.go:136-168 | the first bad binding of a node decides the result |
| Validator.ReferencesSticks | pkg/flow/validator.go:135-169 | the first bad binding of the flow decides the result |
| Validator.BindingErrorNone | pkg/flow/validator.go:137-167 | a binding passes exactly when it is `"input"`, or it reads `<id>.<output>` where the last node with that id declares that output |
| Validator.BindingsErrorNone | pkg/flow/validator.go:136-168 | a node's bindings pass exactly when each passes |
| Validator.ReferencesOfFirstNone | pkg/flow/validator.go:135-169 | the first n nodes pass exactly when each of their bindings passes |
| Validator.ReferencesErrorNone | pkg/flow/validator.go:123-172 | `validateReferences` accepts exactly the node lists whose every binding resolves |
| Validator.CheckBinding | pkg/flow/validator.go:137-167 | one binding's checks return the first complaint: bad format, missing node, or missing output |
| Validator.ValidateReferences | pkg/flow/validator.go:123-172 | `validateReferences` returns the first complaint over all bindings, in node and binding order |
| Validator.SuccInUniverse | pkg/flow/validator.go:198 | every dependency the search follows is inside the finite set it can reach |
| Validator.EnterKeeps | pkg/flow/validator.go:195-196 | marking a node visited and on the stack keeps the search invariant |
| Validator.LeaveKeeps | pkg/flow/validator.go:208 | taking a finished node off the stack keeps the search invariant |
| Validator.CycleOnPath | pkg/flow/validator.go:203-204 | a dependency on a node still on the stack closes a cycle |
| Validator.RemainderShrinks | pkg/flow/validator.go:199-200 | visiting a new node leaves fewer unvisited nodes, so the recursion ends |
| Validator.CycleSearch.constructor | pkg/flow/validator.go:190-191 | the search over a producer graph starts with nothing visited, nothing on the stack and an empty path |
| Validator.CycleSearch.Visit | pkg/flow/validator.go:193-210 | `hasCycle(id)` returns true only with a cycle as witness; false leaves id visited, off the stack, and finished after all its dependencies |
| Validator.CycleSearch.Enter | pkg/flow/validator.go:195-196 | id becomes visited and on the stack, and the search path grows by id |
| Validator.CycleSearch.Leave | pkg/flow/validator.go:208 | id leaves the stack and the path, and is recorded as finished |
| Validator.CycleSearch.VisitDependencies | pkg/flow/validator.go:198-206 | the dependency loop finds a cycle or leaves every dependency finished |
| Validator.CycleSearch.VisitDependency | pkg/flow/validator.go:199-205 | one dependency: search it if unvisited, report a cycle if it is on the stack |
| Validator.CheckCycles | pkg/flow/validator.go:174-224 | `checkCycles` returns an error exactly when the producer graph has a cycle (a self-reference included), naming a node; without one, the finishing order ranks the graph |
| Validator.NodesErrorSticks | pkg/flow/validator.go:34-54 | the first offending node decides the result |
| Validator.NodesErrorNone | pkg/flow/validator.go:33-54 | the id loop passes exactly when every id is non-empty and unique and every node passes `validateNode` |
| Validator.ValidFlowChecks | pkg/flow/validator.go:19-67 | `Validate` accepts exactly the flows with a name, a version, nodes, unique non-empty ids, valid nodes, no cycle and resolving bindings |
| Validator.CheckNodes | pkg/flow/validator.go:33-54 | the id loop returns the first `nodes[i].id` error or the first node error, wrapped as `node <id>: ...` |
| Validator.Validate | pkg/flow/validator.go:19-67 | the first failing check's error in the fixed order name, version, nodes, ids and nodes, cycles, references; nil exactly for a valid flow, which then has a ranking |
| Providers.WithDefaults | pkg/providers/provider.go:50-55 | the three built-in names map to their providers; every other entry stays |
| Providers.DefaultsIdempotent | pkg/providers/provider.go:50-55 | registering the defaults twice gives the same table as once |
| Providers.Registry.constructor | pkg/providers/provider.go:40-44 | a new registry is empty |
| Providers.Registry.Register | pkg/providers/provider.go:58-60 | the provider is stored under its name, replacing any earlier one; every other entry is unchanged |
| Providers.Registry.Get | pkg/providers/provider.go:63-66 | returns the provider registered under the name, or none when the name is unknown |
| Providers.Registry.List | pkg/providers/provider.go:69-75 | every registered name exactly once, so as many names as entries, in an open order |
| Providers.Registry.WithDefaultProviders | pkg/providers/provider.go:50-55 | registers `openai`, `anthropic` and `github_playground_openai` in turn and returns the same registry |
| Executor.NodeEdgesPair | pkg/executor/executor.go:259-269 | a node's edges pair each of its `SplitN` dependencies with the node, one per resolved binding |
| Executor.EdgeSource | pkg/executor/executor.go:258-270 | every edge runs from a binding's producer into that binding's node |
| Executor.EdgeOfDep | pkg/executor/executor.go:258-270 | every dependency of a node gives an edge into it |
| Executor.PendingStep | pkg/executor/executor.go:287-288 | emitting x lowers a node's remaining in-degree by the number of edges x → node |
| Executor.PendingZero | pkg/executor/executor.go:289 | a remaining in-degree is 0 exactly when every producer of an edge into the node has been emitted |
| Executor.NodeMapEntries | pkg/executor/executor.go:250-255 | `nodeMap` holds exactly the ids, each mapped to the last node carrying it |
| Executor.InitTables | pkg/executor/executor.go:250-255 | every id is mapped to its node, to no targets and to in-degree 0 |
| Executor.TablesOfEdges | pkg/executor/executor.go:258-270 | the appends and increments give `adjList[x]` = the targets of x's edges and `inDegree[n]` = the number of edges into n |
| Executor.AddBindingEdge | pkg/executor/executor.go:260-268 | one binding adds its edge (if it resolves) to both tables |
| Executor.AddNodeEdges | pkg/executor/executor.go:259-269 | one node adds the edges of all its bindings |
| Executor.SortTables | pkg/executor/executor.go:245-270 | the built tables describe exactly the sort's edges |
| Executor.BuildTables | pkg/executor/executor.go:245-270 | the three tables of `topologicalSort` are built as stated |
| Executor.DecrementStep | pkg/executor/executor.go:287-291 | one target: its in-degree drops by one and it joins the queue exactly when that makes it 0 |
| Executor.DecrementFinish | pkg/executor/executor.go:287-291 | after all targets, in-degrees count only edges from nodes not yet emitted, and the queued ones are the targets that reached 0 |
| Executor.DecrementTargets | pkg/executor/executor.go:287-291 | the inner loop updates the in-degrees and appends each target that reaches 0, once |
| Executor.InitialQueue | pkg/executor/executor.go:273-278 | the initial queue is the ids of in-degree 0, each once, in an open order |
| Executor.KahnStart | pkg/executor/executor.go:273-280 | the loop invariant holds initially |
| Executor.KahnStep | pkg/executor/executor.go:281-292 | one round keeps the invariant: the queue is exactly the unemitted ids with no pending edges, and every emitted id comes after its producers |
| Executor.EmitNext | pkg/executor/executor.go:281-292 | one round dequeues the head, emits its node, and updates its targets |
| Executor.KahnLoop | pkg/executor/executor.go:280-293 | the loop ends with an empty queue, each emitted id after all its producers |
| Executor.NodeMapOfUnique | pkg/executor/executor.go:252 | with unique ids `nodeMap` holds each node under its id |
| Executor.EmittedAllRanks | pkg/executor/executor.go:295-299 | if every id was emitted, the emission order ranks the graph and every producer is a node |
| Executor.EmittedNodes | pkg/executor/executor.go:285 | the emitted nodes are nodes of the flow with the emitted ids, each id once |
| Executor.EmittedAllCovers | pkg/executor/executor.go:295-299 | with unique ids, emitting every id emits every node |
| Executor.EmittedAfterProducers | pkg/executor/executor.go:285-292 | each emitted node comes after the producers of its bindings |
| Executor.EmittedAllOrders | pkg/executor/executor.go:295-299 | a full emission is an execution order |
| Executor.EmittedAllMeansSchedulable | pkg/executor/executor.go:295-299 | if as many nodes were emitted as there are nodes, the ids are unique, every producer exists, the graph is acyclic, and the result is an execution order |
| Executor.Drained | pkg/executor/executor.go:281 | on a schedulable flow, an empty queue means every id was emitted |
| Executor.SchedulableEmitsAll | pkg/executor/executor.go:295 | on a schedulable flow the sort emits every node |
| Executor.ResolvedProducer | pkg/flow/validator.go:154-159 | a binding that passes validation names an existing node |
| Executor.ValidFlowSchedulable | pkg/executor/executor.go:48-54 | every flow `Validate` accepts is schedulable, so the sort after validation cannot fail |
| Executor.TopologicalSort | pkg/executor/executor.go:243-300 | the sort succeeds exactly when ids are unique, every producer is a node and there is no cycle (so an unknown producer also gives "cycle detected"); then each node appears once, after its producers |
| Executor.InputErrorText | pkg/executor/executor.go:115 | every input-resolution message is non-empty |
| Executor.InputDataSucceeds | pkg/executor/executor.go:109-151 | the input data is built exactly when every binding resolves |
| Executor.InputDataKeys | pkg/executor/executor.go:109-151 | the input data has a key for each binding's name and no other |
| Executor.InputDataValue | pkg/executor/executor.go:113 | a name holds the value of the last binding with that name: the flow input, or the producer's stored output |
| Executor.InputDataFails | pkg/executor/executor.go:109-150 | a failure is that of the first unresolved binding: flow input not provided, invalid reference, output not found, or node outputs not found |
| Executor.InputDataSticks | pkg/executor/executor.go:115-148 | the first failing binding ends resolution |
| Executor.ResolveBinding | pkg/executor/executor.go:110-150 | one binding's value or problem, as the branches check it |
| Executor.ResolveInputs | pkg/executor/executor.go:108-151 | the input loop returns the input data, or the first binding's problem |
| Executor.LLMOutputs | pkg/executor/executor.go:226-231 | the outputs hold the response under the first declared output name, and nothing when none is declared |
| Executor.ExecuteLLMNode | pkg/executor/executor.go:171-241 | render, then provider (own, else default; unset or unregistered fails), then model, then the call; outputs and metrics come from the response |
| Executor.OwnChoiceIgnoresDefaults | pkg/executor/executor.go:191-208 | a node that names its provider and model ignores the flow's defaults |
| Executor.LLMNodeOutputs | pkg/executor/executor.go:226-231 | a successful LLM node's outputs are exactly the response under `Outputs[0].Name` |
| Executor.LLMNodeFailureReported | pkg/executor/executor.go:178-222 | every way an LLM node fails carries a non-empty message |
| Executor.NodeOutcomeShape | pkg/executor/executor.go:91-169 | a node result carries the node's id; it succeeds exactly when its error is empty; a failure has no outputs; a success has the response under the first output name |
| Executor.ExecuteNode | pkg/executor/executor.go:91-169 | `executeNode` resolves the inputs, then runs the node as an LLM node |
| Executor.NodeStepShaped | pkg/executor/executor.go:91-169 | `executeNode` reports results and stores outputs the way the run lemmas assume |
| Executor.RunSticks | pkg/executor/executor.go:64-69 | once a node fails, later nodes change nothing |
| Executor.RunLength | pkg/executor/executor.go:60-73 | one result per node run; every node when none fails |
| Executor.RunResult | pkg/executor/executor.go:61-62 | the i-th result is node i's outcome against the outputs stored before it |
| Executor.RunSuccess | pkg/executor/executor.go:60-73 | every recorded node succeeded except the last when the run failed |
| Executor.RunFailure | pkg/executor/executor.go:64-68 | a failed run ends with the failing node's result, and its non-empty error is the run's |
| Executor.RunStoredIds | pkg/executor/executor.go:72 | after a run without failure, outputs are stored for exactly the ids run |
| Executor.RunStoredOutputs | pkg/executor/executor.go:72 | an id holds the outputs of the last node run with that id |
| Executor.StoredProducer | pkg/executor/executor.go:72 | a node run before has its outputs stored; a missing name is not its first declared output |
| Executor.BindingResolves | pkg/flow/validator.go:137-167 | every binding of a node of a valid flow resolves |
| Executor.ReferenceDeclared | pkg/flow/validator.go:162 | with unique ids, the referenced node declares the output read |
| Executor.ProducerBefore | pkg/executor/executor.go:60 | in an execution order a binding's producer comes before its node |
| Executor.ProducerScheduledBefore | pkg/executor/executor.go:123-134 | in a valid flow, a non-input binding reads a node scheduled earlier that declares the output |
| Executor.ScheduledInputResolves | pkg/executor/executor.go:109-150 | in a valid flow run in order, an input fails only as a missing flow input, or as an output its producer declares but does not store because it is not the first |
| Executor.RunNodes | pkg/executor/executor.go:60-73 | the loop's results and stored outputs are those of the run over the execution order |
| Executor.CollectedSnoc | pkg/executor/executor.go:79 | one more flow output sets its name and keeps the others |
| Executor.CollectedKeys | pkg/executor/executor.go:76-82 | the flow outputs are named by exactly the outputs marked `output` |
| Executor.CollectedValue | pkg/executor/executor.go:79 | a name holds what the last such output read, nil when nothing was stored |
| Executor.FlowOutputsOfNodeMembers | pkg/executor/executor.go:77-81 | a node contributes its outputs marked `output`, in order |
| Executor.FlowOutputsMembers | pkg/executor/executor.go:76-82 | the flow outputs are the outputs marked `output` of all nodes |
| Executor.CollectOutputs | pkg/executor/executor.go:76-82 | the collection loop assigns each marked output its stored value, in node order, later ones overwriting |
| Executor.Execute | pkg/executor/executor.go:28-89 | an invalid flow fails with Validate's error (the precheck's, a cycle naming one of its node ids, or the first bad reference) and runs nothing; a valid flow runs in an execution order and ends as that run says |
| Executor.FinishSucceeds | pkg/executor/executor.go:60-88 | `Execute` reports an error exactly when some node failed; otherwise every node ran and succeeded |
| Executor.FinishFails | pkg/executor/executor.go:64-68 | on failure, the failing node's error is returned and wrapped as `node <id> failed: ...`, with no flow outputs |
| Executor.FinishOutputs | pkg/executor/executor.go:76-88 | on success, one output per marked name, each holding the last such output's stored value |
| Cli.ArgSplits | cmd/pfctl/test_cmd.go:37 | an argument with `=` is its key, `=` and its value; the key has no `=` |
| Cli.InputsSucceed | cmd/pfctl/test_cmd.go:36-46 | the arguments parse exactly when each has an `=` |
| Cli.InputsKeys | cmd/pfctl/test_cmd.go:35-46 | the parsed keys are exactly the arguments' keys, the empty key included |
| Cli.InputsLastWins | cmd/pfctl/test_cmd.go:41-45 | a repeated key keeps the later value |
| Cli.InputsFail | cmd/pfctl/test_cmd.go:38-40 | a failure names the first argument without `=` |
| Cli.InputsFailSticks | cmd/pfctl/test_cmd.go:38-40 | after a malformed argument, later ones change nothing |
| Cli.ParseInputs | cmd/pfctl/test_cmd.go:34-46 | the loop returns the parsed inputs or the first format error |
| Cli.TotalTokens | cmd/pfctl/test_cmd.go:83-103 | `totalTokens` is the sum of the input tokens of the results with a positive input count |
| Cli.TokensBounds | cmd/pfctl/test_cmd.go:95-102 | the total is never negative and at least each result's input tokens |
| Cli.TokensIgnoreOutputs | cmd/pfctl/test_cmd.go:101 | output tokens do not change the total |
| Cli.TokensAppend | cmd/pfctl/test_cmd.go:86-102 | the total over two lists of results is the sum of their totals |
| Cli.TokensPrefix | cmd/pfctl/test_cmd.go:86-102 | the total of the first n results depends on those results only |
| Cli.Run | cmd/pfctl/test_cmd.go:22-70 | a parse, validation or argument error returns before anything runs, a validation error as `validation failed: ` followed by Validate's error (precheck, cycle or reference); otherwise the flow runs with the parsed inputs and the three providers, and the token total is summed from its results |

## Left out

- Reading and parsing flow files (YAML or JSON) is not modelled. `Cli.Run` takes the parse result as a parameter.
- The HTTP server is not part of this model.
- The React state and the JSX labels are not part of this model. The label keeps the node id and type as data.
- Timestamps and durations are left out, as are the context timeout, costs (floating point) and all printing.
- The warning `pfctl test` prints for a repeated key is left out, and so are the per-node lines of `printExecutionResult`.
- The template engine and the provider's `Complete` call are abstract functions (`Services`). Their outcomes are parameters.
- Node `settings` are left out, because they are only passed on to the provider.
- The API keys read from the environment are left out. A provider is modelled by its name.
- Values are either text or Go's nil. The template, flow inputs and responses carry strings only.
- Every node runs as an LLM node, whatever its type, as executor.go:154 does.
- Executor.Execute: the "failed to build execution order" branch (executor.go:49-54) is proved unreachable, because every validated flow is schedulable. The model holds no result for it.
- Layout.GetLevel: on a cyclic graph, or on a reference to a missing node, the source's recursion fails. The model requires a ranking and a closed graph instead.
- Layout.CalculateNodePositions: JavaScript orders integer-like object keys first. The model leaves the key order open and proves the layout facts for every order.
- Layout.CalculateNodePositions: `levels`, `adjacencyList` and `positions` are plain objects, so a node id naming an inherited `Object.prototype` property (`constructor`, `toString`, `__proto__`, ...) reads an inherited value or changes the prototype instead of an own entry. The model treats every id as an ordinary key and so assumes such ids away; for them the source gives no level, a non-numeric position, and NaN levels for the nodes depending on them.
- Layout.NodeClicked: the click handler has no contract of its own. `BuildGraphNodes` states what it returns for each diagram node.
- `app.js` repeats the FlowCanvas algorithm. Its unused `visited` set is ignored.
- Validator.ValidateNode: the unused `existingIDs` parameter is not modelled.
- Go map iteration order is a nondeterministic choice: `checkCycles`' roots, the sort's initial queue and `List`.
