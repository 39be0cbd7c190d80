// Flow validation, pkg/flow/validator.go: the per-node checks, the
// reference check, the depth-first cycle check and the ordered top-level
// Validate that runs them.

module Validator {
  import opened Wrappers
  import opened Strings
  import opened FlowModel

  /** A validation error: the offending field and what is wrong with it. */
  datatype ValidationError = ValidationError(field: string, message: string)

  /** What Validate returns: a validation error, or one raised by a node's
      own checks wrapped with the node's id. */
  datatype Error = Invalid(cause: ValidationError) | InNode(id: string, cause: ValidationError)

  /** The text of a validation error: "field: message". */
  function ErrorText(e: ValidationError): string {
    e.field + ": " + e.message
  }

  /** The text of a Validate error; a node's error reads "node <id>: ...". */
  function Text(e: Error): string {
    match e
    case Invalid(v) => ErrorText(v)
    case InNode(id, v) => "node " + id + ": " + ErrorText(v)
  }

  /** `fmt.Sprintf("<list>[%d].<field>", i)`. */
  function Indexed(list: string, i: nat, field: string): string {
    list + "[" + NatToString(i) + "]." + field
  }

  const LlmType: string := "llm"

  // ----- validateNode -----

  /** The output names among the first n outputs. */
  function OutputNamesOfFirst(outs: seq<Output>, n: nat): set<string>
    requires n <= |outs|
  {
    if n == 0 then {} else OutputNamesOfFirst(outs, n - 1) + {outs[n - 1].name}
  }

  /** The first complaint about the first n outputs, in order: an empty
      name, or a name used before. */
  function OutputsError(outs: seq<Output>, n: nat): Option<ValidationError>
    requires n <= |outs|
  {
    if n == 0 then None
    else if OutputsError(outs, n - 1).Some? then OutputsError(outs, n - 1)
    else if outs[n - 1].name == "" then
      Some(ValidationError(Indexed("outputs", n - 1, "name"), "output name is required"))
    else if outs[n - 1].name in OutputNamesOfFirst(outs, n - 1) then
      Some(ValidationError(Indexed("outputs", n - 1, "name"), "duplicate output name: " + outs[n - 1].name))
    else None
  }

  /** The input names among the first n inputs. */
  function InputNamesOfFirst(ins: seq<Input>, n: nat): set<string>
    requires n <= |ins|
  {
    if n == 0 then {} else InputNamesOfFirst(ins, n - 1) + {ins[n - 1].name}
  }

  /** The first complaint about the first n inputs, in order: an empty
      name, an empty source, or a name used before. */
  function InputsError(ins: seq<Input>, n: nat): Option<ValidationError>
    requires n <= |ins|
  {
    if n == 0 then None
    else if InputsError(ins, n - 1).Some? then InputsError(ins, n - 1)
    else if ins[n - 1].name == "" then
      Some(ValidationError(Indexed("inputs", n - 1, "name"), "input name is required"))
    else if ins[n - 1].from == "" then
      Some(ValidationError(Indexed("inputs", n - 1, "from"), "input source is required"))
    else if ins[n - 1].name in InputNamesOfFirst(ins, n - 1) then
      Some(ValidationError(Indexed("inputs", n - 1, "name"), "duplicate input name: " + ins[n - 1].name))
    else None
  }

  /** The first complaint about a node: its type, an LLM node's prompt,
      then its outputs, then its inputs. */
  function NodeError(node: Node): Option<ValidationError> {
    if node.nodeType == "" then Some(ValidationError("type", "node type is required"))
    else if node.nodeType == LlmType && node.prompt == "" then
      Some(ValidationError("prompt", "prompt is required for LLM nodes"))
    else if OutputsError(node.outputs, |node.outputs|).Some? then OutputsError(node.outputs, |node.outputs|)
    else InputsError(node.inputs, |node.inputs|)
  }

  /** A node the validator accepts, stated directly. */
  predicate WellFormedNode(node: Node) {
    && node.nodeType != ""
    && (node.nodeType == LlmType ==> node.prompt != "")
    && (forall k :: 0 <= k < |node.outputs| ==> node.outputs[k].name != "")
    && (forall a, b :: 0 <= a < b < |node.outputs| ==> node.outputs[a].name != node.outputs[b].name)
    && (forall k :: 0 <= k < |node.inputs| ==> node.inputs[k].name != "" && node.inputs[k].from != "")
    && (forall a, b :: 0 <= a < b < |node.inputs| ==> node.inputs[a].name != node.inputs[b].name)
  }

  lemma {:induction false} OutputNamesMembers(outs: seq<Output>, n: nat, name: string)
    requires n <= |outs|
    ensures name in OutputNamesOfFirst(outs, n) <==> exists k :: 0 <= k < n && outs[k].name == name
  {
    if n > 0 {
      OutputNamesMembers(outs, n - 1, name);
    }
  }

  lemma {:induction false} InputNamesMembers(ins: seq<Input>, n: nat, name: string)
    requires n <= |ins|
    ensures name in InputNamesOfFirst(ins, n) <==> exists k :: 0 <= k < n && ins[k].name == name
  {
    if n > 0 {
      InputNamesMembers(ins, n - 1, name);
    }
  }

  /** The outputs pass exactly when every name is non-empty and no name
      repeats. */
  lemma {:induction false} OutputsErrorNone(outs: seq<Output>, n: nat)
    requires n <= |outs|
    ensures OutputsError(outs, n).None? <==>
      (forall k :: 0 <= k < n ==> outs[k].name != "") &&
      (forall a, b :: 0 <= a < b < n ==> outs[a].name != outs[b].name)
  {
    if n > 0 {
      OutputsErrorNone(outs, n - 1);
      OutputNamesMembers(outs, n - 1, outs[n - 1].name);
    }
  }

  /** The inputs pass exactly when every name and source is non-empty and
      no name repeats. */
  lemma {:induction false} InputsErrorNone(ins: seq<Input>, n: nat)
    requires n <= |ins|
    ensures InputsError(ins, n).None? <==>
      (forall k :: 0 <= k < n ==> ins[k].name != "" && ins[k].from != "") &&
      (forall a, b :: 0 <= a < b < n ==> ins[a].name != ins[b].name)
  {
    if n > 0 {
      InputsErrorNone(ins, n - 1);
      InputNamesMembers(ins, n - 1, ins[n - 1].name);
    }
  }

  /** validateNode accepts exactly the well-formed nodes. */
  lemma NodeErrorNone(node: Node)
    ensures NodeError(node).None? <==> WellFormedNode(node)
  {
    OutputsErrorNone(node.outputs, |node.outputs|);
    InputsErrorNone(node.inputs, |node.inputs|);
  }

  /** Once the first m outputs hold an error, it is the error of every
      longer prefix. */
  lemma {:induction false} OutputsErrorSticks(outs: seq<Output>, m: nat, n: nat)
    requires m <= n <= |outs| && OutputsError(outs, m).Some?
    ensures OutputsError(outs, n) == OutputsError(outs, m)
    decreases n - m
  {
    if m < n {
      OutputsErrorSticks(outs, m, n - 1);
    }
  }

  lemma {:induction false} InputsErrorSticks(ins: seq<Input>, m: nat, n: nat)
    requires m <= n <= |ins| && InputsError(ins, m).Some?
    ensures InputsError(ins, n) == InputsError(ins, m)
    decreases n - m
  {
    if m < n {
      InputsErrorSticks(ins, m, n - 1);
    }
  }

  /** The outputs loop of validateNode (validator.go:79-94). */
  method CheckOutputs(outs: seq<Output>) returns (err: Option<ValidationError>)
    ensures err == OutputsError(outs, |outs|)
  {
    var seen: set<string> := {};
    for i := 0 to |outs|
      invariant OutputsError(outs, i).None?
      invariant seen == OutputNamesOfFirst(outs, i)
    {
      var name := outs[i].name;
      if name == "" {
        err := Some(ValidationError(Indexed("outputs", i, "name"), "output name is required"));
        OutputsErrorSticks(outs, i + 1, |outs|);
        return;
      }
      if name in seen {
        err := Some(ValidationError(Indexed("outputs", i, "name"), "duplicate output name: " + name));
        OutputsErrorSticks(outs, i + 1, |outs|);
        return;
      }
      seen := seen + {name};
    }
    return None;
  }

  /** The inputs loop of validateNode (validator.go:97-118). */
  method CheckInputs(ins: seq<Input>) returns (err: Option<ValidationError>)
    ensures err == InputsError(ins, |ins|)
  {
    var seen: set<string> := {};
    for i := 0 to |ins|
      invariant InputsError(ins, i).None?
      invariant seen == InputNamesOfFirst(ins, i)
    {
      var input := ins[i];
      if input.name == "" {
        err := Some(ValidationError(Indexed("inputs", i, "name"), "input name is required"));
        InputsErrorSticks(ins, i + 1, |ins|);
        return;
      }
      if input.from == "" {
        err := Some(ValidationError(Indexed("inputs", i, "from"), "input source is required"));
        InputsErrorSticks(ins, i + 1, |ins|);
        return;
      }
      if input.name in seen {
        err := Some(ValidationError(Indexed("inputs", i, "name"), "duplicate input name: " + input.name));
        InputsErrorSticks(ins, i + 1, |ins|);
        return;
      }
      seen := seen + {input.name};
    }
    return None;
  }

  /** validateNode (validator.go:69-121). Its set of already seen node ids
      is passed in but never read, so it is not modelled. */
  method ValidateNode(node: Node) returns (err: Option<ValidationError>)
    ensures err == NodeError(node)
    ensures err.None? <==> WellFormedNode(node)
  {
    NodeErrorNone(node);
    if node.nodeType == "" {
      return Some(ValidationError("type", "node type is required"));
    }
    if node.nodeType == LlmType && node.prompt == "" {
      return Some(ValidationError("prompt", "prompt is required for LLM nodes"));
    }
    err := CheckOutputs(node.outputs);
    if err.Some? {
      return;
    }
    err := CheckInputs(node.inputs);
  }

  // ----- validateReferences -----

  /** The output names a node declares. */
  function OutputNames(node: Node): set<string> {
    OutputNamesOfFirst(node.outputs, |node.outputs|)
  }

  /** The available outputs after the first n nodes: each id mapped to the
      output names of the last node so far that carries it. */
  function AvailableOfFirst(nodes: seq<Node>, n: nat): map<string, set<string>>
    requires n <= |nodes|
  {
    if n == 0 then map[] else AvailableOfFirst(nodes, n - 1)[nodes[n - 1].id := OutputNames(nodes[n - 1])]
  }

  /** Node i is the last among the first n nodes that carries its id. */
  predicate LastWithId(nodes: seq<Node>, n: nat, i: nat)
    requires n <= |nodes|
  {
    i < n && forall k :: i < k < n ==> nodes[k].id != nodes[i].id
  }

  /** An id is available exactly when some node carries it, and then it
      offers the outputs of the last such node. */
  lemma {:induction false} AvailableLookup(nodes: seq<Node>, n: nat, id: string) returns (i: nat)
    requires n <= |nodes| && id in AvailableOfFirst(nodes, n)
    ensures LastWithId(nodes, n, i) && nodes[i].id == id
    ensures AvailableOfFirst(nodes, n)[id] == OutputNames(nodes[i])
  {
    if nodes[n - 1].id == id {
      i := n - 1;
    } else {
      i := AvailableLookup(nodes, n - 1, id);
    }
  }

  lemma {:induction false} AvailableOfLast(nodes: seq<Node>, n: nat, i: nat)
    requires n <= |nodes| && LastWithId(nodes, n, i)
    ensures nodes[i].id in AvailableOfFirst(nodes, n)
    ensures AvailableOfFirst(nodes, n)[nodes[i].id] == OutputNames(nodes[i])
  {
    if i < n - 1 {
      AvailableOfLast(nodes, n - 1, i);
    }
  }

  /** The outputs that references may name (validator.go:125-132). */
  method AvailableOutputs(nodes: seq<Node>) returns (avail: map<string, set<string>>)
    ensures avail == AvailableOfFirst(nodes, |nodes|)
  {
    avail := map[];
    for i := 0 to |nodes|
      invariant avail == AvailableOfFirst(nodes, i)
    {
      var node := nodes[i];
      avail := avail[node.id := {}];
      for j := 0 to |node.outputs|
        invariant avail == AvailableOfFirst(nodes, i)[node.id := OutputNamesOfFirst(node.outputs, j)]
      {
        avail := avail[node.id := avail[node.id] + {node.outputs[j].name}];
      }
    }
  }

  /** The field naming a binding in a reference error. */
  function BindingField(node: Node, input: Input): string {
    "node " + node.id + ", input " + input.name
  }

  /** The complaint about one binding: none for a flow input; otherwise its
      reference must have a dot, name an available node and one of that
      node's outputs. */
  function BindingError(avail: map<string, set<string>>, node: Node, input: Input): Option<ValidationError> {
    if input.from == FlowInput then None
    else match Reference(input.from)
      case None =>
        Some(ValidationError(BindingField(node, input),
          "invalid input reference format: " + input.from + " (expected 'nodeID.outputName')"))
      case Some((id, output)) =>
        if id !in avail then
          Some(ValidationError(BindingField(node, input), "referenced node does not exist: " + id))
        else if output !in avail[id] then
          Some(ValidationError(BindingField(node, input), "referenced output does not exist: " + id + "." + output))
        else None
  }

  /** The first complaint about the first m bindings of a node. */
  function BindingsError(avail: map<string, set<string>>, node: Node, m: nat): Option<ValidationError>
    requires m <= |node.inputs|
  {
    if m == 0 then None
    else if BindingsError(avail, node, m - 1).Some? then BindingsError(avail, node, m - 1)
    else BindingError(avail, node, node.inputs[m - 1])
  }

  /** The first complaint about the bindings of the first n nodes. */
  function ReferencesOfFirst(avail: map<string, set<string>>, nodes: seq<Node>, n: nat): Option<ValidationError>
    requires n <= |nodes|
  {
    if n == 0 then None
    else if ReferencesOfFirst(avail, nodes, n - 1).Some? then ReferencesOfFirst(avail, nodes, n - 1)
    else BindingsError(avail, nodes[n - 1], |nodes[n - 1].inputs|)
  }

  /** The result of validateReferences on a node list. */
  function ReferencesError(nodes: seq<Node>): Option<ValidationError> {
    ReferencesOfFirst(AvailableOfFirst(nodes, |nodes|), nodes, |nodes|)
  }

  lemma {:induction false} BindingsErrorSticks(avail: map<string, set<string>>, node: Node, m: nat, n: nat)
    requires m <= n <= |node.inputs| && BindingsError(avail, node, m).Some?
    ensures BindingsError(avail, node, n) == BindingsError(avail, node, m)
    decreases n - m
  {
    if m < n {
      BindingsErrorSticks(avail, node, m, n - 1);
    }
  }

  lemma {:induction false} ReferencesSticks(avail: map<string, set<string>>, nodes: seq<Node>, m: nat, n: nat)
    requires m <= n <= |nodes| && ReferencesOfFirst(avail, nodes, m).Some?
    ensures ReferencesOfFirst(avail, nodes, n) == ReferencesOfFirst(avail, nodes, m)
    decreases n - m
  {
    if m < n {
      ReferencesSticks(avail, nodes, m, n - 1);
    }
  }

  /** A binding resolves: it is a flow input, or it reads
      "<node id>.<output name>" where the last node with that id declares
      that output. */
  ghost predicate Resolves(nodes: seq<Node>, from: string) {
    from == FlowInput ||
    (Reference(from).Some? &&
     exists i :: 0 <= i < |nodes| && LastWithId(nodes, |nodes|, i) &&
       nodes[i].id == Reference(from).value.0 && Reference(from).value.1 in OutputNames(nodes[i]))
  }

  /** A binding passes exactly when it resolves. */
  lemma BindingErrorNone(nodes: seq<Node>, node: Node, input: Input)
    ensures BindingError(AvailableOfFirst(nodes, |nodes|), node, input).None? <==> Resolves(nodes, input.from)
  {
    var avail := AvailableOfFirst(nodes, |nodes|);
    if input.from != FlowInput && Reference(input.from).Some? {
      var (id, output) := Reference(input.from).value;
      if id in avail {
        var i := AvailableLookup(nodes, |nodes|, id);
      }
      forall i | 0 <= i < |nodes| && LastWithId(nodes, |nodes|, i) && nodes[i].id == id
        ensures id in avail && avail[id] == OutputNames(nodes[i])
      {
        AvailableOfLast(nodes, |nodes|, i);
      }
    }
  }

  lemma {:induction false} BindingsErrorNone(avail: map<string, set<string>>, node: Node, m: nat)
    requires m <= |node.inputs|
    ensures BindingsError(avail, node, m).None? <==>
      forall j :: 0 <= j < m ==> BindingError(avail, node, node.inputs[j]).None?
  {
    if m > 0 {
      BindingsErrorNone(avail, node, m - 1);
    }
  }

  lemma {:induction false} ReferencesOfFirstNone(avail: map<string, set<string>>, nodes: seq<Node>, n: nat)
    requires n <= |nodes|
    ensures ReferencesOfFirst(avail, nodes, n).None? <==>
      forall i, j :: 0 <= i < n && 0 <= j < |nodes[i].inputs| ==> BindingError(avail, nodes[i], nodes[i].inputs[j]).None?
  {
    if n > 0 {
      ReferencesOfFirstNone(avail, nodes, n - 1);
      BindingsErrorNone(avail, nodes[n - 1], |nodes[n - 1].inputs|);
    }
  }

  /** validateReferences accepts a node list exactly when every binding of
      every node resolves. */
  lemma ReferencesErrorNone(nodes: seq<Node>)
    ensures ReferencesError(nodes).None? <==>
      forall i, j :: 0 <= i < |nodes| && 0 <= j < |nodes[i].inputs| ==> Resolves(nodes, nodes[i].inputs[j].from)
  {
    ReferencesOfFirstNone(AvailableOfFirst(nodes, |nodes|), nodes, |nodes|);
    forall i, j | 0 <= i < |nodes| && 0 <= j < |nodes[i].inputs|
      ensures BindingError(AvailableOfFirst(nodes, |nodes|), nodes[i], nodes[i].inputs[j]).None?
              <==> Resolves(nodes, nodes[i].inputs[j].from)
    {
      BindingErrorNone(nodes, nodes[i], nodes[i].inputs[j]);
    }
  }

  /** The checks of one binding (validator.go:137-167). */
  method CheckBinding(avail: map<string, set<string>>, node: Node, input: Input) returns (err: Option<ValidationError>)
    ensures err == BindingError(avail, node, input)
  {
    if input.from == FlowInput {
      return None;
    }
    var parts := SplitN2(input.from, '.');
    ReferenceSplits(input.from);
    if |parts| != 2 {
      return Some(ValidationError(BindingField(node, input),
        "invalid input reference format: " + input.from + " (expected 'nodeID.outputName')"));
    }
    var id, output := parts[0], parts[1];
    if id !in avail {
      return Some(ValidationError(BindingField(node, input), "referenced node does not exist: " + id));
    }
    if output !in avail[id] {
      return Some(ValidationError(BindingField(node, input), "referenced output does not exist: " + id + "." + output));
    }
    return None;
  }

  /** validateReferences (validator.go:123-172). */
  method ValidateReferences(nodes: seq<Node>) returns (err: Option<ValidationError>)
    ensures err == ReferencesError(nodes)
  {
    var avail := AvailableOutputs(nodes);
    for i := 0 to |nodes|
      invariant ReferencesOfFirst(avail, nodes, i).None?
    {
      var node := nodes[i];
      for j := 0 to |node.inputs|
        invariant BindingsError(avail, node, j).None?
      {
        err := CheckBinding(avail, node, node.inputs[j]);
        if err.Some? {
          BindingsErrorSticks(avail, node, j + 1, |node.inputs|);
          ReferencesSticks(avail, nodes, i + 1, |nodes|);
          return;
        }
      }
    }
    return None;
  }

  // ----- checkCycles -----

  /** Every node the search can reach: the graph's keys and every id they
      depend on. */
  ghost function Universe(graph: Graph): set<string> {
    graph.Keys + set k, d | k in graph && d in graph[k] :: d
  }

  /** The ids a node depends on; a Go map lookup of a missing key yields an
      empty list. */
  function Succ(graph: Graph, id: string): seq<string> {
    if id in graph then graph[id] else []
  }

  lemma SuccInUniverse(graph: Graph, id: string, d: string)
    requires d in Succ(graph, id)
    ensures d in Universe(graph)
  {
    assert id in graph;
  }

  lemma SmallerRemainder(u: set<string>, a: set<string>, b: set<string>, x: string)
    requires a <= b <= u && x in b && x !in a
    ensures |u - b| < |u - a|
  {
    var small, large := u - b, u - a;
    assert large == small + (large - small);
    assert x in large - small;
  }

  /** The depth-first search invariant: the on-stack nodes are exactly
      those of the current search path; every visited node that left the
      stack is finished, after every node it depends on. */
  ghost predicate SearchInvariant(graph: Graph, visited: set<string>, recStack: set<string>,
                                  path: seq<string>, finish: map<string, nat>, clock: nat)
  {
    && visited <= Universe(graph)
    && recStack <= visited
    && (forall k | k in path :: k in recStack)
    && (forall k | k in recStack :: k in path)
    && IsPath(graph, path)
    && finish.Keys == visited - recStack
    && (forall f | f in finish :: finish[f] < clock)
    && (forall f | f in finish :: forall d | d in Succ(graph, f) :: d in finish && finish[d] < finish[f])
  }

  /** Entering a new node keeps the invariant. */
  lemma EnterKeeps(graph: Graph, visited: set<string>, recStack: set<string>,
                   path: seq<string>, finish: map<string, nat>, clock: nat, id: string)
    requires SearchInvariant(graph, visited, recStack, path, finish, clock)
    requires id in Universe(graph) && id !in visited && IsPath(graph, path + [id])
    ensures SearchInvariant(graph, visited + {id}, recStack + {id}, path + [id], finish, clock)
  {
  }

  /** Leaving a node whose dependencies are all finished keeps the
      invariant. */
  lemma LeaveKeeps(graph: Graph, visited: set<string>, recStack: set<string>,
                   path: seq<string>, finish: map<string, nat>, clock: nat, id: string)
    requires SearchInvariant(graph, visited, recStack + {id}, path + [id], finish, clock)
    requires id !in recStack && IsPath(graph, path)
    requires forall k | k in path :: k in recStack
    requires forall d | d in Succ(graph, id) :: d in visited - (recStack + {id})
    ensures SearchInvariant(graph, visited, recStack, path, finish[id := clock], clock + 1)
  {
  }

  /** Once every node is visited and the stack is empty, the finishing
      order ranks the graph. */
  lemma FinishRanks(graph: Graph, visited: set<string>, path: seq<string>, finish: map<string, nat>, clock: nat)
    requires SearchInvariant(graph, visited, {}, path, finish, clock)
    requires graph.Keys <= visited
    ensures RankedBy(graph, finish)
  {
    forall id | id in graph
      ensures id in finish && forall d | d in graph[id] :: d in finish && finish[d] < finish[id]
    {
      assert Succ(graph, id) == graph[id];
    }
  }

  /** A dependency on a node of the current path closes a cycle. */
  lemma CycleOnPath(graph: Graph, path: seq<string>, neighbor: string) returns (cycle: seq<string>)
    requires IsPath(graph, path) && |path| > 0 && neighbor in path
    requires neighbor in Succ(graph, path[|path| - 1])
    ensures |cycle| >= 2 && cycle[0] == cycle[|cycle| - 1] && IsPath(graph, cycle)
  {
    var p :| 0 <= p < |path| && path[p] == neighbor;
    cycle := path[p..] + [neighbor];
  }

  lemma RemainderShrinks(u: set<string>, a: set<string>, b: set<string>)
    requires a <= b
    ensures |u - b| <= |u - a|
  {
    var small, large := u - b, u - a;
    assert large == small + (large - small);
  }

  /** The state of checkCycles' depth-first search: the producer graph and
      the visited and on-stack sets (maps to booleans in the source, shared
      by the recursive closure). The ghost fields hold the current search
      path and the order in which nodes were finished. */
  class CycleSearch {
    const graph: Graph
    ghost const universe: set<string>
    var visited: set<string>
    var recStack: set<string>
    ghost var path: seq<string>
    ghost var finish: map<string, nat>
    ghost var clock: nat

    ghost predicate Valid()
      reads this
    {
      universe == Universe(graph) && SearchInvariant(graph, visited, recStack, path, finish, clock)
    }

    constructor (graph: Graph)
      ensures Valid() && this.graph == graph
      ensures visited == {} && recStack == {} && path == []
    {
      this.graph := graph;
      universe := Universe(graph);
      visited, recStack := {}, {};
      path, finish, clock := [], map[], 0;
    }

    /** The closure `hasCycle` (validator.go:193-210): marks id visited and
        on the stack, searches its dependencies, and takes it off the stack
        when none of them closes a cycle. */
    method Visit(id: string) returns (found: bool, ghost cycle: seq<string>)
      requires Valid() && id in universe && id !in visited
      requires IsPath(graph, path + [id])
      modifies this
      decreases |universe - visited|, 0
      ensures found ==> |cycle| >= 2 && cycle[0] == cycle[|cycle| - 1] && IsPath(graph, cycle)
      ensures !found ==> Valid() && id in visited - recStack && path == old(path) && recStack == old(recStack)
      ensures !found ==> old(visited) <= visited && old(clock) <= clock
    {
      Enter(id);
      SmallerRemainder(universe, old(visited), visited, id);
      found, cycle := VisitDependencies(id);
      if found {
        return;
      }
      Leave(id);
    }

    /** `visited[id] = true; recStack[id] = true`, the search path
        extended by id. */
    method Enter(id: string)
      requires Valid() && id in universe && id !in visited
      requires IsPath(graph, path + [id])
      modifies this
      ensures Valid() && visited == old(visited) + {id} && recStack == old(recStack) + {id}
      ensures path == old(path) + [id] && clock == old(clock)
    {
      EnterKeeps(graph, visited, recStack, path, finish, clock, id);
      visited := visited + {id};
      recStack := recStack + {id};
      path := path + [id];
    }

    /** `recStack[id] = false`: id leaves the search path and is finished
        after every node it depends on. */
    method Leave(id: string)
      requires Valid() && |path| > 0 && path[|path| - 1] == id && id !in path[..|path| - 1]
      requires forall d | d in Succ(graph, id) :: d in visited - recStack
      modifies this
      ensures Valid() && id in visited - recStack && visited == old(visited)
      ensures recStack == old(recStack) - {id} && path == old(path)[..|old(path)| - 1]
      ensures old(clock) <= clock
    {
      ghost var rest := path[..|path| - 1];
      assert path == rest + [id];
      assert recStack == (recStack - {id}) + {id};
      LeaveKeeps(graph, visited, recStack - {id}, rest, finish, clock, id);
      recStack := recStack - {id};
      path := rest;
      finish := finish[id := clock];
      clock := clock + 1;
    }

    /** The closure's loop over the dependencies of id, the node on top of
        the search path, in their order. */
    method VisitDependencies(id: string) returns (found: bool, ghost cycle: seq<string>)
      requires Valid() && |path| > 0 && path[|path| - 1] == id && id in recStack
      modifies this
      decreases |universe - visited|, 2
      ensures found ==> |cycle| >= 2 && cycle[0] == cycle[|cycle| - 1] && IsPath(graph, cycle)
      ensures !found ==> Valid() && path == old(path) && recStack == old(recStack)
      ensures !found ==> old(visited) <= visited && old(clock) <= clock
      ensures !found ==> forall d | d in Succ(graph, id) :: d in visited - recStack
    {
      var neighbors := Succ(graph, id);
      for j := 0 to |neighbors|
        invariant Valid()
        invariant path == old(path) && recStack == old(recStack)
        invariant old(visited) <= visited && old(clock) <= clock
        invariant forall k :: 0 <= k < j ==> neighbors[k] in visited - recStack
      {
        ghost var done := visited - recStack;
        RemainderShrinks(universe, old(visited), visited);
        found, cycle := VisitDependency(id, neighbors[j]);
        if found {
          return;
        }
        assert done <= visited - recStack;
      }
      return false, [];
    }

    /** One turn of the closure's loop over the dependencies of id, the
        node on top of the search path: search an unvisited dependency,
        report one that is still on the stack. */
    method VisitDependency(id: string, neighbor: string) returns (found: bool, ghost cycle: seq<string>)
      requires Valid() && |path| > 0 && path[|path| - 1] == id && neighbor in Succ(graph, id)
      modifies this
      decreases |universe - visited|, 1
      ensures found ==> |cycle| >= 2 && cycle[0] == cycle[|cycle| - 1] && IsPath(graph, cycle)
      ensures !found ==> Valid() && neighbor in visited && neighbor !in recStack
      ensures !found ==> path == old(path) && recStack == old(recStack)
      ensures !found ==> old(visited) <= visited && old(clock) <= clock
    {
      if neighbor !in visited {
        SuccInUniverse(graph, id, neighbor);
        found, cycle := Visit(neighbor);
      } else if neighbor in recStack {
        cycle := CycleOnPath(graph, path, neighbor);
        found := true;
      } else {
        found, cycle := false, [];
      }
    }
  }

  /** The error checkCycles reports for the root of a search that found a
      cycle. */
  function CycleError(id: string): ValidationError {
    ValidationError("nodes", "cycle detected in flow graph involving node: " + id)
  }

  /** checkCycles (validator.go:174-224): builds the producer graph with
      SplitN and searches it from every node id, in Go's unspecified map
      order. It reports an error exactly when the graph has a cycle. */
  method CheckCycles(nodes: seq<Node>) returns (err: Option<ValidationError>)
    ensures err.Some? <==> HasCycle(Adjacency(GoSplitN, nodes))
    ensures err.Some? ==> exists id :: id in NodeIds(nodes) && err.value == CycleError(id)
    ensures err.None? ==> exists rank :: RankedBy(Adjacency(GoSplitN, nodes), rank)
  {
    var graph := BuildAdjacency(GoSplitN, nodes);
    var search := new CycleSearch(graph);
    var remaining := graph.Keys;
    while remaining != {}
      invariant search.Valid() && search.graph == graph
      invariant search.path == [] && search.recStack == {}
      invariant remaining <= graph.Keys
      invariant forall k | k in graph && k !in remaining :: k in search.visited
      decreases remaining
    {
      var id :| id in remaining;
      remaining := remaining - {id};
      if id !in search.visited {
        var found, cycle := search.Visit(id);
        if found {
          return Some(CycleError(id));
        }
      }
    }
    FinishRanks(graph, search.visited, search.path, search.finish, search.clock);
    RankedHasNoCycle(graph, search.finish);
    return None;
  }

  // ----- Validate -----

  /** The first complaint about the ids and the own checks of the first n
      nodes: an empty id, an id used before, or the node's own complaint
      wrapped with its id. */
  function NodesError(nodes: seq<Node>, n: nat): Option<Error>
    requires n <= |nodes|
  {
    if n == 0 then None
    else if NodesError(nodes, n - 1).Some? then NodesError(nodes, n - 1)
    else if nodes[n - 1].id == "" then
      Some(Invalid(ValidationError(Indexed("nodes", n - 1, "id"), "node ID is required")))
    else if nodes[n - 1].id in IdsOfFirst(nodes, n - 1) then
      Some(Invalid(ValidationError(Indexed("nodes", n - 1, "id"), "duplicate node ID: " + nodes[n - 1].id)))
    else match NodeError(nodes[n - 1])
      case Some(e) => Some(InNode(nodes[n - 1].id, e))
      case None => None
  }

  /** The checks Validate makes before searching for cycles, in order: the
      flow's name, its version, that it has nodes, then each node. */
  function PrecheckError(flow: Flow): Option<Error> {
    if flow.name == "" then Some(Invalid(ValidationError("name", "flow name is required")))
    else if flow.version == "" then Some(Invalid(ValidationError("version", "flow version is required")))
    else if |flow.nodes| == 0 then Some(Invalid(ValidationError("nodes", "at least one node is required")))
    else NodesError(flow.nodes, |flow.nodes|)
  }

  lemma {:induction false} NodesErrorSticks(nodes: seq<Node>, m: nat, n: nat)
    requires m <= n <= |nodes| && NodesError(nodes, m).Some?
    ensures NodesError(nodes, n) == NodesError(nodes, m)
    decreases n - m
  {
    if m < n {
      NodesErrorSticks(nodes, m, n - 1);
    }
  }

  /** The node checks pass exactly when every id is non-empty and unique
      and every node is well formed. */
  lemma {:induction false} NodesErrorNone(nodes: seq<Node>, n: nat)
    requires n <= |nodes|
    ensures NodesError(nodes, n).None? <==>
      (forall i :: 0 <= i < n ==> nodes[i].id != "" && WellFormedNode(nodes[i])) &&
      (forall i, j :: 0 <= i < j < n ==> nodes[i].id != nodes[j].id)
  {
    if n > 0 {
      NodesErrorNone(nodes, n - 1);
      NodesErrorStep(nodes, n);
      NodeErrorNone(nodes[n - 1]);
      IdsOfFirstFresh(nodes, n);
      NodesOkStep(nodes, n);
    }
  }

  /** The conditions on the first n nodes are those on the first n - 1 and
      on node n - 1 against them. */
  lemma NodesOkStep(nodes: seq<Node>, n: nat)
    requires 0 < n <= |nodes|
    ensures
      ((forall i :: 0 <= i < n ==> nodes[i].id != "" && WellFormedNode(nodes[i])) &&
       (forall i, j :: 0 <= i < j < n ==> nodes[i].id != nodes[j].id))
      <==>
      ((forall i :: 0 <= i < n - 1 ==> nodes[i].id != "" && WellFormedNode(nodes[i])) &&
       (forall i, j :: 0 <= i < j < n - 1 ==> nodes[i].id != nodes[j].id) &&
       nodes[n - 1].id != "" && WellFormedNode(nodes[n - 1]) &&
       (forall i :: 0 <= i < n - 1 ==> nodes[i].id != nodes[n - 1].id))
  {
  }

  /** One more node passes exactly when the earlier ones did and its id is
      non-empty, new, and its own checks pass. */
  lemma NodesErrorStep(nodes: seq<Node>, n: nat)
    requires 0 < n <= |nodes|
    ensures NodesError(nodes, n).None? <==>
      && NodesError(nodes, n - 1).None?
      && nodes[n - 1].id != ""
      && nodes[n - 1].id !in IdsOfFirst(nodes, n - 1)
      && NodeError(nodes[n - 1]).None?
  {
  }

  /** A flow Validate accepts, stated directly. */
  ghost predicate ValidFlow(flow: Flow) {
    && flow.name != ""
    && flow.version != ""
    && |flow.nodes| > 0
    && (forall i :: 0 <= i < |flow.nodes| ==> flow.nodes[i].id != "" && WellFormedNode(flow.nodes[i]))
    && UniqueIds(flow.nodes)
    && !HasCycle(Adjacency(GoSplitN, flow.nodes))
    && (forall i, j :: 0 <= i < |flow.nodes| && 0 <= j < |flow.nodes[i].inputs| ==>
          Resolves(flow.nodes, flow.nodes[i].inputs[j].from))
  }

  /** Validate accepts exactly the flows that pass every check. */
  lemma ValidFlowChecks(flow: Flow)
    ensures ValidFlow(flow) <==>
      PrecheckError(flow).None? && !HasCycle(Adjacency(GoSplitN, flow.nodes)) && ReferencesError(flow.nodes).None?
  {
    NodesErrorNone(flow.nodes, |flow.nodes|);
    ReferencesErrorNone(flow.nodes);
  }

  /** The id loop of Validate (validator.go:33-54), which also runs each
      node's own checks. */
  method CheckNodes(nodes: seq<Node>) returns (err: Option<Error>)
    ensures err == NodesError(nodes, |nodes|)
  {
    var seen: set<string> := {};
    for i := 0 to |nodes|
      invariant NodesError(nodes, i).None?
      invariant seen == IdsOfFirst(nodes, i)
    {
      var node := nodes[i];
      if node.id == "" {
        err := Some(Invalid(ValidationError(Indexed("nodes", i, "id"), "node ID is required")));
        NodesErrorSticks(nodes, i + 1, |nodes|);
        return;
      }
      if node.id in seen {
        err := Some(Invalid(ValidationError(Indexed("nodes", i, "id"), "duplicate node ID: " + node.id)));
        NodesErrorSticks(nodes, i + 1, |nodes|);
        return;
      }
      seen := seen + {node.id};
      var nodeErr := ValidateNode(node);
      if nodeErr.Some? {
        err := Some(InNode(node.id, nodeErr.value));
        NodesErrorSticks(nodes, i + 1, |nodes|);
        return;
      }
    }
    return None;
  }

  /** Validate (validator.go:19-67): the prechecks, then the cycle search,
      then the reference check; the first complaint is returned. */
  method Validate(flow: Flow) returns (err: Option<Error>)
    ensures PrecheckError(flow).Some? ==> err == PrecheckError(flow)
    ensures PrecheckError(flow).None? && HasCycle(Adjacency(GoSplitN, flow.nodes)) ==>
      exists id :: id in NodeIds(flow.nodes) && err == Some(Invalid(CycleError(id)))
    ensures PrecheckError(flow).None? && !HasCycle(Adjacency(GoSplitN, flow.nodes)) ==>
      err == match ReferencesError(flow.nodes) case Some(e) => Some(Invalid(e)) case None => None
    ensures err.None? <==> ValidFlow(flow)
    ensures err.None? ==> exists rank :: RankedBy(Adjacency(GoSplitN, flow.nodes), rank)
  {
    ValidFlowChecks(flow);
    if flow.name == "" {
      return Some(Invalid(ValidationError("name", "flow name is required")));
    }
    if flow.version == "" {
      return Some(Invalid(ValidationError("version", "flow version is required")));
    }
    if |flow.nodes| == 0 {
      return Some(Invalid(ValidationError("nodes", "at least one node is required")));
    }
    err := CheckNodes(flow.nodes);
    if err.Some? {
      return;
    }
    var cycleErr := CheckCycles(flow.nodes);
    if cycleErr.Some? {
      return Some(Invalid(cycleErr.value));
    }
    var refErr := ValidateReferences(flow.nodes);
    if refErr.Some? {
      return Some(Invalid(refErr.value));
    }
    return None;
  }
}
