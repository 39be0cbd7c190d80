// The flow definition (pkg/flow/types.go, web/src/types/flow.ts), the two
// ways the code base resolves an input binding to its producer node, and the
// producer graph that both the layout and the validator build from them.

module FlowModel {
  import opened Wrappers
  import opened Strings

  datatype Input = Input(name: string, from: string)
  datatype Output = Output(name: string, to: string)
  datatype Config = Config(defaultProvider: string, defaultModel: string)
  datatype Node = Node(id: string, nodeType: string, provider: string, model: string,
                       inputs: seq<Input>, prompt: string, outputs: seq<Output>)
  datatype Flow = Flow(version: string, name: string, description: string,
                       config: Config, nodes: seq<Node>)

  /** `from` value of a binding fed by a flow input. */
  const FlowInput: string := "input"
  /** `to` value of an output that is a flow output. */
  const FlowOutput: string := "output"

  /** A producer graph: each node id mapped to the ids it depends on. */
  type Graph = map<string, seq<string>>

  /** The web views split `from` with JavaScript's split('.'); the Go code
      with strings.SplitN(from, ".", 2). */
  datatype Splitter = JsSplit | GoSplitN

  /** Go: `SplitN(from, ".", 2)` read as (node id, output name) when it has
      two parts; the output name is everything after the first dot. */
  function Reference(from: string): Option<(string, string)> {
    if '.' in from then Some((PrefixBefore(from, '.'), SuffixAfter(from, '.'))) else None
  }

  /** Reference is SplitN with limit 2, read when it gives two parts. */
  lemma ReferenceSplits(from: string)
    ensures Reference(from) ==
      if |SplitN2(from, '.')| == 2 then Some((SplitN2(from, '.')[0], SplitN2(from, '.')[1])) else None
  {
    if '.' in from {
      PrefixBeforeSplitN2(from, '.');
      SuffixAfterSplitN2(from, '.');
    }
  }

  /** The producer node id a binding depends on, as each splitter resolves
      it: the text before the first dot, for a binding that is not a flow
      input and that the splitter cuts into exactly two parts. */
  function Producer(kind: Splitter, from: string): (p: Option<string>)
  {
    if from != FlowInput && '.' in from && (kind == GoSplitN || Count(from, '.') == 1)
    then Some(PrefixBefore(from, '.')) else None
  }

  /** The web views' resolution, `from.split('.')` with exactly two parts,
      and the Go code's, `SplitN(from, ".", 2)` with two parts: both take
      the first part as the producer. */
  lemma ProducerSplits(kind: Splitter, from: string)
    ensures kind == JsSplit ==>
      Producer(kind, from) ==
        if from != FlowInput && |Split(from, '.')| == 2 then Some(Split(from, '.')[0]) else None
    ensures kind == GoSplitN ==>
      Producer(kind, from) ==
        if from != FlowInput && |SplitN2(from, '.')| == 2 then Some(SplitN2(from, '.')[0]) else None
  {
    if '.' in from {
      PrefixBeforeSplitN2(from, '.');
    }
    if kind == JsSplit && from != FlowInput && |Split(from, '.')| == 2 {
      SplitTwoAgrees(from, '.');
    }
  }

  /** Whenever the web views record a dependency for a binding, the Go code
      records one on the same producer (the converse fails for "a.b.c"). */
  lemma JsProducerIsGoProducer(from: string)
    requires Producer(JsSplit, from).Some?
    ensures Producer(GoSplitN, from) == Producer(JsSplit, from)
  {
  }

  /** A binding of three dot-separated parts is a dependency for the Go code
      only. */
  lemma ThreePartBindingGoOnly()
    ensures Producer(JsSplit, "a.b.c") == None
    ensures Producer(GoSplitN, "a.b.c") == Some("a")
  {
    SplitsDisagreeOnTwoDots();
    PrefixBeforeSplitN2("a.b.c", '.');
  }

  /** The dependency one binding contributes: its producer, if any. */
  function DepOf(kind: Splitter, input: Input): (ds: seq<string>)
    ensures |ds| <= 1
  {
    match Producer(kind, input.from)
    case Some(p) => [p]
    case None => []
  }

  /** The producers of the first n bindings, one per resolved binding, in
      binding order. */
  function DepsOfFirst(kind: Splitter, inputs: seq<Input>, n: nat): (ds: seq<string>)
    requires n <= |inputs|
    ensures |ds| <= n
  {
    if n == 0 then [] else DepsOfFirst(kind, inputs, n - 1) + DepOf(kind, inputs[n - 1])
  }

  /** The producers of a node's bindings. */
  function Deps(kind: Splitter, inputs: seq<Input>): (ds: seq<string>)
    ensures |ds| <= |inputs|
  {
    DepsOfFirst(kind, inputs, |inputs|)
  }

  /** Every resolved binding among the first n contributes its producer ... */
  lemma {:induction false} DepsInclude(kind: Splitter, inputs: seq<Input>, n: nat, j: nat)
    requires j < n <= |inputs| && Producer(kind, inputs[j].from).Some?
    ensures Producer(kind, inputs[j].from).value in DepsOfFirst(kind, inputs, n)
  {
    if j < n - 1 {
      DepsInclude(kind, inputs, n - 1, j);
    } else {
      assert DepOf(kind, inputs[j]) == [Producer(kind, inputs[j].from).value];
    }
  }

  /** ... and every dependency comes from some resolved binding. */
  lemma {:induction false} DepsSource(kind: Splitter, inputs: seq<Input>, n: nat, d: string) returns (j: nat)
    requires n <= |inputs| && d in DepsOfFirst(kind, inputs, n)
    ensures j < n && Producer(kind, inputs[j].from) == Some(d)
  {
    if d in DepsOfFirst(kind, inputs, n - 1) {
      j := DepsSource(kind, inputs, n - 1, d);
    } else {
      j := n - 1;
      assert d in DepOf(kind, inputs[j]);
    }
  }

  /** A node depends on d exactly when one of its bindings resolves to d. */
  lemma DepsMembers(kind: Splitter, inputs: seq<Input>, d: string)
    ensures d in Deps(kind, inputs) <==>
      exists j :: 0 <= j < |inputs| && Producer(kind, inputs[j].from) == Some(d)
  {
    if d in Deps(kind, inputs) {
      var j := DepsSource(kind, inputs, |inputs|, d);
    }
    if j :| 0 <= j < |inputs| && Producer(kind, inputs[j].from) == Some(d) {
      DepsInclude(kind, inputs, |inputs|, j);
    }
  }

  /** The ids of the first n nodes. */
  function IdsOfFirst(nodes: seq<Node>, n: nat): set<string>
    requires n <= |nodes|
  {
    if n == 0 then {} else IdsOfFirst(nodes, n - 1) + {nodes[n - 1].id}
  }

  /** The ids of a list of nodes. */
  function NodeIds(nodes: seq<Node>): (ids: set<string>)
    ensures forall i :: 0 <= i < |nodes| ==> nodes[i].id in ids
  {
    IdsOfFirstMembers(nodes, |nodes|);
    IdsOfFirst(nodes, |nodes|)
  }

  lemma {:induction false} IdsOfFirstMembers(nodes: seq<Node>, n: nat)
    requires n <= |nodes|
    ensures forall i :: 0 <= i < n ==> nodes[i].id in IdsOfFirst(nodes, n)
    ensures forall id :: id in IdsOfFirst(nodes, n) ==> exists i :: 0 <= i < n && nodes[i].id == id
  {
    if n > 0 {
      IdsOfFirstMembers(nodes, n - 1);
    }
  }

  /** The first n nodes have at most n distinct ids, and exactly n when no
      id repeats among them. */
  lemma {:induction false} IdsCount(nodes: seq<Node>, n: nat)
    requires n <= |nodes|
    ensures |IdsOfFirst(nodes, n)| <= n
    ensures |IdsOfFirst(nodes, n)| == n <==> forall i, j :: 0 <= i < j < n ==> nodes[i].id != nodes[j].id
  {
    if n > 0 {
      IdsCount(nodes, n - 1);
      IdsOfFirstFresh(nodes, n);
      DistinctStep(nodes, n);
      if nodes[n - 1].id in IdsOfFirst(nodes, n - 1) {
        assert IdsOfFirst(nodes, n) == IdsOfFirst(nodes, n - 1);
      } else {
        assert |IdsOfFirst(nodes, n)| == |IdsOfFirst(nodes, n - 1)| + 1;
      }
    }
  }

  /** The id of node n - 1 is new exactly when no earlier node carries it. */
  lemma IdsOfFirstFresh(nodes: seq<Node>, n: nat)
    requires 0 < n <= |nodes|
    ensures nodes[n - 1].id !in IdsOfFirst(nodes, n - 1) <==> forall i :: 0 <= i < n - 1 ==> nodes[i].id != nodes[n - 1].id
  {
    IdsOfFirstMembers(nodes, n - 1);
  }

  /** The first n ids are pairwise distinct exactly when the first n - 1
      are and the last differs from each of them. */
  lemma DistinctStep(nodes: seq<Node>, n: nat)
    requires 0 < n <= |nodes|
    ensures (forall i, j :: 0 <= i < j < n ==> nodes[i].id != nodes[j].id) <==>
      (forall i, j :: 0 <= i < j < n - 1 ==> nodes[i].id != nodes[j].id) &&
      (forall i :: 0 <= i < n - 1 ==> nodes[i].id != nodes[n - 1].id)
  {
  }

  /** No id occurs twice. */
  predicate Distinct(s: seq<string>) {
    forall a, b :: 0 <= a < b < |s| ==> s[a] != s[b]
  }

  predicate UniqueIds(nodes: seq<Node>) {
    forall i, j :: 0 <= i < j < |nodes| ==> nodes[i].id != nodes[j].id
  }

  /** The producers of a node's bindings, as a function of the node. */
  function NodeDeps(kind: Splitter): Node -> seq<string> {
    (node: Node) => Deps(kind, node.inputs)
  }

  /** The map built by writing entry(node) at the node's id for each of the
      first n nodes in turn, so that a repeated id keeps its last entry. */
  function EntriesOfFirst(nodes: seq<Node>, entry: Node -> seq<string>, n: nat): Graph
    requires n <= |nodes|
  {
    if n == 0 then map[]
    else EntriesOfFirst(nodes, entry, n - 1)[nodes[n - 1].id := entry(nodes[n - 1])]
  }

  lemma {:induction false} EntriesKeys(nodes: seq<Node>, entry: Node -> seq<string>, n: nat)
    requires n <= |nodes|
    ensures EntriesOfFirst(nodes, entry, n).Keys == IdsOfFirst(nodes, n)
  {
    if n > 0 {
      EntriesKeys(nodes, entry, n - 1);
    }
  }

  /** An id's entry is that of the LAST node with that id. */
  lemma {:induction false} EntriesLast(nodes: seq<Node>, entry: Node -> seq<string>, n: nat, i: nat)
    requires i < n <= |nodes|
    requires forall j :: i < j < n ==> nodes[j].id != nodes[i].id
    ensures nodes[i].id in EntriesOfFirst(nodes, entry, n)
    ensures EntriesOfFirst(nodes, entry, n)[nodes[i].id] == entry(nodes[i])
  {
    if i < n - 1 {
      EntriesLast(nodes, entry, n - 1, i);
    }
  }

  /** The adjacency list both layouts and the Go cycle check build: an
      entry per node id, reset when an id repeats, listing that node's
      producers. */
  function Adjacency(kind: Splitter, nodes: seq<Node>): (adj: Graph)
    ensures adj.Keys == NodeIds(nodes)
  {
    EntriesKeys(nodes, NodeDeps(kind), |nodes|);
    EntriesOfFirst(nodes, NodeDeps(kind), |nodes|)
  }

  /** With a repeated id the adjacency keeps the producers of the last node
      with that id; with unique ids, each node's entry is its producers. */
  lemma AdjacencyEntry(kind: Splitter, nodes: seq<Node>, i: nat)
    requires i < |nodes|
    requires forall j :: i < j < |nodes| ==> nodes[j].id != nodes[i].id
    ensures nodes[i].id in Adjacency(kind, nodes)
    ensures Adjacency(kind, nodes)[nodes[i].id] == Deps(kind, nodes[i].inputs)
  {
    EntriesLast(nodes, NodeDeps(kind), |nodes|, i);
  }

  lemma AdjacencyOfUnique(kind: Splitter, nodes: seq<Node>)
    requires UniqueIds(nodes)
    ensures forall i :: 0 <= i < |nodes| ==>
      nodes[i].id in Adjacency(kind, nodes) && Adjacency(kind, nodes)[nodes[i].id] == Deps(kind, nodes[i].inputs)
  {
    forall i | 0 <= i < |nodes|
      ensures nodes[i].id in Adjacency(kind, nodes)
      ensures Adjacency(kind, nodes)[nodes[i].id] == Deps(kind, nodes[i].inputs)
    {
      AdjacencyEntry(kind, nodes, i);
    }
  }

  /** The inner loop of the adjacency construction: push onto a node's
      entry the producer of every resolved binding, in binding order. */
  method PushProducers(kind: Splitter, entry: seq<string>, inputs: seq<Input>)
    returns (entry': seq<string>)
    ensures entry' == entry + Deps(kind, inputs)
  {
    entry' := entry;
    for j := 0 to |inputs|
      invariant entry' == entry + DepsOfFirst(kind, inputs, j)
    {
      var producer := Producer(kind, inputs[j].from);
      if producer.Some? {
        entry' := entry' + [producer.value];
      }
    }
  }

  /** The adjacency loop of the layouts (and of the Go cycle check): per
      node, reset the id's entry, then push the producer of every resolved
      binding. */
  method BuildAdjacency(kind: Splitter, nodes: seq<Node>) returns (adj: Graph)
    ensures adj == Adjacency(kind, nodes)
  {
    adj := map[];
    var i := 0;
    while i < |nodes|
      invariant i <= |nodes|
      invariant adj == EntriesOfFirst(nodes, NodeDeps(kind), i)
    {
      var node := nodes[i];
      adj := adj[node.id := []];
      var entry := PushProducers(kind, adj[node.id], node.inputs);
      assert entry == NodeDeps(kind)(node);
      adj := adj[node.id := entry];
      i := i + 1;
    }
  }

  // ----- the producer graph -----

  /** Every producer named in the graph is itself a node of it. */
  ghost predicate Closed(adj: Graph) {
    forall id | id in adj :: forall d | d in adj[id] :: d in adj
  }

  /** `rank` gives every node a number above those of all its producers:
      the graph is acyclic (for a finite graph, the two are equivalent). */
  ghost predicate RankedBy(adj: Graph, rank: map<string, nat>) {
    forall id | id in adj :: id in rank && forall d | d in adj[id] :: d in rank && rank[d] < rank[id]
  }

  /** p follows dependencies: each element depends on the next. */
  ghost predicate IsPath(adj: Graph, p: seq<string>) {
    forall k :: 0 <= k < |p| - 1 ==> p[k] in adj && p[k + 1] in adj[p[k]]
  }

  /** Some node depends, directly or through others, on itself. */
  ghost predicate HasCycle(adj: Graph) {
    exists p :: |p| >= 2 && p[0] == p[|p| - 1] && IsPath(adj, p)
  }

  lemma {:induction false} PathRankDecreases(adj: Graph, rank: map<string, nat>,
                                             p: seq<string>, k: nat)
    requires RankedBy(adj, rank) && IsPath(adj, p)
    requires 1 <= k < |p|
    ensures p[0] in rank && p[k] in rank && rank[p[k]] < rank[p[0]]
  {
    if k > 1 {
      PathRankDecreases(adj, rank, p, k - 1);
    }
  }

  /** A ranked graph has no cycle. */
  lemma RankedHasNoCycle(adj: Graph, rank: map<string, nat>)
    requires RankedBy(adj, rank)
    ensures !HasCycle(adj)
  {
    if HasCycle(adj) {
      var p :| |p| >= 2 && p[0] == p[|p| - 1] && IsPath(adj, p);
      PathRankDecreases(adj, rank, p, |p| - 1);
    }
  }
}
