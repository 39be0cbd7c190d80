// Flow execution, pkg/executor/executor.go: the topological sort by Kahn's
// algorithm, the resolution of a node's inputs, the outputs an LLM node
// produces, and Execute, which runs the sorted nodes until one fails and
// collects the flow's outputs.

module Executor {
  import opened Wrappers
  import opened Strings
  import opened FlowModel
  import Validator
  import Providers


  // ----- topologicalSort: the edges -----

  /** A dependency edge of the sort: (producer id, consumer id). */
  type Edge = (string, string)

  /** The edge one binding adds (executor.go:260-268): none for a flow
      input or a `from` without a dot, otherwise one from the text before
      the first dot into the node id. */
  function BindingEdges(id: string, input: Input): seq<Edge> {
    match Producer(GoSplitN, input.from)
    case Some(p) => [(p, id)]
    case None => []
  }

  /** The edges of a node's first j bindings, in binding order. */
  function NodeEdgesOfFirst(node: Node, j: nat): seq<Edge>
    requires j <= |node.inputs|
  {
    if j == 0 then [] else NodeEdgesOfFirst(node, j - 1) + BindingEdges(node.id, node.inputs[j - 1])
  }

  function NodeEdges(node: Node): seq<Edge> {
    NodeEdgesOfFirst(node, |node.inputs|)
  }

  /** A node's edges pair each producer of its bindings with the node. */
  lemma {:induction false} NodeEdgesPair(node: Node, j: nat)
    requires j <= |node.inputs|
    ensures |NodeEdgesOfFirst(node, j)| == |DepsOfFirst(GoSplitN, node.inputs, j)|
    ensures forall k :: 0 <= k < |NodeEdgesOfFirst(node, j)| ==>
              NodeEdgesOfFirst(node, j)[k] == (DepsOfFirst(GoSplitN, node.inputs, j)[k], node.id)
  {
    if j > 0 {
      NodeEdgesPair(node, j - 1);
    }
  }

  /** The edges the sort adds for the first n nodes, in the order it adds
      them: one per binding that is not a flow input and that SplitN cuts
      in two. */
  function EdgesOfFirst(nodes: seq<Node>, n: nat): seq<Edge>
    requires n <= |nodes|
  {
    if n == 0 then [] else EdgesOfFirst(nodes, n - 1) + NodeEdges(nodes[n - 1])
  }

  function SortEdges(nodes: seq<Node>): seq<Edge> {
    EdgesOfFirst(nodes, |nodes|)
  }

  /** Every edge comes from a binding of some node, into that node. */
  lemma {:induction false} EdgeSource(nodes: seq<Node>, n: nat, k: nat) returns (i: nat)
    requires n <= |nodes| && k < |EdgesOfFirst(nodes, n)|
    ensures i < n && EdgesOfFirst(nodes, n)[k].1 == nodes[i].id
    ensures EdgesOfFirst(nodes, n)[k].0 in Deps(GoSplitN, nodes[i].inputs)
  {
    var prev := EdgesOfFirst(nodes, n - 1);
    if k < |prev| {
      i := EdgeSource(nodes, n - 1, k);
    } else {
      i := n - 1;
      NodeEdgesPair(nodes[i], |nodes[i].inputs|);
      assert EdgesOfFirst(nodes, n)[k] == NodeEdges(nodes[i])[k - |prev|];
    }
  }

  /** Every producer of a node's bindings gives an edge into the node. */
  lemma {:induction false} EdgeOfDep(nodes: seq<Node>, n: nat, i: nat, p: string) returns (k: nat)
    requires i < n <= |nodes| && p in Deps(GoSplitN, nodes[i].inputs)
    ensures k < |EdgesOfFirst(nodes, n)| && EdgesOfFirst(nodes, n)[k] == (p, nodes[i].id)
  {
    assert EdgesOfFirst(nodes, n) == EdgesOfFirst(nodes, n - 1) + NodeEdges(nodes[n - 1]);
    if i < n - 1 {
      k := EdgeOfDep(nodes, n - 1, i, p);
      assert EdgesOfFirst(nodes, n)[k] == EdgesOfFirst(nodes, n - 1)[k];
    } else {
      var ps := Deps(GoSplitN, nodes[i].inputs);
      var j :| 0 <= j < |ps| && ps[j] == p;
      NodeEdgesPair(nodes[i], |nodes[i].inputs|);
      k := |EdgesOfFirst(nodes, n - 1)| + j;
      assert EdgesOfFirst(nodes, n)[k] == NodeEdges(nodes[i])[j];
    }
  }

  // ----- topologicalSort: counting edges -----

  /** The consumer of every edge out of x among the first k edges, in edge
      order. */
  function TargetsIn(es: seq<Edge>, x: string, k: nat): seq<string>
    requires k <= |es|
  {
    if k == 0 then [] else TargetsIn(es, x, k - 1) + (if es[k - 1].0 == x then [es[k - 1].1] else [])
  }

  /** `adjList[x]` once all edges are added. */
  function Targets(es: seq<Edge>, x: string): seq<string> {
    TargetsIn(es, x, |es|)
  }

  /** The edges into n among the first k whose producer is not in done. */
  function PendingIn(es: seq<Edge>, done: set<string>, n: string, k: nat): nat
    requires k <= |es|
  {
    if k == 0 then 0 else PendingIn(es, done, n, k - 1) + (if es[k - 1].1 == n && es[k - 1].0 !in done then 1 else 0)
  }

  /** What is left of n's in-degree once the ids in done have been emitted. */
  function Pending(es: seq<Edge>, done: set<string>, n: string): nat {
    PendingIn(es, done, n, |es|)
  }

  /** How often n occurs among the first k elements of s. */
  function OccurrencesIn(s: seq<string>, n: string, k: nat): nat
    requires k <= |s|
  {
    if k == 0 then 0 else OccurrencesIn(s, n, k - 1) + (if s[k - 1] == n then 1 else 0)
  }

  /** How often n occurs in s. */
  function Occurrences(s: seq<string>, n: string): nat {
    OccurrencesIn(s, n, |s|)
  }

  lemma {:induction false} OccurrencesAgree(s: seq<string>, t: seq<string>, n: string, k: nat)
    requires k <= |s| && k <= |t| && forall i :: 0 <= i < k ==> s[i] == t[i]
    ensures OccurrencesIn(s, n, k) == OccurrencesIn(t, n, k)
  {
    if k > 0 {
      OccurrencesAgree(s, t, n, k - 1);
    }
  }

  lemma {:induction false} TargetsAgree(es: seq<Edge>, fs: seq<Edge>, x: string, k: nat)
    requires k <= |es| && k <= |fs| && forall i :: 0 <= i < k ==> es[i] == fs[i]
    ensures TargetsIn(es, x, k) == TargetsIn(fs, x, k)
  {
    if k > 0 {
      TargetsAgree(es, fs, x, k - 1);
    }
  }

  lemma {:induction false} PendingAgree(es: seq<Edge>, fs: seq<Edge>, done: set<string>, n: string, k: nat)
    requires k <= |es| && k <= |fs| && forall i :: 0 <= i < k ==> es[i] == fs[i]
    ensures PendingIn(es, done, n, k) == PendingIn(fs, done, n, k)
  {
    if k > 0 {
      PendingAgree(es, fs, done, n, k - 1);
    }
  }

  /** One more element counts once more if it is n. */
  lemma OccurrencesSnoc(s: seq<string>, t: string, n: string)
    ensures Occurrences(s + [t], n) == Occurrences(s, n) + (if t == n then 1 else 0)
  {
    OccurrencesAgree(s + [t], s, n, |s|);
  }

  lemma {:induction false} OccurrencesMonotone(s: seq<string>, k: nat, n: string)
    requires k <= |s|
    ensures OccurrencesIn(s, n, k) <= Occurrences(s, n)
    decreases |s| - k
  {
    if k < |s| {
      OccurrencesMonotone(s, k + 1, n);
    }
  }

  lemma {:induction false} OccursInFirst(s: seq<string>, n: string, k: nat)
    requires k <= |s|
    ensures OccurrencesIn(s, n, k) > 0 <==> exists i :: 0 <= i < k && s[i] == n
  {
    if k > 0 {
      OccursInFirst(s, n, k - 1);
    }
  }

  lemma OccursIn(s: seq<string>, n: string)
    ensures Occurrences(s, n) > 0 <==> n in s
  {
    OccursInFirst(s, n, |s|);
  }

  /** Emitting x removes from n's in-degree exactly the edges x -> n,
      which are the occurrences of n among x's targets. */
  lemma {:induction false} PendingStepIn(es: seq<Edge>, done: set<string>, x: string, n: string, k: nat)
    requires x !in done && k <= |es|
    ensures PendingIn(es, done, n, k) == PendingIn(es, done + {x}, n, k) + Occurrences(TargetsIn(es, x, k), n)
  {
    if k > 0 {
      PendingStepIn(es, done, x, n, k - 1);
      if es[k - 1].0 == x {
        OccurrencesSnoc(TargetsIn(es, x, k - 1), es[k - 1].1, n);
      } else {
        assert TargetsIn(es, x, k) == TargetsIn(es, x, k - 1);
      }
    }
  }

  lemma PendingStep(es: seq<Edge>, done: set<string>, x: string, n: string)
    requires x !in done
    ensures Pending(es, done, n) == Pending(es, done + {x}, n) + Occurrences(Targets(es, x), n)
  {
    PendingStepIn(es, done, x, n, |es|);
  }

  lemma {:induction false} PendingZeroIn(es: seq<Edge>, done: set<string>, n: string, k: nat)
    requires k <= |es|
    ensures PendingIn(es, done, n, k) == 0 <==> forall i :: 0 <= i < k && es[i].1 == n ==> es[i].0 in done
  {
    if k > 0 {
      PendingZeroIn(es, done, n, k - 1);
    }
  }

  /** Nothing is left of n's in-degree exactly when every producer of an
      edge into n is done. */
  lemma PendingZero(es: seq<Edge>, done: set<string>, n: string)
    ensures Pending(es, done, n) == 0 <==> forall k :: 0 <= k < |es| && es[k].1 == n ==> es[k].0 in done
  {
    PendingZeroIn(es, done, n, |es|);
  }

  lemma {:induction false} TargetsAreConsumersIn(es: seq<Edge>, x: string, t: string, k: nat) returns (i: nat)
    requires k <= |es| && t in TargetsIn(es, x, k)
    ensures i < k && es[i] == (x, t)
  {
    if t in TargetsIn(es, x, k - 1) {
      i := TargetsAreConsumersIn(es, x, t, k - 1);
    } else {
      i := k - 1;
    }
  }

  lemma TargetsAreConsumers(es: seq<Edge>, x: string, t: string) returns (k: nat)
    requires t in Targets(es, x)
    ensures k < |es| && es[k] == (x, t)
  {
    k := TargetsAreConsumersIn(es, x, t, |es|);
  }

  // ----- topologicalSort: the tables -----

  /** `nodeMap` after the first n nodes: each id mapped to the last node
      carrying it. */
  function NodeMapOfFirst(nodes: seq<Node>, n: nat): map<string, Node>
    requires n <= |nodes|
  {
    if n == 0 then map[] else NodeMapOfFirst(nodes, n - 1)[nodes[n - 1].id := nodes[n - 1]]
  }

  lemma {:induction false} NodeMapEntries(nodes: seq<Node>, n: nat)
    requires n <= |nodes|
    ensures NodeMapOfFirst(nodes, n).Keys == IdsOfFirst(nodes, n)
    ensures forall id | id in NodeMapOfFirst(nodes, n) ::
      NodeMapOfFirst(nodes, n)[id].id == id && NodeMapOfFirst(nodes, n)[id] in nodes
  {
    if n > 0 {
      NodeMapEntries(nodes, n - 1);
    }
  }

  /** The initialisation loop (executor.go:250-255): every node id mapped
      to its node, to no targets and to in-degree 0. */
  method InitTables(nodes: seq<Node>)
    returns (adjList: map<string, seq<string>>, inDegree: map<string, int>, nodeMap: map<string, Node>)
    ensures nodeMap == NodeMapOfFirst(nodes, |nodes|)
    ensures adjList.Keys == NodeIds(nodes) && forall x | x in adjList :: adjList[x] == []
    ensures inDegree.Keys == NodeIds(nodes) && forall x | x in inDegree :: inDegree[x] == 0
  {
    adjList, inDegree, nodeMap := map[], map[], map[];
    for i := 0 to |nodes|
      invariant nodeMap == NodeMapOfFirst(nodes, i)
      invariant adjList.Keys == IdsOfFirst(nodes, i) && forall x | x in adjList :: adjList[x] == []
      invariant inDegree.Keys == IdsOfFirst(nodes, i) && forall x | x in inDegree :: inDegree[x] == 0
    {
      var node := nodes[i];
      nodeMap := nodeMap[node.id := node];
      adjList := adjList[node.id := []];
      inDegree := inDegree[node.id := 0];
    }
  }

  /** `adjList` after adding the edges es to init, one append per edge. */
  function AdjTable(init: map<string, seq<string>>, es: seq<Edge>): map<string, seq<string>> {
    if es == [] then init
    else
      var t := AdjTable(init, es[..|es| - 1]);
      var e := es[|es| - 1];
      t[e.0 := (if e.0 in t then t[e.0] else []) + [e.1]]
  }

  /** `inDegree` after adding the edges es to init, one increment of the
      consumer per edge. */
  function DegreeTable(init: map<string, int>, es: seq<Edge>): map<string, int> {
    if es == [] then init
    else
      var t := DegreeTable(init, es[..|es| - 1]);
      var e := es[|es| - 1];
      t[e.1 := (if e.1 in t then t[e.1] else 0) + 1]
  }

  /** The tables describe the edges es: `adjList` holds every producer's
      targets (ids that produce nothing may be missing), `inDegree` every
      node's count of incoming edges. */
  ghost predicate TablesOf(es: seq<Edge>, ids: set<string>,
                           adjList: map<string, seq<string>>, inDegree: map<string, int>)
  {
    && ids <= adjList.Keys
    && (forall x | x in adjList :: adjList[x] == Targets(es, x))
    && (forall x | x !in adjList :: Targets(es, x) == [])
    && inDegree.Keys == ids
    && (forall x | x in inDegree :: inDegree[x] == Pending(es, {}, x))
  }

  /** Starting from the initial tables, the appends and increments build
      tables that describe the edges, as long as every consumer is in ids. */
  lemma TablesOfEdges(es: seq<Edge>, ids: set<string>,
                      adj0: map<string, seq<string>>, deg0: map<string, int>)
    requires adj0.Keys == ids && forall x | x in adj0 :: adj0[x] == []
    requires deg0.Keys == ids && forall x | x in deg0 :: deg0[x] == 0
    requires forall k :: 0 <= k < |es| ==> es[k].1 in ids
    ensures TablesOf(es, ids, AdjTable(adj0, es), DegreeTable(deg0, es))
  {
    AdjTableTargets(es, ids, adj0);
    DegreeTableCounts(es, ids, deg0);
  }

  /** The appends give every producer its targets, in edge order. */
  lemma {:induction false} AdjTableTargets(es: seq<Edge>, ids: set<string>, adj0: map<string, seq<string>>)
    requires adj0.Keys == ids && forall x | x in adj0 :: adj0[x] == []
    ensures ids <= AdjTable(adj0, es).Keys
    ensures forall x | x in AdjTable(adj0, es) :: AdjTable(adj0, es)[x] == Targets(es, x)
    ensures forall x | x !in AdjTable(adj0, es) :: Targets(es, x) == []
  {
    if es != [] {
      var prev := es[..|es| - 1];
      AdjTableTargets(prev, ids, adj0);
      forall x ensures TargetsIn(es, x, |prev|) == Targets(prev, x) {
        TargetsAgree(es, prev, x, |prev|);
      }
    }
  }

  /** The increments give every id its count of incoming edges. */
  lemma {:induction false} DegreeTableCounts(es: seq<Edge>, ids: set<string>, deg0: map<string, int>)
    requires deg0.Keys == ids && forall x | x in deg0 :: deg0[x] == 0
    requires forall k :: 0 <= k < |es| ==> es[k].1 in ids
    ensures DegreeTable(deg0, es).Keys == ids
    ensures forall x | x in DegreeTable(deg0, es) :: DegreeTable(deg0, es)[x] == Pending(es, {}, x)
  {
    if es != [] {
      var prev := es[..|es| - 1];
      DegreeTableCounts(prev, ids, deg0);
      forall x ensures PendingIn(es, {}, x, |prev|) == Pending(prev, {}, x) {
        PendingAgree(es, prev, {}, x, |prev|);
      }
    }
  }

  /** The edge of one binding (executor.go:260-268): none for a flow input
      or a `from` without a dot, otherwise one from the text before the
      first dot. */
  method AddBindingEdge(ghost adj0: map<string, seq<string>>, ghost deg0: map<string, int>, ghost es: seq<Edge>,
                        id: string, input: Input, adjList: map<string, seq<string>>, inDegree: map<string, int>)
    returns (adjList': map<string, seq<string>>, inDegree': map<string, int>)
    requires adjList == AdjTable(adj0, es) && inDegree == DegreeTable(deg0, es) && id in inDegree
    ensures adjList' == AdjTable(adj0, es + BindingEdges(id, input))
    ensures inDegree' == DegreeTable(deg0, es + BindingEdges(id, input))
    ensures inDegree.Keys <= inDegree'.Keys
  {
    adjList', inDegree' := adjList, inDegree;
    ProducerSplits(GoSplitN, input.from);
    if input.from != FlowInput {
      var parts := SplitN2(input.from, '.');
      if |parts| == 2 {
        var sourceNode := parts[0];
        adjList' := adjList[sourceNode := (if sourceNode in adjList then adjList[sourceNode] else []) + [id]];
        inDegree' := inDegree[id := inDegree[id] + 1];
        assert (es + [(sourceNode, id)])[..|es|] == es;
        return;
      }
    }
    assert es + BindingEdges(id, input) == es;
  }

  /** The edges of one node (executor.go:259-269). */
  method AddNodeEdges(ghost adj0: map<string, seq<string>>, ghost deg0: map<string, int>, ghost es: seq<Edge>,
                      node: Node, adjList: map<string, seq<string>>, inDegree: map<string, int>)
    returns (adjList': map<string, seq<string>>, inDegree': map<string, int>)
    requires adjList == AdjTable(adj0, es) && inDegree == DegreeTable(deg0, es) && node.id in inDegree
    ensures adjList' == AdjTable(adj0, es + NodeEdges(node))
    ensures inDegree' == DegreeTable(deg0, es + NodeEdges(node))
    ensures inDegree.Keys <= inDegree'.Keys
  {
    adjList', inDegree' := adjList, inDegree;
    ghost var cur := es;
    assert es + NodeEdgesOfFirst(node, 0) == es;
    for j := 0 to |node.inputs|
      invariant cur == es + NodeEdgesOfFirst(node, j)
      invariant adjList' == AdjTable(adj0, cur) && inDegree' == DegreeTable(deg0, cur) && inDegree.Keys <= inDegree'.Keys
    {
      adjList', inDegree' := AddBindingEdge(adj0, deg0, cur, node.id, node.inputs[j], adjList', inDegree');
      NodeEdgesSnoc(es, node, j);
      cur := cur + BindingEdges(node.id, node.inputs[j]);
    }
  }

  /** Adding the edge of binding j extends the node's edges so far. */
  lemma NodeEdgesSnoc(es: seq<Edge>, node: Node, j: nat)
    requires j < |node.inputs|
    ensures es + NodeEdgesOfFirst(node, j) + BindingEdges(node.id, node.inputs[j]) == es + NodeEdgesOfFirst(node, j + 1)
  {
  }

  /** The tables built from the sort's edges describe them. */
  lemma SortTables(nodes: seq<Node>, adj0: map<string, seq<string>>, deg0: map<string, int>)
    requires adj0.Keys == NodeIds(nodes) && forall x | x in adj0 :: adj0[x] == []
    requires deg0.Keys == NodeIds(nodes) && forall x | x in deg0 :: deg0[x] == 0
    ensures TablesOf(SortEdges(nodes), NodeIds(nodes), AdjTable(adj0, SortEdges(nodes)), DegreeTable(deg0, SortEdges(nodes)))
  {
    forall k | 0 <= k < |SortEdges(nodes)|
      ensures SortEdges(nodes)[k].1 in NodeIds(nodes)
    {
      var i := EdgeSource(nodes, |nodes|, k);
    }
    TablesOfEdges(SortEdges(nodes), NodeIds(nodes), adj0, deg0);
  }

  /** The three tables of topologicalSort (executor.go:245-270). */
  method BuildTables(nodes: seq<Node>)
    returns (adjList: map<string, seq<string>>, inDegree: map<string, int>, nodeMap: map<string, Node>)
    ensures nodeMap == NodeMapOfFirst(nodes, |nodes|)
    ensures TablesOf(SortEdges(nodes), NodeIds(nodes), adjList, inDegree)
  {
    adjList, inDegree, nodeMap := InitTables(nodes);
    ghost var adj0, deg0 := adjList, inDegree;
    for i := 0 to |nodes|
      invariant adjList == AdjTable(adj0, EdgesOfFirst(nodes, i))
      invariant inDegree == DegreeTable(deg0, EdgesOfFirst(nodes, i))
      invariant NodeIds(nodes) <= inDegree.Keys
    {
      adjList, inDegree := AddNodeEdges(adj0, deg0, EdgesOfFirst(nodes, i), nodes[i], adjList, inDegree);
      assert EdgesOfFirst(nodes, i + 1) == EdgesOfFirst(nodes, i) + NodeEdges(nodes[i]);
    }
    SortTables(nodes, adj0, deg0);
  }

  // ----- topologicalSort: Kahn's algorithm -----

  /** Every edge ends at one of the ids. */
  ghost predicate ConsumersIn(es: seq<Edge>, ids: set<string>) {
    forall k :: 0 <= k < |es| ==> es[k].1 in ids
  }

  /** The inner loop's state after the first j targets of an emitted node:
      each in-degree lowered by the edges counted so far, and `added` the
      targets whose in-degree reached 0, each once. */
  ghost predicate DecrementState(es: seq<Edge>, ids: set<string>, done: set<string>, targets: seq<string>, j: nat,
                                 inDegree: map<string, int>, added: seq<string>)
    requires j <= |targets|
  {
    && inDegree.Keys == ids
    && (forall n | n in inDegree :: inDegree[n] == Pending(es, done, n) - OccurrencesIn(targets, n, j))
    && Distinct(added)
    && (forall i :: 0 <= i < |added| ==> added[i] in ids)
    && (forall n | n in ids :: n in added <==>
          OccurrencesIn(targets, n, j) > 0 && Pending(es, done, n) - OccurrencesIn(targets, n, j) == 0)
  }

  lemma DecrementStep(es: seq<Edge>, ids: set<string>, done: set<string>, x: string, targets: seq<string>, j: nat,
                      inDegree: map<string, int>, added: seq<string>)
    requires j < |targets| && targets[j] in ids
    requires x !in done && targets == Targets(es, x)
    requires DecrementState(es, ids, done, targets, j, inDegree, added)
    ensures inDegree[targets[j]] == 1 ==>
      DecrementState(es, ids, done, targets, j + 1, inDegree[targets[j] := 0], added + [targets[j]])
    ensures inDegree[targets[j]] != 1 ==>
      DecrementState(es, ids, done, targets, j + 1, inDegree[targets[j] := inDegree[targets[j]] - 1], added)
  {
    var t := targets[j];
    var m := inDegree[t := inDegree[t] - 1];
    OccurrencesMonotone(targets, j + 1, t);
    PendingStep(es, done, x, t);
    var a := if inDegree[t] == 1 then added + [t] else added;
    forall n | n in ids
      ensures n in a <==> OccurrencesIn(targets, n, j + 1) > 0 && Pending(es, done, n) - OccurrencesIn(targets, n, j + 1) == 0
    {
    }
    assert DecrementState(es, ids, done, targets, j + 1, m, a);
  }

  /** After all targets, the in-degrees are those with x done. */
  lemma DecrementFinish(es: seq<Edge>, ids: set<string>, done: set<string>, x: string, targets: seq<string>,
                        inDegree: map<string, int>, added: seq<string>)
    requires x !in done && targets == Targets(es, x)
    requires DecrementState(es, ids, done, targets, |targets|, inDegree, added)
    ensures inDegree.Keys == ids && forall n | n in inDegree :: inDegree[n] == Pending(es, done + {x}, n)
    ensures forall n | n in ids :: n in added <==> Occurrences(targets, n) > 0 && Pending(es, done + {x}, n) == 0
  {
    forall n ensures Pending(es, done, n) == Pending(es, done + {x}, n) + Occurrences(targets, n) {
      PendingStep(es, done, x, n);
    }
  }

  /** The inner loop (executor.go:286-291): each target of the emitted node x
      loses one unit of in-degree per edge, and a target whose in-degree
      drops to 0 joins the queue. */
  method DecrementTargets(ghost es: seq<Edge>, ghost ids: set<string>, ghost done: set<string>,
                          x: string, targets: seq<string>, inDegree: map<string, int>, queue: seq<string>)
    returns (inDegree': map<string, int>, queue': seq<string>, ghost added: seq<string>)
    requires x !in done && targets == Targets(es, x) && ConsumersIn(es, ids)
    requires inDegree.Keys == ids && forall n | n in inDegree :: inDegree[n] == Pending(es, done, n)
    ensures inDegree'.Keys == ids && forall n | n in inDegree' :: inDegree'[n] == Pending(es, done + {x}, n)
    ensures queue' == queue + added && Distinct(added)
    ensures forall n | n in ids :: n in added <==> Occurrences(targets, n) > 0 && Pending(es, done + {x}, n) == 0
    ensures forall j :: 0 <= j < |added| ==> added[j] in ids
  {
    inDegree', queue', added := inDegree, queue, [];
    for j := 0 to |targets|
      invariant queue' == queue + added
      invariant DecrementState(es, ids, done, targets, j, inDegree', added)
    {
      var neighbor := targets[j];
      var k := TargetsAreConsumers(es, x, neighbor);
      DecrementStep(es, ids, done, x, targets, j, inDegree', added);
      inDegree' := inDegree'[neighbor := inDegree'[neighbor] - 1];
      if inDegree'[neighbor] == 0 {
        queue' := queue' + [neighbor];
        added := added + [neighbor];
      }
    }
    DecrementFinish(es, ids, done, x, targets, inDegree', added);
  }

  /** The initial queue (executor.go:273-278): the ids of in-degree 0, in
      the map's iteration order, which is left open. */
  method InitialQueue(inDegree: map<string, int>) returns (queue: seq<string>)
    ensures Distinct(queue)
    ensures forall n :: n in queue <==> n in inDegree && inDegree[n] == 0
  {
    queue := [];
    var rest := inDegree.Keys;
    while rest != {}
      invariant rest <= inDegree.Keys && Distinct(queue)
      invariant forall n :: n in queue <==> n in inDegree && n !in rest && inDegree[n] == 0
      decreases |rest|
    {
      var nodeID :| nodeID in rest;
      if inDegree[nodeID] == 0 {
        queue := queue + [nodeID];
      }
      rest := rest - {nodeID};
    }
  }

  /** Each in-degree counts the edges from producers outside D. */
  ghost predicate DegreesLeft(es: seq<Edge>, ids: set<string>, inDegree: map<string, int>, D: set<string>) {
    inDegree.Keys == ids && forall n | n in inDegree :: inDegree[n] == Pending(es, D, n)
  }

  /** done lists the emitted ids in order, pos gives each one's place. */
  ghost predicate Numbering(done: seq<string>, pos: map<string, nat>) {
    && |pos.Keys| == |done|
    && (forall i | 0 <= i < |done| :: done[i] in pos && pos[done[i]] == i)
    && (forall n | n in pos :: pos[n] < |done| && done[pos[n]] == n)
  }

  /** The queue holds, once each, exactly the ids not yet emitted whose
      in-degree is 0. */
  ghost predicate Queued(es: seq<Edge>, ids: set<string>, queue: seq<string>, D: set<string>) {
    && D <= ids
    && Distinct(queue)
    && (forall i | 0 <= i < |queue| :: queue[i] in ids && queue[i] !in D)
    && (forall n | n in ids :: (n in D || n in queue) <==> Pending(es, D, n) == 0)
  }

  /** Every edge into an emitted id comes from an id emitted before it. */
  ghost predicate EmittedInOrder(es: seq<Edge>, pos: map<string, nat>) {
    forall k | 0 <= k < |es| && es[k].1 in pos :: es[k].0 in pos && pos[es[k].0] < pos[es[k].1]
  }

  /** The state of the outer loop of Kahn's algorithm, with `done` the ids
      emitted so far in order and `pos` each one's place in it. */
  ghost predicate KahnState(es: seq<Edge>, ids: set<string>, inDegree: map<string, int>, queue: seq<string>,
                            done: seq<string>, pos: map<string, nat>)
  {
    && DegreesLeft(es, ids, inDegree, pos.Keys)
    && Numbering(done, pos)
    && Queued(es, ids, queue, pos.Keys)
    && EmittedInOrder(es, pos)
  }

  lemma KahnStart(es: seq<Edge>, ids: set<string>, inDegree: map<string, int>, queue: seq<string>)
    requires inDegree.Keys == ids && forall x | x in inDegree :: inDegree[x] == Pending(es, {}, x)
    requires Distinct(queue) && forall n :: n in queue <==> n in inDegree && inDegree[n] == 0
    ensures KahnState(es, ids, inDegree, queue, [], map[])
  {
    var none: map<string, nat> := map[];
    assert none.Keys == {};
  }

  lemma NumberingStep(done: seq<string>, pos: map<string, nat>, x: string)
    requires Numbering(done, pos) && x !in pos
    ensures Numbering(done + [x], pos[x := |done|])
  {
    assert pos[x := |done|].Keys == pos.Keys + {x};
  }

  lemma EmittedInOrderStep(es: seq<Edge>, done: seq<string>, pos: map<string, nat>, x: string)
    requires EmittedInOrder(es, pos) && Numbering(done, pos) && x !in pos && Pending(es, pos.Keys, x) == 0
    ensures EmittedInOrder(es, pos[x := |done|])
  {
    PendingZero(es, pos.Keys, x);
  }

  lemma QueuedStep(es: seq<Edge>, ids: set<string>, queue: seq<string>, D: set<string>, added: seq<string>)
    requires Queued(es, ids, queue, D) && queue != []
    requires Distinct(added) && forall j :: 0 <= j < |added| ==> added[j] in ids
    requires forall n | n in ids :: n in added <==>
      Occurrences(Targets(es, queue[0]), n) > 0 && Pending(es, D + {queue[0]}, n) == 0
    ensures Queued(es, ids, queue[1..] + added, D + {queue[0]})
  {
    var x := queue[0];
    var D', queue' := D + {x}, queue[1..] + added;
    forall n ensures Pending(es, D, n) == Pending(es, D', n) + Occurrences(Targets(es, x), n) {
      PendingStep(es, D, x, n);
    }
    forall n | n in added ensures n !in D' && n !in queue[1..] {
      OccursIn(Targets(es, x), n);
      var t := TargetsAreConsumers(es, x, n);
      PendingZero(es, D, n);
    }
    assert Distinct(queue');
  }

  /** One round of the outer loop keeps the state: x leaves the queue and
      is emitted, its targets' in-degrees drop, and those reaching 0 join. */
  lemma KahnStep(es: seq<Edge>, ids: set<string>, inDegree: map<string, int>, queue: seq<string>,
                 done: seq<string>, pos: map<string, nat>,
                 inDegree': map<string, int>, added: seq<string>)
    requires KahnState(es, ids, inDegree, queue, done, pos) && queue != []
    requires DegreesLeft(es, ids, inDegree', pos.Keys + {queue[0]})
    requires Distinct(added) && forall j :: 0 <= j < |added| ==> added[j] in ids
    requires forall n | n in ids :: n in added <==>
      Occurrences(Targets(es, queue[0]), n) > 0 && Pending(es, pos.Keys + {queue[0]}, n) == 0
    ensures KahnState(es, ids, inDegree', queue[1..] + added, done + [queue[0]], pos[queue[0] := |done|])
  {
    var x := queue[0];
    assert x in queue;
    NumberingStep(done, pos, x);
    EmittedInOrderStep(es, done, pos, x);
    QueuedStep(es, ids, queue, pos.Keys, added);
    assert pos[x := |done|].Keys == pos.Keys + {x};
  }

  /** Emitting one more id leaves fewer to emit. */
  lemma EmitShrinks(ids: set<string>, pos: map<string, nat>, x: string, n: nat)
    requires pos.Keys <= ids && x in ids && x !in pos
    ensures |ids - pos[x := n].Keys| < |ids - pos.Keys|
  {
    assert pos[x := n].Keys == pos.Keys + {x};
    Validator.SmallerRemainder(ids, pos.Keys, pos.Keys + {x}, x);
  }

  ghost predicate Emitted(nodeMap: map<string, Node>, done: seq<string>) {
    forall i | 0 <= i < |done| :: done[i] in nodeMap
  }

  ghost function NodesOf(nodeMap: map<string, Node>, done: seq<string>): seq<Node>
    requires Emitted(nodeMap, done)
  {
    if done == [] then [] else NodesOf(nodeMap, done[..|done| - 1]) + [nodeMap[done[|done| - 1]]]
  }

  /** One round of the outer loop (executor.go:281-292): the head of the
      queue is dequeued and emitted, and its targets updated. */
  method EmitNext(ghost es: seq<Edge>, ghost ids: set<string>, adjList: map<string, seq<string>>,
                  nodeMap: map<string, Node>, inDegree: map<string, int>, queue: seq<string>,
                  ghost done: seq<string>, ghost pos: map<string, nat>)
    returns (emitted: Node, inDegree': map<string, int>, queue': seq<string>)
    requires ids <= adjList.Keys && ids <= nodeMap.Keys && ConsumersIn(es, ids)
    requires forall x | x in adjList :: adjList[x] == Targets(es, x)
    requires KahnState(es, ids, inDegree, queue, done, pos) && queue != []
    ensures queue[0] in ids && queue[0] !in pos && emitted == nodeMap[queue[0]]
    ensures KahnState(es, ids, inDegree', queue', done + [queue[0]], pos[queue[0] := |done|])
    ensures |ids - pos[queue[0] := |done|].Keys| < |ids - pos.Keys|
  {
    var nodeID := queue[0];
    assert nodeID in queue;
    emitted := nodeMap[nodeID];
    ghost var added;
    inDegree', queue', added := DecrementTargets(es, ids, pos.Keys, nodeID, adjList[nodeID], inDegree, queue[1..]);
    KahnStep(es, ids, inDegree, queue, done, pos, inDegree', added);
    EmitShrinks(ids, pos, nodeID, |done|);
  }

  /** The outer loop of Kahn's algorithm (executor.go:280-293). */
  method KahnLoop(ghost es: seq<Edge>, ghost ids: set<string>, adjList: map<string, seq<string>>,
                  nodeMap: map<string, Node>, inDegree: map<string, int>, queue: seq<string>)
    returns (result: seq<Node>, ghost done: seq<string>, ghost pos: map<string, nat>)
    requires ids <= adjList.Keys && ids <= nodeMap.Keys && ConsumersIn(es, ids)
    requires forall x | x in adjList :: adjList[x] == Targets(es, x)
    requires KahnState(es, ids, inDegree, queue, [], map[])
    ensures Numbering(done, pos) && Queued(es, ids, [], pos.Keys) && EmittedInOrder(es, pos)
    ensures Emitted(nodeMap, done) && result == NodesOf(nodeMap, done)
  {
    var inDegree, queue := inDegree, queue;
    result, done, pos := [], [], map[];
    while |queue| > 0
      invariant KahnState(es, ids, inDegree, queue, done, pos)
      invariant Emitted(nodeMap, done) && result == NodesOf(nodeMap, done)
      decreases |ids - pos.Keys|
    {
      ghost var nodeID := queue[0];
      var node;
      node, inDegree, queue := EmitNext(es, ids, adjList, nodeMap, inDegree, queue, done, pos);
      NodesOfSnoc(nodeMap, done, nodeID);
      result := result + [node];
      done, pos := done + [nodeID], pos[nodeID := |done|];
    }
  }

  /** Emitting one more id appends its node. */
  lemma NodesOfSnoc(nodeMap: map<string, Node>, done: seq<string>, x: string)
    requires Emitted(nodeMap, done) && x in nodeMap
    ensures Emitted(nodeMap, done + [x])
    ensures NodesOf(nodeMap, done + [x]) == NodesOf(nodeMap, done) + [nodeMap[x]]
  {
    assert (done + [x])[..|done|] == done;
  }

  // ----- topologicalSort: the result -----

  /** A node list Kahn's algorithm orders completely: its ids are unique,
      every producer a binding names is one of its nodes, and some rank
      puts every node above its producers. */
  ghost predicate Schedulable(nodes: seq<Node>) {
    && UniqueIds(nodes)
    && Closed(Adjacency(GoSplitN, nodes))
    && exists rank :: RankedBy(Adjacency(GoSplitN, nodes), rank)
  }

  /** order lists each node once, every node after the producers of its
      bindings. */
  ghost predicate IsExecutionOrder(nodes: seq<Node>, order: seq<Node>) {
    && |order| == |nodes|
    && (forall j | 0 <= j < |order| :: order[j] in nodes)
    && (forall i | 0 <= i < |nodes| :: nodes[i] in order)
    && (forall a, b | 0 <= a < b < |order| :: order[a].id != order[b].id)
    && (forall j, p | 0 <= j < |order| && p in Deps(GoSplitN, order[j].inputs) ::
          exists i :: 0 <= i < j && order[i].id == p)
  }

  lemma SubsetCard(a: set<string>, b: set<string>)
    requires a <= b
    ensures |a| <= |b| && (|a| == |b| ==> a == b)
  {
    assert b == a + (b - a);
  }

  /** With unique ids, nodeMap holds each node under its id. */
  lemma {:induction false} NodeMapOfUnique(nodes: seq<Node>, n: nat, i: nat)
    requires i < n <= |nodes| && UniqueIds(nodes)
    ensures nodes[i].id in NodeMapOfFirst(nodes, n) && NodeMapOfFirst(nodes, n)[nodes[i].id] == nodes[i]
  {
    if i < n - 1 {
      NodeMapOfUnique(nodes, n - 1, i);
    }
  }

  lemma {:induction false} NodesOfIndex(nodeMap: map<string, Node>, done: seq<string>)
    requires Emitted(nodeMap, done)
    ensures |NodesOf(nodeMap, done)| == |done|
    ensures forall j | 0 <= j < |done| :: NodesOf(nodeMap, done)[j] == nodeMap[done[j]]
  {
    if done != [] {
      var prev := done[..|done| - 1];
      assert Emitted(nodeMap, prev);
      NodesOfIndex(nodeMap, prev);
    }
  }

  /** Once every id is emitted, the emission order ranks the graph: each
      producer of a node was emitted before it. */
  lemma EmittedAllRanks(nodes: seq<Node>, pos: map<string, nat>)
    requires UniqueIds(nodes) && pos.Keys == NodeIds(nodes) && EmittedInOrder(SortEdges(nodes), pos)
    ensures Closed(Adjacency(GoSplitN, nodes)) && RankedBy(Adjacency(GoSplitN, nodes), pos)
    ensures forall i, p | 0 <= i < |nodes| && p in Deps(GoSplitN, nodes[i].inputs) ::
      p in pos && pos[p] < pos[nodes[i].id]
  {
    var adj := Adjacency(GoSplitN, nodes);
    AdjacencyOfUnique(GoSplitN, nodes);
    IdsOfFirstMembers(nodes, |nodes|);
    forall i, p | 0 <= i < |nodes| && p in Deps(GoSplitN, nodes[i].inputs)
      ensures p in pos && pos[p] < pos[nodes[i].id]
    {
      var k := EdgeOfDep(nodes, |nodes|, i, p);
    }
    forall id | id in adj
      ensures forall d | d in adj[id] :: d in adj && d in pos && pos[d] < pos[id]
    {
      var i :| 0 <= i < |nodes| && nodes[i].id == id;
    }
  }

  /** The emitted nodes are nodes of the list, with the emitted ids, each
      id once. */
  lemma EmittedNodes(nodes: seq<Node>, nodeMap: map<string, Node>, done: seq<string>, pos: map<string, nat>)
    requires nodeMap == NodeMapOfFirst(nodes, |nodes|)
    requires Numbering(done, pos) && Emitted(nodeMap, done)
    ensures |NodesOf(nodeMap, done)| == |done|
    ensures forall j | 0 <= j < |done| :: NodesOf(nodeMap, done)[j] in nodes && NodesOf(nodeMap, done)[j].id == done[j]
    ensures forall a, b | 0 <= a < b < |done| :: NodesOf(nodeMap, done)[a].id != NodesOf(nodeMap, done)[b].id
  {
    NodesOfIndex(nodeMap, done);
    NodeMapEntries(nodes, |nodes|);
    forall a, b | 0 <= a < b < |done|
      ensures done[a] != done[b]
    {
      assert pos[done[a]] == a && pos[done[b]] == b;
    }
  }

  /** Once every id is emitted with unique ids, every node is emitted. */
  lemma EmittedAllCovers(nodes: seq<Node>, nodeMap: map<string, Node>, done: seq<string>, pos: map<string, nat>)
    requires nodeMap == NodeMapOfFirst(nodes, |nodes|) && UniqueIds(nodes)
    requires Numbering(done, pos) && pos.Keys == NodeIds(nodes)
    requires Emitted(nodeMap, done)
    ensures forall i | 0 <= i < |nodes| :: nodes[i] in NodesOf(nodeMap, done)
  {
    NodesOfIndex(nodeMap, done);
    var order := NodesOf(nodeMap, done);
    forall i | 0 <= i < |nodes|
      ensures nodes[i] in order
    {
      NodeMapOfUnique(nodes, |nodes|, i);
      assert order[pos[nodes[i].id]] == nodes[i];
    }
  }

  /** Each emitted node comes after the producers of its bindings. */
  lemma EmittedAfterProducers(nodes: seq<Node>, nodeMap: map<string, Node>, done: seq<string>, pos: map<string, nat>)
    requires nodeMap == NodeMapOfFirst(nodes, |nodes|)
    requires Numbering(done, pos) && pos.Keys == NodeIds(nodes)
    requires forall i, p | 0 <= i < |nodes| && p in Deps(GoSplitN, nodes[i].inputs) ::
      p in pos && pos[p] < pos[nodes[i].id]
    requires Emitted(nodeMap, done)
    ensures forall j, p | 0 <= j < |NodesOf(nodeMap, done)| && p in Deps(GoSplitN, NodesOf(nodeMap, done)[j].inputs) ::
      exists i :: 0 <= i < j && NodesOf(nodeMap, done)[i].id == p
  {
    NodesOfIndex(nodeMap, done);
    NodeMapEntries(nodes, |nodes|);
    var order := NodesOf(nodeMap, done);
    forall j, p | 0 <= j < |order| && p in Deps(GoSplitN, order[j].inputs)
      ensures exists i :: 0 <= i < j && order[i].id == p
    {
      var i :| 0 <= i < |nodes| && nodes[i] == order[j];
      assert p in Deps(GoSplitN, nodes[i].inputs);
      var k := pos[p];
      assert k < pos[nodes[i].id] == j;
      assert order[k] == nodeMap[p];
    }
  }

  /** Once every id is emitted, the emitted nodes are an execution order. */
  lemma EmittedAllOrders(nodes: seq<Node>, nodeMap: map<string, Node>, done: seq<string>, pos: map<string, nat>)
    requires nodeMap == NodeMapOfFirst(nodes, |nodes|) && UniqueIds(nodes)
    requires Numbering(done, pos) && pos.Keys == NodeIds(nodes) && |done| == |nodes|
    requires forall i, p | 0 <= i < |nodes| && p in Deps(GoSplitN, nodes[i].inputs) ::
      p in pos && pos[p] < pos[nodes[i].id]
    requires Emitted(nodeMap, done)
    ensures IsExecutionOrder(nodes, NodesOf(nodeMap, done))
  {
    EmittedNodes(nodes, nodeMap, done, pos);
    EmittedAllCovers(nodes, nodeMap, done, pos);
    EmittedAfterProducers(nodes, nodeMap, done, pos);
  }

  /** If the loop emitted as many ids as there are nodes, the node list is
      schedulable and the emitted nodes are an execution order. */
  lemma EmittedAllMeansSchedulable(nodes: seq<Node>, nodeMap: map<string, Node>, done: seq<string>, pos: map<string, nat>)
    requires nodeMap == NodeMapOfFirst(nodes, |nodes|)
    requires Numbering(done, pos) && Queued(SortEdges(nodes), NodeIds(nodes), [], pos.Keys)
    requires EmittedInOrder(SortEdges(nodes), pos)
    requires Emitted(nodeMap, done) && |done| == |nodes|
    ensures Schedulable(nodes)
    ensures IsExecutionOrder(nodes, NodesOf(nodeMap, done))
  {
    IdsCount(nodes, |nodes|);
    SubsetCard(pos.Keys, NodeIds(nodes));
    EmittedAllRanks(nodes, pos);
    EmittedAllOrders(nodes, nodeMap, done, pos);
  }

  /** In a schedulable node list, once no id is queued every id has been
      emitted: an id still waiting has an edge from a producer still
      waiting, of lower rank. */
  lemma {:induction false} Drained(nodes: seq<Node>, rank: map<string, nat>, D: set<string>, n: string)
    requires UniqueIds(nodes) && Closed(Adjacency(GoSplitN, nodes)) && RankedBy(Adjacency(GoSplitN, nodes), rank)
    requires Queued(SortEdges(nodes), NodeIds(nodes), [], D)
    requires n in NodeIds(nodes)
    ensures n in D
    decreases rank[n]
  {
    var es := SortEdges(nodes);
    if n !in D {
      PendingZero(es, D, n);
      var k :| 0 <= k < |es| && es[k].1 == n && es[k].0 !in D;
      var i := EdgeSource(nodes, |nodes|, k);
      AdjacencyEntry(GoSplitN, nodes, i);
      Drained(nodes, rank, D, es[k].0);
    }
  }

  lemma SchedulableEmitsAll(nodes: seq<Node>, done: seq<string>, pos: map<string, nat>)
    requires Numbering(done, pos) && Queued(SortEdges(nodes), NodeIds(nodes), [], pos.Keys)
    requires Schedulable(nodes)
    ensures |done| == |nodes|
  {
    var rank :| RankedBy(Adjacency(GoSplitN, nodes), rank);
    forall n | n in NodeIds(nodes)
      ensures n in pos
    {
      Drained(nodes, rank, pos.Keys, n);
    }
    IdsCount(nodes, |nodes|);
    assert pos.Keys == NodeIds(nodes);
  }

  /** A binding that resolves names one of the nodes as its producer. */
  lemma ResolvedProducer(nodes: seq<Node>, from: string, d: string)
    requires Validator.Resolves(nodes, from) && Producer(GoSplitN, from) == Some(d)
    ensures d in NodeIds(nodes)
  {
    ProducerSplits(GoSplitN, from);
  }

  /** Every flow Validate accepts, with the rank its cycle search found,
      is schedulable: the sort that follows cannot fail. */
  lemma ValidFlowSchedulable(flow: Flow, rank: map<string, nat>)
    requires Validator.ValidFlow(flow) && RankedBy(Adjacency(GoSplitN, flow.nodes), rank)
    ensures Schedulable(flow.nodes)
  {
    var nodes := flow.nodes;
    var adj := Adjacency(GoSplitN, nodes);
    AdjacencyOfUnique(GoSplitN, nodes);
    IdsOfFirstMembers(nodes, |nodes|);
    forall id, d | id in adj && d in adj[id]
      ensures d in adj
    {
      var i :| 0 <= i < |nodes| && nodes[i].id == id;
      DepsMembers(GoSplitN, nodes[i].inputs, d);
      var j :| 0 <= j < |nodes[i].inputs| && Producer(GoSplitN, nodes[i].inputs[j].from) == Some(d);
      ResolvedProducer(nodes, nodes[i].inputs[j].from, d);
    }
  }

  /** topologicalSort (executor.go:243-300): Kahn's algorithm over the
      edges of the bindings. It succeeds exactly when the node list is
      schedulable, and then returns the nodes in an execution order. */
  method TopologicalSort(nodes: seq<Node>) returns (r: Result<seq<Node>>)
    ensures r.Success? <==> Schedulable(nodes)
    ensures r.Success? ==> IsExecutionOrder(nodes, r.value)
    ensures r.Failure? ==> r.error == "cycle detected in flow graph"
  {
    var adjList, inDegree, nodeMap := BuildTables(nodes);
    ghost var es, ids := SortEdges(nodes), NodeIds(nodes);
    var queue := InitialQueue(inDegree);
    KahnStart(es, ids, inDegree, queue);
    forall k | 0 <= k < |es|
      ensures es[k].1 in ids
    {
      var i := EdgeSource(nodes, |nodes|, k);
    }
    NodeMapEntries(nodes, |nodes|);
    var result, done, pos := KahnLoop(es, ids, adjList, nodeMap, inDegree, queue);
    NodesOfIndex(nodeMap, done);
    if |result| != |nodes| {
      if Schedulable(nodes) {
        SchedulableEmitsAll(nodes, done, pos);
      }
      return Failure("cycle detected in flow graph");
    }
    EmittedAllMeansSchedulable(nodes, nodeMap, done, pos);
    return Success(result);
  }

  // ----- executeNode: input resolution -----

  /** A value of Go's `any` as the executor passes it on: nil, or text
      (flow inputs from the command line and LLM responses are strings). */
  datatype Value = Nil | Text(text: string)

  /** Why a binding does not resolve. */
  datatype InputError =
    | NotProvided(name: string)
    | InvalidReference(from: string)
    | OutputsNotFound(nodeId: string)
    | OutputNotFound(nodeId: string, outputName: string)

  /** The message executeNode reports for each (executor.go:115, 125, 140, 144). */
  function InputErrorText(e: InputError): (text: string)
    ensures text != []
  {
    match e
    case NotProvided(name) => "flow input not provided: " + name
    case InvalidReference(from) => "invalid input reference: " + from
    case OutputsNotFound(nodeId) => "node outputs not found: " + nodeId
    case OutputNotFound(nodeId, outputName) => "output not found: " + nodeId + "." + outputName
  }

  datatype Resolution<T> = Resolved(value: T) | Unresolved(problem: InputError)

  /** One binding's value (executor.go:110-150): a flow input by the
      binding's name, or a stored output of an earlier node, read as
      "<node id>.<output name>" with SplitN. */
  function ResolveInput(flowInputs: map<string, Value>, nodeOutputs: map<string, map<string, Value>>,
                        input: Input): Resolution<Value>
  {
    if input.from == FlowInput then
      if input.name in flowInputs then Resolved(flowInputs[input.name]) else Unresolved(NotProvided(input.name))
    else match Reference(input.from)
      case None => Unresolved(InvalidReference(input.from))
      case Some((nodeId, outputName)) =>
        if nodeId !in nodeOutputs then Unresolved(OutputsNotFound(nodeId))
        else if outputName !in nodeOutputs[nodeId] then Unresolved(OutputNotFound(nodeId, outputName))
        else Resolved(nodeOutputs[nodeId][outputName])
  }

  /** The input data of the first n bindings, or the problem with the first
      binding that does not resolve. */
  function InputDataOfFirst(flowInputs: map<string, Value>, nodeOutputs: map<string, map<string, Value>>,
                            inputs: seq<Input>, n: nat): Resolution<map<string, Value>>
    requires n <= |inputs|
  {
    if n == 0 then Resolved(map[])
    else match InputDataOfFirst(flowInputs, nodeOutputs, inputs, n - 1)
      case Unresolved(e) => Unresolved(e)
      case Resolved(data) =>
        match ResolveInput(flowInputs, nodeOutputs, inputs[n - 1])
        case Unresolved(e) => Unresolved(e)
        case Resolved(v) => Resolved(data[inputs[n - 1].name := v])
  }

  function InputData(flowInputs: map<string, Value>, nodeOutputs: map<string, map<string, Value>>,
                     inputs: seq<Input>): Resolution<map<string, Value>>
  {
    InputDataOfFirst(flowInputs, nodeOutputs, inputs, |inputs|)
  }

  /** The data is built exactly when every binding resolves. */
  lemma {:induction false} InputDataSucceeds(flowInputs: map<string, Value>, nodeOutputs: map<string, map<string, Value>>,
                                             inputs: seq<Input>, n: nat)
    requires n <= |inputs|
    ensures InputDataOfFirst(flowInputs, nodeOutputs, inputs, n).Resolved? <==>
      forall j :: 0 <= j < n ==> ResolveInput(flowInputs, nodeOutputs, inputs[j]).Resolved?
  {
    if n > 0 {
      InputDataSucceeds(flowInputs, nodeOutputs, inputs, n - 1);
    }
  }

  /** The data has a key for each binding's name, and no other. */
  lemma {:induction false} InputDataKeys(flowInputs: map<string, Value>, nodeOutputs: map<string, map<string, Value>>,
                                         inputs: seq<Input>, n: nat)
    requires n <= |inputs| && InputDataOfFirst(flowInputs, nodeOutputs, inputs, n).Resolved?
    ensures InputDataOfFirst(flowInputs, nodeOutputs, inputs, n).value.Keys == Validator.InputNamesOfFirst(inputs, n)
  {
    if n > 0 {
      InputDataKeys(flowInputs, nodeOutputs, inputs, n - 1);
    }
  }

  /** A name holds the value of the last binding with that name. */
  lemma {:induction false} InputDataValue(flowInputs: map<string, Value>, nodeOutputs: map<string, map<string, Value>>,
                                          inputs: seq<Input>, n: nat, j: nat)
    requires j < n <= |inputs| && InputDataOfFirst(flowInputs, nodeOutputs, inputs, n).Resolved?
    requires forall k :: j < k < n ==> inputs[k].name != inputs[j].name
    ensures inputs[j].name in InputDataOfFirst(flowInputs, nodeOutputs, inputs, n).value
    ensures ResolveInput(flowInputs, nodeOutputs, inputs[j]).Resolved?
    ensures InputDataOfFirst(flowInputs, nodeOutputs, inputs, n).value[inputs[j].name]
              == ResolveInput(flowInputs, nodeOutputs, inputs[j]).value
  {
    if j < n - 1 {
      InputDataValue(flowInputs, nodeOutputs, inputs, n - 1, j);
    }
  }

  /** On failure the problem is that of the first binding that does not
      resolve; all bindings before it resolve. */
  lemma {:induction false} InputDataFails(flowInputs: map<string, Value>, nodeOutputs: map<string, map<string, Value>>,
                                          inputs: seq<Input>, n: nat) returns (j: nat)
    requires n <= |inputs| && InputDataOfFirst(flowInputs, nodeOutputs, inputs, n).Unresolved?
    ensures j < n && ResolveInput(flowInputs, nodeOutputs, inputs[j]).Unresolved?
    ensures forall k :: 0 <= k < j ==> ResolveInput(flowInputs, nodeOutputs, inputs[k]).Resolved?
    ensures InputDataOfFirst(flowInputs, nodeOutputs, inputs, n).problem == ResolveInput(flowInputs, nodeOutputs, inputs[j]).problem
  {
    if InputDataOfFirst(flowInputs, nodeOutputs, inputs, n - 1).Unresolved? {
      j := InputDataFails(flowInputs, nodeOutputs, inputs, n - 1);
    } else {
      j := n - 1;
      InputDataSucceeds(flowInputs, nodeOutputs, inputs, n - 1);
    }
  }

  lemma {:induction false} InputDataSticks(flowInputs: map<string, Value>, nodeOutputs: map<string, map<string, Value>>,
                                           inputs: seq<Input>, m: nat, n: nat)
    requires m <= n <= |inputs| && InputDataOfFirst(flowInputs, nodeOutputs, inputs, m).Unresolved?
    ensures InputDataOfFirst(flowInputs, nodeOutputs, inputs, n) == InputDataOfFirst(flowInputs, nodeOutputs, inputs, m)
    decreases n - m
  {
    if m < n {
      InputDataSticks(flowInputs, nodeOutputs, inputs, m, n - 1);
    }
  }

  /** The executor's result for a resolution: the data, or the message. */
  function AsResult<T>(r: Resolution<T>): Result<T> {
    match r
    case Resolved(v) => Success(v)
    case Unresolved(e) => Failure(InputErrorText(e))
  }

  /** The checks of one binding in executeNode (executor.go:110-150),
      step by step: the imperative twin of ResolveInput, which it is
      proved equal to and which the lemmas are about. */
  method ResolveBinding(flowInputs: map<string, Value>, nodeOutputs: map<string, map<string, Value>>, input: Input)
    returns (r: Result<Value>)
    ensures r == AsResult(ResolveInput(flowInputs, nodeOutputs, input))
  {
    if input.from == FlowInput {
      if input.name in flowInputs {
        return Success(flowInputs[input.name]);
      }
      return Failure("flow input not provided: " + input.name);
    }
    var parts := SplitN2(input.from, '.');
    ReferenceSplits(input.from);
    if |parts| != 2 {
      return Failure("invalid input reference: " + input.from);
    }
    var nodeId, outputName := parts[0], parts[1];
    if nodeId in nodeOutputs {
      if outputName in nodeOutputs[nodeId] {
        return Success(nodeOutputs[nodeId][outputName]);
      }
      return Failure("output not found: " + nodeId + "." + outputName);
    }
    return Failure("node outputs not found: " + nodeId);
  }

  /** The input loop of executeNode (executor.go:108-151), returning at the
      first binding that does not resolve. */
  method ResolveInputs(flowInputs: map<string, Value>, nodeOutputs: map<string, map<string, Value>>, inputs: seq<Input>)
    returns (r: Result<map<string, Value>>)
    ensures r == AsResult(InputData(flowInputs, nodeOutputs, inputs))
  {
    var inputData: map<string, Value> := map[];
    for j := 0 to |inputs|
      invariant InputDataOfFirst(flowInputs, nodeOutputs, inputs, j) == Resolved(inputData)
    {
      var value := ResolveBinding(flowInputs, nodeOutputs, inputs[j]);
      if value.Failure? {
        InputDataSticks(flowInputs, nodeOutputs, inputs, j + 1, |inputs|);
        return Failure(value.error);
      }
      inputData := inputData[inputs[j].name := value.value];
    }
    return Success(inputData);
  }

  // ----- executeLLMNode -----

  /** Token counts of one node's completion; the float costs are not part
      of the model. */
  datatype Metrics = Metrics(inputTokens: int, outputTokens: int)

  datatype CompletionRequest = CompletionRequest(prompt: string, model: string)
  datatype Completion = Completion(content: string, inputTokens: int, outputTokens: int)

  /** What text/template makes of a node's prompt and input data. */
  datatype Rendering = Rendered(prompt: string) | ParseFailed(message: string) | ExecFailed(message: string)

  /** The calls the executor makes into code outside the model: rendering a
      node's prompt template with its input data, and a provider's
      Complete. */
  datatype Services = Services(render: (Node, map<string, Value>) -> Rendering,
                               complete: (Providers.Provider, CompletionRequest) -> Result<Completion>)

  /** What stays fixed while a flow runs: the outside calls, the registry's
      table, the flow's configuration and the flow inputs. */
  datatype RunEnv = RunEnv(services: Services, providers: map<string, Providers.Provider>,
                           config: Config, flowInputs: map<string, Value>)

  /** The provider a node asks: its own, else the flow's default. */
  function ProviderName(config: Config, node: Node): string {
    if node.provider == "" then config.defaultProvider else node.provider
  }

  /** The model a node asks for: its own, else the flow's default. */
  function ModelName(config: Config, node: Node): string {
    if node.model == "" then config.defaultModel else node.model
  }

  /** The outputs of a completed LLM node (executor.go:226-231). */
  function LLMOutputs(node: Node, content: string): (outputs: map<string, Value>)
    ensures |node.outputs| == 0 ==> outputs == map[]
    ensures |node.outputs| > 0 ==>
      outputs.Keys == {node.outputs[0].name} && outputs[node.outputs[0].name] == Text(content)
  {
    if |node.outputs| > 0 then map[node.outputs[0].name := Text(content)] else map[]
  }

  /** executeLLMNode (executor.go:171-241): render the prompt, pick the
      provider and the model, call the provider, and build the outputs and
      metrics; each step's failure is reported with its own message. */
  function LLMNode(env: RunEnv, node: Node, data: map<string, Value>): Result<(map<string, Value>, Metrics)> {
    match env.services.render(node, data)
    case ParseFailed(m) => Failure("failed to parse prompt template: " + m)
    case ExecFailed(m) => Failure("failed to execute prompt template: " + m)
    case Rendered(prompt) =>
      var providerName := ProviderName(env.config, node);
      if providerName == "" then Failure("no provider specified for node and no default provider set")
      else if providerName !in env.providers then Failure("provider not found: " + providerName)
      else
        var model := ModelName(env.config, node);
        if model == "" then Failure("no model specified for node and no default model set")
        else match env.services.complete(env.providers[providerName], CompletionRequest(prompt, model))
          case Failure(m) => Failure("LLM call failed: " + m)
          case Success(resp) =>
            Success((LLMOutputs(node, resp.content), Metrics(resp.inputTokens, resp.outputTokens)))
  }

  /** executeLLMNode, asking the registry for the provider: the
      imperative twin of LLMNode, which it is proved equal to and which
      the lemmas are about. */
  method ExecuteLLMNode(services: Services, registry: Providers.Registry, config: Config, flowInputs: map<string, Value>,
                        node: Node, data: map<string, Value>)
    returns (r: Result<(map<string, Value>, Metrics)>)
    ensures r == LLMNode(RunEnv(services, registry.providers, config, flowInputs), node, data)
  {
    var prompt;
    match services.render(node, data) {
      case ParseFailed(m) => return Failure("failed to parse prompt template: " + m);
      case ExecFailed(m) => return Failure("failed to execute prompt template: " + m);
      case Rendered(p) => prompt := p;
    }
    var providerName := node.provider;
    if providerName == "" {
      providerName := config.defaultProvider;
    }
    if providerName == "" {
      return Failure("no provider specified for node and no default provider set");
    }
    var provider, ok := registry.Get(providerName);
    if !ok {
      return Failure("provider not found: " + providerName);
    }
    var model := node.model;
    if model == "" {
      model := config.defaultModel;
    }
    if model == "" {
      return Failure("no model specified for node and no default model set");
    }
    var resp := services.complete(provider.value, CompletionRequest(prompt, model));
    if resp.Failure? {
      return Failure("LLM call failed: " + resp.error);
    }
    var outputs: map<string, Value> := map[];
    if |node.outputs| > 0 {
      outputs := outputs[node.outputs[0].name := Text(resp.value.content)];
    }
    return Success((outputs, Metrics(resp.value.inputTokens, resp.value.outputTokens)));
  }

  /** A node that names its provider and model ignores the flow's
      defaults. */
  lemma OwnChoiceIgnoresDefaults(env: RunEnv, node: Node, data: map<string, Value>, config': Config)
    requires node.provider != "" && node.model != ""
    ensures LLMNode(env, node, data) == LLMNode(env.(config := config'), node, data)
  {
  }

  /** A successful LLM node's outputs are the response under the first
      declared output name, and nothing else. */
  lemma LLMNodeOutputs(env: RunEnv, node: Node, data: map<string, Value>)
    requires LLMNode(env, node, data).Success?
    ensures exists content :: LLMNode(env, node, data).value.0 == LLMOutputs(node, content)
  {
    var prompt := env.services.render(node, data).prompt;
    var providerName := ProviderName(env.config, node);
    var resp := env.services.complete(env.providers[providerName], CompletionRequest(prompt, ModelName(env.config, node)));
    assert LLMNode(env, node, data).value.0 == LLMOutputs(node, resp.value.content);
  }

  /** Every way an LLM node fails comes with a message. */
  lemma LLMNodeFailureReported(env: RunEnv, node: Node, data: map<string, Value>)
    requires LLMNode(env, node, data).Failure?
    ensures LLMNode(env, node, data).error != ""
  {
    match env.services.render(node, data)
    case ParseFailed(m) =>
    case ExecFailed(m) =>
    case Rendered(prompt) =>
      var providerName := ProviderName(env.config, node);
      if providerName != "" && providerName in env.providers && ModelName(env.config, node) != "" {
        var resp := env.services.complete(env.providers[providerName], CompletionRequest(prompt, ModelName(env.config, node)));
        assert resp.Failure?;
        assert LLMNode(env, node, data).error == "LLM call failed: " + resp.error;
      }
  }

  // ----- executeNode -----

  /** What executeNode records for a node. On failure the outputs are
      empty and the metrics zero. */
  datatype NodeResult = NodeResult(nodeId: string, success: bool, error: string,
                                   outputs: map<string, Value>, metrics: Metrics)

  /** executeNode (executor.go:91-169): resolve the inputs, then run the
      node as an LLM node. */
  function NodeOutcome(env: RunEnv, nodeOutputs: map<string, map<string, Value>>, node: Node): NodeResult {
    match AsResult(InputData(env.flowInputs, nodeOutputs, node.inputs))
    case Failure(e) => NodeResult(node.id, false, e, map[], Metrics(0, 0))
    case Success(data) =>
      match LLMNode(env, node, data)
      case Failure(e) => NodeResult(node.id, false, e, map[], Metrics(0, 0))
      case Success((outputs, metrics)) => NodeResult(node.id, true, "", outputs, metrics)
  }

  /** A node result carries the node's id; it fails exactly when it has an
      error message, and then has no outputs; a successful node has at most
      the first declared output. */
  lemma NodeOutcomeShape(env: RunEnv, nodeOutputs: map<string, map<string, Value>>, node: Node)
    ensures NodeOutcome(env, nodeOutputs, node).nodeId == node.id
    ensures NodeOutcome(env, nodeOutputs, node).success <==> NodeOutcome(env, nodeOutputs, node).error == ""
    ensures !NodeOutcome(env, nodeOutputs, node).success ==> NodeOutcome(env, nodeOutputs, node).outputs == map[]
    ensures NodeOutcome(env, nodeOutputs, node).success ==>
      exists content :: NodeOutcome(env, nodeOutputs, node).outputs == LLMOutputs(node, content)
  {
    var inputs := InputData(env.flowInputs, nodeOutputs, node.inputs);
    if inputs.Resolved? {
      if LLMNode(env, node, inputs.value).Success? {
        LLMNodeOutputs(env, node, inputs.value);
      } else {
        LLMNodeFailureReported(env, node, inputs.value);
      }
    }
  }

  /** executeNode, with the input loop and the LLM call as methods: the
      imperative twin of NodeOutcome, which it is proved equal to and
      which the run lemmas are about. */
  method ExecuteNode(services: Services, registry: Providers.Registry, config: Config, flowInputs: map<string, Value>,
                     nodeOutputs: map<string, map<string, Value>>, node: Node)
    returns (result: NodeResult)
    ensures result == NodeOutcome(RunEnv(services, registry.providers, config, flowInputs), nodeOutputs, node)
  {
    var inputData := ResolveInputs(flowInputs, nodeOutputs, node.inputs);
    if inputData.Failure? {
      return NodeResult(node.id, false, inputData.error, map[], Metrics(0, 0));
    }
    var output := ExecuteLLMNode(services, registry, config, flowInputs, node, inputData.value);
    if output.Failure? {
      return NodeResult(node.id, false, output.error, map[], Metrics(0, 0));
    }
    return NodeResult(node.id, true, "", output.value.0, output.value.1);
  }

  // ----- Execute: running the nodes -----

  /** Running one node: its result, from the outputs stored so far. */
  type Step = (map<string, map<string, Value>>, Node) -> NodeResult

  /** executeNode as a step of Execute's loop. */
  function NodeStep(env: RunEnv): Step {
    (nodeOutputs: map<string, map<string, Value>>, node: Node) => NodeOutcome(env, nodeOutputs, node)
  }

  /** A step reports like executeNode: its result carries the node's id,
      fails exactly when it has an error message, and then has no
      outputs. */
  ghost predicate Reports(step: Step) {
    forall nodeOutputs, node ::
      && step(nodeOutputs, node).nodeId == node.id
      && (step(nodeOutputs, node).success <==> step(nodeOutputs, node).error == "")
      && (!step(nodeOutputs, node).success ==> step(nodeOutputs, node).outputs == map[])
  }

  /** A step stores like executeLLMNode: a successful node's outputs are a
      response under its first declared output name. */
  ghost predicate KeepsFirstOutput(step: Step) {
    forall nodeOutputs, node | step(nodeOutputs, node).success ::
      exists content :: step(nodeOutputs, node).outputs == LLMOutputs(node, content)
  }

  /** executeNode reports and stores as Execute expects. */
  lemma NodeStepShaped(env: RunEnv)
    ensures Reports(NodeStep(env)) && KeepsFirstOutput(NodeStep(env))
  {
    forall nodeOutputs, node {
      NodeOutcomeShape(env, nodeOutputs, node);
    }
  }

  /** The node that stopped a run, and its error. */
  datatype NodeFailure = NodeFailure(id: string, error: string)

  /** Execute's loop state: the node results so far, the outputs stored per
      node id, and the failure that ended the loop, if any. */
  datatype Progress = Progress(nodeResults: seq<NodeResult>, nodeOutputs: map<string, map<string, Value>>,
                               failed: Option<NodeFailure>)

  /** Running the first n nodes of an order (executor.go:60-73): each node
      is executed against the outputs stored so far; a successful node's
      outputs are stored under its id, and the first failure ends the run
      with its result recorded. */
  function RunOfFirst(step: Step, order: seq<Node>, n: nat): Progress
    requires n <= |order|
  {
    if n == 0 then Progress([], map[], None)
    else
      var p := RunOfFirst(step, order, n - 1);
      if p.failed.Some? then p
      else
        var r := step(p.nodeOutputs, order[n - 1]);
        if r.success then Progress(p.nodeResults + [r], p.nodeOutputs[order[n - 1].id := r.outputs], None)
        else Progress(p.nodeResults + [r], p.nodeOutputs, Some(NodeFailure(order[n - 1].id, r.error)))
  }

  /** One more node of a run that has not failed: its result is recorded,
      and its outputs stored when it succeeds. */
  lemma RunStep(step: Step, order: seq<Node>, i: nat, nodeResults: seq<NodeResult>,
                nodeOutputs: map<string, map<string, Value>>, r: NodeResult)
    requires i < |order| && RunOfFirst(step, order, i) == Progress(nodeResults, nodeOutputs, None)
    requires r == step(nodeOutputs, order[i])
    ensures r.success ==>
      RunOfFirst(step, order, i + 1) == Progress(nodeResults + [r], nodeOutputs[order[i].id := r.outputs], None)
    ensures !r.success ==>
      RunOfFirst(step, order, i + 1) == Progress(nodeResults + [r], nodeOutputs, Some(NodeFailure(order[i].id, r.error)))
  {
  }

  /** Once a run has failed, running more nodes changes nothing. */
  lemma {:induction false} RunSticks(step: Step, order: seq<Node>, n: nat, m: nat)
    requires n <= m <= |order| && RunOfFirst(step, order, n).failed.Some?
    ensures RunOfFirst(step, order, m) == RunOfFirst(step, order, n)
  {
    if n < m {
      RunSticks(step, order, n, m - 1);
    }
  }

  /** A run records one result per node it ran: every node when nothing
      failed, and never more. */
  lemma {:induction false} RunLength(step: Step, order: seq<Node>, n: nat)
    requires n <= |order|
    ensures |RunOfFirst(step, order, n).nodeResults| <= n
    ensures RunOfFirst(step, order, n).failed.None? ==> |RunOfFirst(step, order, n).nodeResults| == n
  {
    if n > 0 {
      RunLength(step, order, n - 1);
    }
  }

  /** The i-th result of a run is node i's outcome against the outputs
      stored before it. */
  lemma {:induction false} RunResult(step: Step, order: seq<Node>, n: nat, i: nat)
    requires n <= |order| && i < |RunOfFirst(step, order, n).nodeResults|
    ensures i < n && RunOfFirst(step, order, n).nodeResults[i] == step(RunOfFirst(step, order, i).nodeOutputs, order[i])
  {
    RunLength(step, order, n);
    var p := RunOfFirst(step, order, n - 1);
    RunLength(step, order, n - 1);
    if p.failed.Some? || i < n - 1 {
      RunResult(step, order, n - 1, i);
    }
  }

  /** Every node a run recorded succeeded, except the last one when the
      run failed. */
  lemma {:induction false} RunSuccess(step: Step, order: seq<Node>, n: nat, i: nat)
    requires n <= |order| && i < |RunOfFirst(step, order, n).nodeResults|
    ensures RunOfFirst(step, order, n).nodeResults[i].success <==>
      RunOfFirst(step, order, n).failed.None? || i < |RunOfFirst(step, order, n).nodeResults| - 1
  {
    RunLength(step, order, n);
    var p := RunOfFirst(step, order, n - 1);
    RunLength(step, order, n - 1);
    if p.failed.Some? || i < n - 1 {
      RunSuccess(step, order, n - 1, i);
    }
  }

  /** A failed run reports the last node it ran, with that node's error,
      which is never empty. */
  lemma {:induction false} RunFailure(step: Step, order: seq<Node>, n: nat)
    requires n <= |order| && Reports(step) && RunOfFirst(step, order, n).failed.Some?
    ensures 0 < |RunOfFirst(step, order, n).nodeResults| <= n
    ensures var results := RunOfFirst(step, order, n).nodeResults;
      && RunOfFirst(step, order, n).failed.value == NodeFailure(order[|results| - 1].id, results[|results| - 1].error)
      && results[|results| - 1].error != ""
  {
    RunLength(step, order, n);
    var p := RunOfFirst(step, order, n - 1);
    if p.failed.Some? {
      RunFailure(step, order, n - 1);
    } else {
      RunLength(step, order, n - 1);
    }
  }

  /** After a run without failure, outputs are stored for exactly the ids
      of the nodes run. */
  lemma {:induction false} RunStoredIds(step: Step, order: seq<Node>, n: nat)
    requires n <= |order| && RunOfFirst(step, order, n).failed.None?
    ensures forall id :: id in RunOfFirst(step, order, n).nodeOutputs <==> exists i :: 0 <= i < n && order[i].id == id
  {
    if n > 0 {
      RunStoredIds(step, order, n - 1);
    }
  }

  /** After a run without failure, an id holds the outputs of the last node
      run that carries it. */
  lemma {:induction false} RunStoredOutputs(step: Step, order: seq<Node>, n: nat, i: nat)
    requires n <= |order| && RunOfFirst(step, order, n).failed.None?
    requires i < n && forall k | i < k < n :: order[k].id != order[i].id
    ensures i < |RunOfFirst(step, order, n).nodeResults| && order[i].id in RunOfFirst(step, order, n).nodeOutputs
    ensures RunOfFirst(step, order, n).nodeOutputs[order[i].id] == RunOfFirst(step, order, n).nodeResults[i].outputs
  {
    RunLength(step, order, n);
    RunLength(step, order, n - 1);
    if i < n - 1 {
      RunStoredOutputs(step, order, n - 1, i);
    }
  }

  /** A node run successfully before position k has its outputs stored; a
      name missing from them is not its first declared output. */
  lemma StoredProducer(step: Step, order: seq<Node>, k: nat, i: nat, name: string)
    requires k <= |order| && KeepsFirstOutput(step) && RunOfFirst(step, order, k).failed.None?
    requires i < k && forall a, b | 0 <= a < b < |order| :: order[a].id != order[b].id
    ensures order[i].id in RunOfFirst(step, order, k).nodeOutputs
    ensures name !in RunOfFirst(step, order, k).nodeOutputs[order[i].id] ==>
      |order[i].outputs| == 0 || order[i].outputs[0].name != name
  {
    RunStoredOutputs(step, order, k, i);
    RunResult(step, order, k, i);
    RunSuccess(step, order, k, i);
  }

  /** Every binding of a node of a validated flow resolves. */
  lemma BindingResolves(flow: Flow, node: Node, j: nat)
    requires Validator.ValidFlow(flow) && node in flow.nodes && j < |node.inputs|
    ensures Validator.Resolves(flow.nodes, node.inputs[j].from)
  {
    var k0 :| 0 <= k0 < |flow.nodes| && flow.nodes[k0] == node;
    assert Validator.Resolves(flow.nodes, flow.nodes[k0].inputs[j].from);
  }

  /** With unique ids, the node a resolved reference names declares the
      output it reads. */
  lemma ReferenceDeclared(nodes: seq<Node>, from: string, node: Node)
    requires UniqueIds(nodes) && from != FlowInput && Validator.Resolves(nodes, from)
    requires node in nodes && node.id == Reference(from).value.0
    ensures Reference(from).value.1 in Validator.OutputNames(node)
  {
    var iR :| 0 <= iR < |nodes| && Validator.LastWithId(nodes, |nodes|, iR) &&
      nodes[iR].id == Reference(from).value.0 && Reference(from).value.1 in Validator.OutputNames(nodes[iR]);
    var i1 :| 0 <= i1 < |nodes| && nodes[i1] == node;
    assert i1 == iR;
  }

  /** In an execution order, the producer of a binding comes before the
      binding's node. */
  lemma ProducerBefore(nodes: seq<Node>, order: seq<Node>, k: nat, j: nat)
    requires IsExecutionOrder(nodes, order) && k < |order| && j < |order[k].inputs|
    requires Producer(GoSplitN, order[k].inputs[j].from).Some?
    ensures exists i :: 0 <= i < k && order[i].id == Producer(GoSplitN, order[k].inputs[j].from).value
  {
    DepsInclude(GoSplitN, order[k].inputs, |order[k].inputs|, j);
    assert Producer(GoSplitN, order[k].inputs[j].from).value in Deps(GoSplitN, order[k].inputs);
  }

  /** In a validated flow in an execution order, a binding that is not a
      flow input reads "<id>.<output>" of a node scheduled earlier that
      declares that output. */
  lemma ProducerScheduledBefore(flow: Flow, order: seq<Node>, k: nat, j: nat)
    requires Validator.ValidFlow(flow) && IsExecutionOrder(flow.nodes, order)
    requires k < |order| && j < |order[k].inputs| && order[k].inputs[j].from != FlowInput
    ensures Reference(order[k].inputs[j].from).Some?
    ensures exists i ::
      && 0 <= i < k && order[i].id == Reference(order[k].inputs[j].from).value.0
      && Reference(order[k].inputs[j].from).value.1 in Validator.OutputNames(order[i])
  {
    var from := order[k].inputs[j].from;
    BindingResolves(flow, order[k], j);
    assert Producer(GoSplitN, from) == Some(Reference(from).value.0);
    ProducerBefore(flow.nodes, order, k, j);
    var i :| 0 <= i < k && order[i].id == Reference(from).value.0;
    ReferenceDeclared(flow.nodes, from, order[i]);
  }

  /** In a validated flow run in an execution order, a binding of a node
      reached without failure fails to resolve for two reasons only: a
      missing flow input, or an output its producer declares but does not
      store because it is not the producer's first output. References and
      producers never go missing. */
  lemma ScheduledInputResolves(env: RunEnv, flow: Flow, order: seq<Node>, k: nat, j: nat)
    requires Validator.ValidFlow(flow) && IsExecutionOrder(flow.nodes, order)
    requires k < |order| && j < |order[k].inputs|
    requires RunOfFirst(NodeStep(env), order, k).failed.None?
    ensures var r := ResolveInput(env.flowInputs, RunOfFirst(NodeStep(env), order, k).nodeOutputs, order[k].inputs[j]);
      r.Unresolved? ==>
        || (r.problem.NotProvided? && order[k].inputs[j].from == FlowInput)
        || (r.problem.OutputNotFound? &&
            exists i :: 0 <= i < k && order[i].id == r.problem.nodeId &&
              r.problem.outputName in Validator.OutputNames(order[i]) &&
              0 < |order[i].outputs| && order[i].outputs[0].name != r.problem.outputName)
  {
    var from := order[k].inputs[j].from;
    if from != FlowInput {
      ProducerScheduledBefore(flow, order, k, j);
      var i :| 0 <= i < k && order[i].id == Reference(from).value.0 &&
        Reference(from).value.1 in Validator.OutputNames(order[i]);
      NodeStepShaped(env);
      StoredProducer(NodeStep(env), order, k, i, Reference(from).value.1);
    }
  }

  /** Execute's loop over the execution order (executor.go:57-73); a node
      whose result is unsuccessful is the one whose executeNode returned an
      error. */
  method RunNodes(services: Services, registry: Providers.Registry, config: Config, flowInputs: map<string, Value>,
                  order: seq<Node>)
    returns (p: Progress)
    ensures p == RunOfFirst(NodeStep(RunEnv(services, registry.providers, config, flowInputs)), order, |order|)
  {
    ghost var step := NodeStep(RunEnv(services, registry.providers, config, flowInputs));
    var nodeResults: seq<NodeResult> := [];
    var nodeOutputs: map<string, map<string, Value>> := map[];
    for i := 0 to |order|
      invariant RunOfFirst(step, order, i) == Progress(nodeResults, nodeOutputs, None)
    {
      var nodeResult := ExecuteNode(services, registry, config, flowInputs, nodeOutputs, order[i]);
      RunStep(step, order, i, nodeResults, nodeOutputs, nodeResult);
      nodeResults := nodeResults + [nodeResult];
      if !nodeResult.success {
        p := Progress(nodeResults, nodeOutputs, Some(NodeFailure(order[i].id, nodeResult.error)));
        RunSticks(step, order, i + 1, |order|);
        return;
      }
      nodeOutputs := nodeOutputs[order[i].id := nodeResult.outputs];
    }
    return Progress(nodeResults, nodeOutputs, None);
  }

  // ----- Execute: collecting the flow outputs -----

  /** (node id, output name) of each of the first m outputs of a node that
      go to the flow ("to": "output"). */
  function FlowOutputsOfNode(node: Node, m: nat): seq<(string, string)>
    requires m <= |node.outputs|
  {
    if m == 0 then []
    else
      var ref := if node.outputs[m - 1].to == FlowOutput then [(node.id, node.outputs[m - 1].name)] else [];
      FlowOutputsOfNode(node, m - 1) + ref
  }

  /** The flow outputs of the first n nodes, node by node. */
  function FlowOutputsOfFirst(nodes: seq<Node>, n: nat): seq<(string, string)>
    requires n <= |nodes|
  {
    if n == 0 then [] else FlowOutputsOfFirst(nodes, n - 1) + FlowOutputsOfNode(nodes[n - 1], |nodes[n - 1].outputs|)
  }

  function FlowOutputs(nodes: seq<Node>): seq<(string, string)> {
    FlowOutputsOfFirst(nodes, |nodes|)
  }

  /** `nodeOutputs[id][name]` as Go reads it: nil when the node stored no
      outputs or not that one. */
  function Stored(nodeOutputs: map<string, map<string, Value>>, ref: (string, string)): Value {
    if ref.0 in nodeOutputs && ref.1 in nodeOutputs[ref.0] then nodeOutputs[ref.0][ref.1] else Nil
  }

  /** The flow's outputs after assigning each reference's stored value to
      its name, in turn. */
  function Collected(nodeOutputs: map<string, map<string, Value>>, refs: seq<(string, string)>): map<string, Value>
    decreases |refs|
  {
    if refs == [] then map[]
    else Collected(nodeOutputs, refs[..|refs| - 1])[refs[|refs| - 1].1 := Stored(nodeOutputs, refs[|refs| - 1])]
  }

  lemma CollectedSnoc(nodeOutputs: map<string, map<string, Value>>, refs: seq<(string, string)>, ref: (string, string))
    ensures Collected(nodeOutputs, refs + [ref]) == Collected(nodeOutputs, refs)[ref.1 := Stored(nodeOutputs, ref)]
  {
    assert (refs + [ref])[..|refs|] == refs;
  }

  /** The collected outputs are named by exactly the references' names. */
  lemma {:induction false} CollectedKeys(nodeOutputs: map<string, map<string, Value>>, refs: seq<(string, string)>)
    ensures forall name :: name in Collected(nodeOutputs, refs) <==> exists k :: 0 <= k < |refs| && refs[k].1 == name
  {
    if refs != [] {
      var init := refs[..|refs| - 1];
      CollectedKeys(nodeOutputs, init);
      assert forall k | 0 <= k < |init| :: init[k] == refs[k];
    }
  }

  /** A name holds the stored value of the last reference that carries
      it. */
  lemma {:induction false} CollectedValue(nodeOutputs: map<string, map<string, Value>>, refs: seq<(string, string)>, k: nat)
    requires k < |refs| && forall l | k < l < |refs| :: refs[l].1 != refs[k].1
    ensures refs[k].1 in Collected(nodeOutputs, refs)
    ensures Collected(nodeOutputs, refs)[refs[k].1] == Stored(nodeOutputs, refs[k])
  {
    if k < |refs| - 1 {
      var init := refs[..|refs| - 1];
      assert init[k] == refs[k];
      CollectedValue(nodeOutputs, init, k);
    }
  }

  /** A node's flow outputs are its outputs marked "output", in order. */
  lemma {:induction false} FlowOutputsOfNodeMembers(node: Node, m: nat, ref: (string, string))
    requires m <= |node.outputs|
    ensures ref in FlowOutputsOfNode(node, m) <==>
      exists o :: 0 <= o < m && node.outputs[o].to == FlowOutput && ref == (node.id, node.outputs[o].name)
  {
    if m > 0 {
      FlowOutputsOfNodeMembers(node, m - 1, ref);
    }
  }

  /** The flow outputs of a flow are the outputs marked "output" of its
      nodes. */
  lemma {:induction false} FlowOutputsMembers(nodes: seq<Node>, n: nat, ref: (string, string))
    requires n <= |nodes|
    ensures ref in FlowOutputsOfFirst(nodes, n) <==>
      exists i, o :: 0 <= i < n && 0 <= o < |nodes[i].outputs| && nodes[i].outputs[o].to == FlowOutput &&
        ref == (nodes[i].id, nodes[i].outputs[o].name)
  {
    if n > 0 {
      FlowOutputsMembers(nodes, n - 1, ref);
      FlowOutputsOfNodeMembers(nodes[n - 1], |nodes[n - 1].outputs|, ref);
    }
  }

  /** The collection loop of Execute (executor.go:75-82). */
  method CollectOutputs(nodes: seq<Node>, nodeOutputs: map<string, map<string, Value>>)
    returns (outputs: map<string, Value>)
    ensures outputs == Collected(nodeOutputs, FlowOutputs(nodes))
  {
    outputs := map[];
    for i := 0 to |nodes|
      invariant outputs == Collected(nodeOutputs, FlowOutputsOfFirst(nodes, i))
    {
      var node := nodes[i];
      ghost var before := FlowOutputsOfFirst(nodes, i);
      assert before + FlowOutputsOfNode(node, 0) == before;
      for m := 0 to |node.outputs|
        invariant outputs == Collected(nodeOutputs, before + FlowOutputsOfNode(node, m))
      {
        var output := node.outputs[m];
        if output.to == FlowOutput {
          var value := Nil;
          if node.id in nodeOutputs && output.name in nodeOutputs[node.id] {
            value := nodeOutputs[node.id][output.name];
          }
          CollectedSnoc(nodeOutputs, before + FlowOutputsOfNode(node, m), (node.id, output.name));
          assert before + FlowOutputsOfNode(node, m + 1) == before + FlowOutputsOfNode(node, m) + [(node.id, output.name)];
          outputs := outputs[output.name := value];
        } else {
          assert FlowOutputsOfNode(node, m + 1) == FlowOutputsOfNode(node, m);
        }
      }
      assert FlowOutputsOfFirst(nodes, i + 1) == before + FlowOutputsOfNode(node, |node.outputs|);
    }
  }

  // ----- Execute -----

  /** What Execute returns besides its error; times and durations are not
      part of the model. */
  datatype ExecutionResult = ExecutionResult(flowName: string, success: bool, error: string,
                                             outputs: map<string, Value>, nodeResults: seq<NodeResult>)

  /** How Execute ends once the flow is validated and sorted
      (executor.go:60-89): the first failing node's error, or success with
      the collected flow outputs. */
  function Finish(flow: Flow, p: Progress): (ExecutionResult, Option<string>) {
    match p.failed
    case Some(f) =>
      (ExecutionResult(flow.name, false, "node " + f.id + " failed: " + f.error, map[], p.nodeResults), Some(f.error))
    case None =>
      (ExecutionResult(flow.name, true, "", Collected(p.nodeOutputs, FlowOutputs(flow.nodes)), p.nodeResults), None)
  }

  /** Execute (executor.go:28-89): validate, sort, run the nodes in order
      and collect the flow outputs. For a valid flow the outcome is the run
      of some execution order. */
  method Execute(services: Services, registry: Providers.Registry, flow: Flow, inputs: map<string, Value>)
    returns (result: ExecutionResult, err: Option<string>, ghost order: seq<Node>)
    ensures !Validator.ValidFlow(flow) ==>
      err.Some? && result == ExecutionResult(flow.name, false, "validation failed: " + err.value, map[], [])
    ensures Validator.PrecheckError(flow).Some? ==> err == Some(Validator.Text(Validator.PrecheckError(flow).value))
    ensures Validator.PrecheckError(flow).None? && HasCycle(Adjacency(GoSplitN, flow.nodes)) ==>
      exists id :: id in NodeIds(flow.nodes) && err == Some(Validator.Text(Validator.Invalid(Validator.CycleError(id))))
    ensures Validator.PrecheckError(flow).None? && !HasCycle(Adjacency(GoSplitN, flow.nodes)) &&
            Validator.ReferencesError(flow.nodes).Some? ==>
      err == Some(Validator.Text(Validator.Invalid(Validator.ReferencesError(flow.nodes).value)))
    ensures Validator.ValidFlow(flow) ==>
      && IsExecutionOrder(flow.nodes, order)
      && (result, err) ==
           Finish(flow, RunOfFirst(NodeStep(RunEnv(services, registry.providers, flow.config, inputs)), order, |order|))
  {
    var invalid := Validator.Validate(flow);
    if invalid.Some? {
      var text := Validator.Text(invalid.value);
      return ExecutionResult(flow.name, false, "validation failed: " + text, map[], []), Some(text), [];
    }
    ghost var rank :| RankedBy(Adjacency(GoSplitN, flow.nodes), rank);
    ValidFlowSchedulable(flow, rank);
    var sorted := TopologicalSort(flow.nodes);
    if sorted.Failure? {
      // executor.go:49-54 cannot be reached: a validated flow always sorts.
      assert false;
    }
    var execOrder := sorted.value;
    order := execOrder;
    var p := RunNodes(services, registry, flow.config, inputs, execOrder);
    if p.failed.Some? {
      return ExecutionResult(flow.name, false, "node " + p.failed.value.id + " failed: " + p.failed.value.error,
                             map[], p.nodeResults), Some(p.failed.value.error), order;
    }
    var outputs := CollectOutputs(flow.nodes, p.nodeOutputs);
    return ExecutionResult(flow.name, true, "", outputs, p.nodeResults), None, order;
  }

  /** How a run over all of an order ends: Execute reports an error
      exactly when some node failed; otherwise every node ran and
      succeeded. The i-th node result is the i-th node's. */
  lemma FinishSucceeds(step: Step, flow: Flow, order: seq<Node>)
    requires Reports(step) && |order| == |flow.nodes|
    ensures var (result, err) := Finish(flow, RunOfFirst(step, order, |order|));
      && |result.nodeResults| <= |order|
      && (result.success <==> err.None?)
      && (result.success <==>
            |result.nodeResults| == |flow.nodes| &&
            forall i | 0 <= i < |result.nodeResults| :: result.nodeResults[i].success)
      && (forall i | 0 <= i < |result.nodeResults| :: result.nodeResults[i].nodeId == order[i].id)
  {
    var p := RunOfFirst(step, order, |order|);
    RunLength(step, order, |order|);
    forall i | 0 <= i < |p.nodeResults|
      ensures p.nodeResults[i].nodeId == order[i].id
      ensures p.nodeResults[i].success <==> p.failed.None? || i < |p.nodeResults| - 1
    {
      RunResult(step, order, |order|, i);
      RunSuccess(step, order, |order|, i);
    }
  }

  /** When a node fails, the run stopped at it: its error is Execute's
      error, wrapped in the result's message, and no flow outputs are
      returned. */
  lemma FinishFails(step: Step, flow: Flow, order: seq<Node>)
    requires Reports(step) && RunOfFirst(step, order, |order|).failed.Some?
    ensures 0 < |RunOfFirst(step, order, |order|).nodeResults| <= |order|
    ensures var (result, err) := Finish(flow, RunOfFirst(step, order, |order|));
      !result.success && !result.nodeResults[|result.nodeResults| - 1].success && result.outputs == map[]
    ensures var (result, err) := Finish(flow, RunOfFirst(step, order, |order|));
      err == Some(result.nodeResults[|result.nodeResults| - 1].error) && err.value != ""
    ensures var (result, err) := Finish(flow, RunOfFirst(step, order, |order|));
      result.error == "node " + order[|result.nodeResults| - 1].id + " failed: " + err.value
  {
    var p := RunOfFirst(step, order, |order|);
    RunFailure(step, order, |order|);
    RunSuccess(step, order, |order|, |p.nodeResults| - 1);
  }

  /** A successful Execute returns one output per name of a node output
      marked "output"; each holds what the last such output with that name
      read from the stored outputs. */
  lemma FinishOutputs(flow: Flow, p: Progress, name: string)
    requires p.failed.None?
    ensures var outputs := Finish(flow, p).0.outputs;
      name in outputs <==>
        exists i, o :: 0 <= i < |flow.nodes| && 0 <= o < |flow.nodes[i].outputs| &&
          flow.nodes[i].outputs[o].to == FlowOutput && flow.nodes[i].outputs[o].name == name
  {
    var refs := FlowOutputs(flow.nodes);
    CollectedKeys(p.nodeOutputs, refs);
    if name in Collected(p.nodeOutputs, refs) {
      var k :| 0 <= k < |refs| && refs[k].1 == name;
      FlowOutputsMembers(flow.nodes, |flow.nodes|, refs[k]);
    } else {
      forall i, o | 0 <= i < |flow.nodes| && 0 <= o < |flow.nodes[i].outputs| && flow.nodes[i].outputs[o].to == FlowOutput
        ensures flow.nodes[i].outputs[o].name != name
      {
        var ref := (flow.nodes[i].id, flow.nodes[i].outputs[o].name);
        FlowOutputsMembers(flow.nodes, |flow.nodes|, ref);
        var k :| 0 <= k < |refs| && refs[k] == ref;
      }
    }
  }
}
