// The diagram layout of the web views: web/src/components/FlowCanvas.tsx
// (calculateNodePositions, buildGraphNodes, handleNodeClick) and its
// line-for-line copy in pkg/server/static/app.js (calculateNodePositions,
// buildGraph, onNodeClick).

module Layout {
  import opened Wrappers
  import opened FlowModel

  // ----- levels -----

  /** The layout's precondition: every producer is a node of the graph and
      `rank` shows the graph acyclic. Without it the code's recursion reads
      the adjacency entry of a missing id, or never ends. */
  ghost predicate Layable(adj: Graph, rank: map<string, nat>) {
    Closed(adj) && RankedBy(adj, rank)
  }

  function Max(a: int, b: int): int { if a < b then b else a }

  /** A node's level: 0 without dependencies, otherwise one more than the
      largest level among its dependencies. */
  ghost function Level(adj: Graph, rank: map<string, nat>, id: string): nat
    requires Layable(adj, rank) && id in adj
    decreases rank[id], 1
  {
    if |adj[id]| == 0 then 0 else 1 + MaxDepLevel(adj, rank, id, |adj[id]|)
  }

  /** The largest level among the first k dependencies of id, -1 for none. */
  ghost function MaxDepLevel(adj: Graph, rank: map<string, nat>, id: string, k: nat): (m: int)
    requires Layable(adj, rank) && id in adj && k <= |adj[id]|
    ensures k == 0 <==> m == -1
    ensures m >= -1
    decreases rank[id], 0, k
  {
    if k == 0 then -1
    else
      assert adj[id][k - 1] in adj[id];
      Max(MaxDepLevel(adj, rank, id, k - 1), Level(adj, rank, adj[id][k - 1]))
  }

  lemma {:induction false} MaxDepLevelBounds(adj: Graph, rank: map<string, nat>, id: string, k: nat)
    requires Layable(adj, rank) && id in adj && k <= |adj[id]|
    ensures forall j :: 0 <= j < k ==> adj[id][j] in adj && Level(adj, rank, adj[id][j]) <= MaxDepLevel(adj, rank, id, k)
    ensures k > 0 ==> exists j :: 0 <= j < k && adj[id][j] in adj && Level(adj, rank, adj[id][j]) == MaxDepLevel(adj, rank, id, k)
    decreases k
  {
    if k > 0 {
      MaxDepLevelBounds(adj, rank, id, k - 1);
      assert adj[id][k - 1] in adj[id];
    }
  }

  /** Every dependency of a node sits on a strictly lower level. */
  lemma LevelAboveDeps(adj: Graph, rank: map<string, nat>, id: string, d: string)
    requires Layable(adj, rank) && id in adj && d in adj[id]
    ensures d in adj && Level(adj, rank, d) < Level(adj, rank, id)
  {
    MaxDepLevelBounds(adj, rank, id, |adj[id]|);
    var j :| 0 <= j < |adj[id]| && adj[id][j] == d;
  }

  /** A node's level is 0 exactly when it has no dependencies; otherwise it
      is one more than the level of one of them. */
  lemma LevelTight(adj: Graph, rank: map<string, nat>, id: string)
    requires Layable(adj, rank) && id in adj
    ensures Level(adj, rank, id) == 0 <==> |adj[id]| == 0
    ensures |adj[id]| > 0 ==>
      exists d :: d in adj[id] && d in adj && Level(adj, rank, id) == Level(adj, rank, d) + 1
  {
    MaxDepLevelBounds(adj, rank, id, |adj[id]|);
    if |adj[id]| > 0 {
      var j :| 0 <= j < |adj[id]| && adj[id][j] in adj &&
        Level(adj, rank, adj[id][j]) == MaxDepLevel(adj, rank, id, |adj[id]|);
      assert adj[id][j] in adj[id];
    }
  }

  /** Levels do not depend on which ranking witnesses acyclicity. */
  lemma {:induction false} LevelRankIndependent(adj: Graph, r1: map<string, nat>, r2: map<string, nat>, id: string)
    requires Layable(adj, r1) && Layable(adj, r2) && id in adj
    ensures Level(adj, r1, id) == Level(adj, r2, id)
    decreases r1[id]
  {
    var k := 0;
    while k < |adj[id]|
      invariant k <= |adj[id]|
      invariant MaxDepLevel(adj, r1, id, k) == MaxDepLevel(adj, r2, id, k)
    {
      assert adj[id][k] in adj[id];
      LevelRankIndependent(adj, r1, r2, adj[id][k]);
      k := k + 1;
    }
  }

  // ----- the memoised recursion -----

  /** Every entry of the memo `levels` is the true level of its node. */
  ghost predicate Memo(adj: Graph, rank: map<string, nat>, levels: map<string, nat>)
    requires Layable(adj, rank)
  {
    forall k | k in levels :: k in adj && levels[k] == Level(adj, rank, k)
  }

  /** `levels'` keeps every entry of `levels`, and every key it adds has
      rank at most r. */
  ghost predicate GrowsBelow(levels: map<string, nat>, levels': map<string, nat>,
                             rank: map<string, nat>, r: int)
  {
    && (forall k | k in levels :: k in levels' && levels'[k] == levels[k])
    && (forall k | k in levels' && k !in levels :: k in rank && rank[k] <= r)
  }

  /** getLevel (FlowCanvas.tsx:48-64): return the memoised level, or compute
      it from the dependencies' levels, memoise it and return it. */
  method GetLevel(adj: Graph, id: string, levels: map<string, nat>, ghost rank: map<string, nat>)
    returns (lv: nat, levels': map<string, nat>)
    requires Layable(adj, rank) && id in adj
    requires Memo(adj, rank, levels)
    ensures Memo(adj, rank, levels')
    ensures id in levels' && lv == levels'[id] == Level(adj, rank, id)
    ensures GrowsBelow(levels, levels', rank, rank[id])
    decreases rank[id], 1
  {
    if id in levels {
      return levels[id], levels;
    }
    if |adj[id]| == 0 {
      return 0, levels[id := 0];
    }
    var maxLevel;
    maxLevel, levels' := MaxDepLevels(adj, id, levels, rank);
    lv := maxLevel + 1;
    levels' := levels'[id := lv];
  }

  /** The forEach of getLevel over a node's dependencies: the largest of
      their levels, -1 for none, memoising each. */
  method MaxDepLevels(adj: Graph, id: string, levels: map<string, nat>, ghost rank: map<string, nat>)
    returns (maxLevel: int, levels': map<string, nat>)
    requires Layable(adj, rank) && id in adj && id !in levels
    requires Memo(adj, rank, levels)
    ensures Memo(adj, rank, levels')
    ensures maxLevel == MaxDepLevel(adj, rank, id, |adj[id]|)
    ensures id !in levels'
    ensures GrowsBelow(levels, levels', rank, rank[id] as int - 1)
    decreases rank[id], 0
  {
    var deps := adj[id];
    maxLevel := -1;
    levels' := levels;
    for j := 0 to |deps|
      invariant Memo(adj, rank, levels')
      invariant GrowsBelow(levels, levels', rank, rank[id] as int - 1)
      invariant id !in levels'
      invariant maxLevel == MaxDepLevel(adj, rank, id, j)
    {
      assert deps[j] in adj[id];
      var l;
      l, levels' := GetLevel(adj, deps[j], levels', rank);
      maxLevel := Max(maxLevel, l);
    }
  }

  /** `nodes.forEach(node => getLevel(node.id))` (FlowCanvas.tsx:66): the
      memo ends up holding the level of every node. */
  method AssignLevels(adj: Graph, nodes: seq<Node>, ghost rank: map<string, nat>)
    returns (levels: map<string, nat>)
    requires Layable(adj, rank) && adj.Keys == NodeIds(nodes)
    ensures Memo(adj, rank, levels)
    ensures levels.Keys == adj.Keys
  {
    IdsOfFirstMembers(nodes, |nodes|);
    levels := map[];
    for i := 0 to |nodes|
      invariant Memo(adj, rank, levels)
      invariant forall j :: 0 <= j < i ==> nodes[j].id in levels
    {
      var _, levels' := GetLevel(adj, nodes[i].id, levels, rank);
      levels := levels';
    }
  }

  // ----- grouping by level -----

  /** `Object.entries(levels)`: the memo's keys, each once. JavaScript fixes
      the order (integer-like keys ascending, then insertion order); the
      model leaves it open, so what is proved holds for every order. */
  method KeysOf(levels: map<string, nat>) returns (ids: seq<string>)
    ensures Distinct(ids)
    ensures forall k :: k in ids <==> k in levels
  {
    ids := [];
    var rest := levels.Keys;
    while rest != {}
      invariant Distinct(ids)
      invariant forall k :: k in ids <==> k in levels && k !in rest
      invariant rest <= levels.Keys
      decreases rest
    {
      var k :| k in rest;
      ids := ids + [k];
      rest := rest - {k};
    }
  }

  /** The ids among the first n of `ids` whose level is L, in order. */
  function AtLevelOfFirst(ids: seq<string>, levels: map<string, nat>, L: nat, n: nat): (r: seq<string>)
    requires n <= |ids| && forall k :: 0 <= k < |ids| ==> ids[k] in levels
    ensures forall k :: 0 <= k < |r| ==> r[k] in levels && levels[r[k]] == L
  {
    if n == 0 then []
    else AtLevelOfFirst(ids, levels, L, n - 1) + (if levels[ids[n - 1]] == L then [ids[n - 1]] else [])
  }

  /** The ids of a level hold exactly the ids with that level. */
  lemma {:induction false} AtLevelMembers(ids: seq<string>, levels: map<string, nat>, L: nat, n: nat, id: string)
    requires n <= |ids| && forall k :: 0 <= k < |ids| ==> ids[k] in levels
    ensures id in AtLevelOfFirst(ids, levels, L, n) <==> id in ids[..n] && levels[id] == L
  {
    if n > 0 {
      AtLevelMembers(ids, levels, L, n - 1, id);
      assert ids[..n] == ids[..n - 1] + [ids[n - 1]];
    }
  }

  /** Taken from distinct ids, the ids of a level are distinct. */
  lemma {:induction false} AtLevelDistinct(ids: seq<string>, levels: map<string, nat>, L: nat, n: nat)
    requires n <= |ids| && forall k :: 0 <= k < |ids| ==> ids[k] in levels
    requires Distinct(ids)
    ensures Distinct(AtLevelOfFirst(ids, levels, L, n))
  {
    if n > 0 {
      AtLevelDistinct(ids, levels, L, n - 1);
      AtLevelMembers(ids, levels, L, n - 1, ids[n - 1]);
      assert ids[n - 1] !in ids[..n - 1];
    }
  }

  /** `byLevel` holds, for each level, its ids among the first n of `ids`,
      and has no empty list. */
  ghost predicate ArrangedUpTo(ids: seq<string>, levels: map<string, nat>, byLevel: map<nat, seq<string>>, n: nat)
    requires n <= |ids| && forall k :: 0 <= k < |ids| ==> ids[k] in levels
  {
    && (forall L: nat :: L in byLevel <==> AtLevelOfFirst(ids, levels, L, n) != [])
    && (forall L | L in byLevel :: byLevel[L] == AtLevelOfFirst(ids, levels, L, n))
  }

  /** Pushing ids[i] onto its level's list, created if missing, arranges
      one more id. */
  lemma ArrangeStep(ids: seq<string>, levels: map<string, nat>, byLevel: map<nat, seq<string>>, i: nat)
    requires i < |ids| && forall k :: 0 <= k < |ids| ==> ids[k] in levels
    requires ArrangedUpTo(ids, levels, byLevel, i)
    ensures ArrangedUpTo(ids, levels,
      byLevel[levels[ids[i]] := (if levels[ids[i]] in byLevel then byLevel[levels[ids[i]]] else []) + [ids[i]]], i + 1)
  {
    var level := levels[ids[i]];
    var after := byLevel[level := (if level in byLevel then byLevel[level] else []) + [ids[i]]];
    forall L: nat
      ensures (L in after <==> AtLevelOfFirst(ids, levels, L, i + 1) != [])
      ensures L in after ==> after[L] == AtLevelOfFirst(ids, levels, L, i + 1)
    {
      assert AtLevelOfFirst(ids, levels, L, i + 1) ==
        AtLevelOfFirst(ids, levels, L, i) + (if level == L then [ids[i]] else []);
    }
  }

  /** Arrange nodes by level (FlowCanvas.tsx:69-73): walk the entries,
      creating a level's list on first use and pushing each id onto it. */
  method ArrangeByLevel(ids: seq<string>, levels: map<string, nat>) returns (byLevel: map<nat, seq<string>>)
    requires forall k :: 0 <= k < |ids| ==> ids[k] in levels
    ensures forall L: nat :: L in byLevel <==> AtLevelOfFirst(ids, levels, L, |ids|) != []
    ensures forall L | L in byLevel :: byLevel[L] == AtLevelOfFirst(ids, levels, L, |ids|)
  {
    byLevel := map[];
    for i := 0 to |ids|
      invariant ArrangedUpTo(ids, levels, byLevel, i)
    {
      var level := levels[ids[i]];
      var list := if level in byLevel then byLevel[level] else [];
      ArrangeStep(ids, levels, byLevel, i);
      byLevel := byLevel[level := list + [ids[i]]];
    }
  }

  /** ids[..m] is a prefix of ids[..n], level by level. */
  lemma {:induction false} AtLevelPrefix(ids: seq<string>, levels: map<string, nat>, L: nat, m: nat, n: nat)
    requires m <= n <= |ids| && forall k :: 0 <= k < |ids| ==> ids[k] in levels
    ensures |AtLevelOfFirst(ids, levels, L, m)| <= |AtLevelOfFirst(ids, levels, L, n)|
    ensures AtLevelOfFirst(ids, levels, L, n)[..|AtLevelOfFirst(ids, levels, L, m)|] == AtLevelOfFirst(ids, levels, L, m)
    decreases n - m
  {
    if m < n {
      AtLevelPrefix(ids, levels, L, m, n - 1);
      var a, b := AtLevelOfFirst(ids, levels, L, m), AtLevelOfFirst(ids, levels, L, n - 1);
      assert AtLevelOfFirst(ids, levels, L, n)[..|b|] == b;
      assert b[..|a|] == a;
    }
  }

  /** ids[p] sits in its level's list after the ids of that level that
      come before it. */
  lemma AtLevelIndex(ids: seq<string>, levels: map<string, nat>, p: nat)
    requires p < |ids| && forall k :: 0 <= k < |ids| ==> ids[k] in levels
    ensures |AtLevelOfFirst(ids, levels, levels[ids[p]], p)| < |AtLevelOfFirst(ids, levels, levels[ids[p]], |ids|)|
    ensures AtLevelOfFirst(ids, levels, levels[ids[p]], |ids|)[|AtLevelOfFirst(ids, levels, levels[ids[p]], p)|] == ids[p]
  {
    var L := levels[ids[p]];
    AtLevelPrefix(ids, levels, L, p + 1, |ids|);
    var w := AtLevelOfFirst(ids, levels, L, p + 1);
    assert w[|AtLevelOfFirst(ids, levels, L, p)|] == ids[p];
    assert AtLevelOfFirst(ids, levels, L, |ids|)[..|w|][|w| - 1] == ids[p];
  }

  // ----- positions -----

  datatype Position = Position(x: int, y: int)

  const LevelWidth := 300
  const NodeHeight := 120
  const Margin := 50

  /** The point of the index-th node of a level. */
  function Slot(level: nat, index: nat): Position {
    Position(level * LevelWidth + Margin, index * NodeHeight + Margin)
  }

  /** Distinct slots are distinct points. */
  lemma SlotInjective(l1: nat, i1: nat, l2: nat, i2: nat)
    ensures Slot(l1, i1) == Slot(l2, i2) ==> l1 == l2 && i1 == i2
  {
    if l1 != l2 {
      assert l1 * LevelWidth != l2 * LevelWidth;
    }
    if i1 != i2 {
      assert i1 * NodeHeight != i2 * NodeHeight;
    }
  }

  /** The inner forEach of the positions loop (FlowCanvas.tsx:80-85): the
      index-th id of a level goes to that level's index-th slot. */
  method PlaceLevel(positions: map<string, Position>, level: nat, ids: seq<string>)
    returns (positions': map<string, Position>)
    requires Distinct(ids)
    ensures forall p :: 0 <= p < |ids| ==> ids[p] in positions' && positions'[ids[p]] == Slot(level, p)
    ensures forall k :: k in positions' <==> k in positions || k in ids
    ensures forall k | k in positions && k !in ids :: positions'[k] == positions[k]
  {
    positions' := positions;
    for index := 0 to |ids|
      invariant forall p :: 0 <= p < index ==> ids[p] in positions' && positions'[ids[p]] == Slot(level, p)
      invariant forall k :: k in positions' <==> k in positions || k in ids[..index]
      invariant forall k | k in positions && k !in ids[..index] :: positions'[k] == positions[k]
    {
      assert ids[..index + 1] == ids[..index] + [ids[index]];
      positions' := positions'[ids[index] := Slot(level, index)];
    }
    assert ids[..|ids|] == ids;
  }

  /** The positions loop (FlowCanvas.tsx:79-86), over the levels in any
      order: every id of every level gets its slot, and nothing else is
      placed. */
  method PlacePositions(byLevel: map<nat, seq<string>>) returns (positions: map<string, Position>)
    requires forall L | L in byLevel :: Distinct(byLevel[L])
    requires forall L1, L2, k | L1 in byLevel && L2 in byLevel && k in byLevel[L1] && k in byLevel[L2] :: L1 == L2
    ensures forall L, p | L in byLevel && 0 <= p < |byLevel[L]| ::
      byLevel[L][p] in positions && positions[byLevel[L][p]] == Slot(L, p)
    ensures forall k :: k in positions <==> exists L :: L in byLevel && k in byLevel[L]
  {
    positions := map[];
    var rest := byLevel.Keys;
    while rest != {}
      invariant rest <= byLevel.Keys
      invariant forall L, p | L in byLevel && L !in rest && 0 <= p < |byLevel[L]| ::
        byLevel[L][p] in positions && positions[byLevel[L][p]] == Slot(L, p)
      invariant forall k :: k in positions <==> exists L :: L in byLevel && L !in rest && k in byLevel[L]
      decreases rest
    {
      var L :| L in rest;
      positions := PlaceLevel(positions, L, byLevel[L]);
      rest := rest - {L};
    }
  }

  /** What grouping by level produces, for enumeration `ids`. */
  ghost predicate Grouped(ids: seq<string>, levels: map<string, nat>, byLevel: map<nat, seq<string>>)
    requires forall k :: 0 <= k < |ids| ==> ids[k] in levels
  {
    && (forall L: nat :: L in byLevel <==> AtLevelOfFirst(ids, levels, L, |ids|) != [])
    && (forall L | L in byLevel :: byLevel[L] == AtLevelOfFirst(ids, levels, L, |ids|))
  }

  /** Grouping distinct ids gives distinct, disjoint level lists. */
  lemma GroupedDisjoint(ids: seq<string>, levels: map<string, nat>, byLevel: map<nat, seq<string>>)
    requires forall k :: 0 <= k < |ids| ==> ids[k] in levels
    requires Distinct(ids) && Grouped(ids, levels, byLevel)
    ensures forall L | L in byLevel :: Distinct(byLevel[L])
    ensures forall L1, L2, k | L1 in byLevel && L2 in byLevel && k in byLevel[L1] && k in byLevel[L2] :: L1 == L2
  {
    forall L | L in byLevel ensures Distinct(byLevel[L]) {
      AtLevelDistinct(ids, levels, L, |ids|);
    }
  }

  /** The ids placed are the ids enumerated. */
  lemma PlacedKeys(ids: seq<string>, levels: map<string, nat>, byLevel: map<nat, seq<string>>,
                   positions: map<string, Position>)
    requires forall k :: 0 <= k < |ids| ==> ids[k] in levels
    requires Grouped(ids, levels, byLevel)
    requires forall k :: k in positions <==> exists L :: L in byLevel && k in byLevel[L]
    ensures forall k :: k in positions <==> k in ids
  {
    assert ids[..|ids|] == ids;
    forall k ensures k in positions <==> k in ids {
      if k in ids {
        AtLevelMembers(ids, levels, levels[k], |ids|, k);
        assert k in byLevel[levels[k]];
      }
      if k in positions {
        var L :| L in byLevel && k in byLevel[L];
        AtLevelMembers(ids, levels, L, |ids|, k);
      }
    }
  }

  /** Each enumerated id lands in the slot of its level, below the ids of
      its level enumerated before it. */
  lemma PlacedSlots(ids: seq<string>, levels: map<string, nat>, byLevel: map<nat, seq<string>>,
                    positions: map<string, Position>)
    requires forall k :: 0 <= k < |ids| ==> ids[k] in levels
    requires Grouped(ids, levels, byLevel)
    requires forall L, p | L in byLevel && 0 <= p < |byLevel[L]| ::
      byLevel[L][p] in positions && positions[byLevel[L][p]] == Slot(L, p)
    ensures forall p | 0 <= p < |ids| ::
      ids[p] in positions &&
      positions[ids[p]] == Slot(levels[ids[p]], |AtLevelOfFirst(ids, levels, levels[ids[p]], p)|)
  {
    forall p | 0 <= p < |ids|
      ensures ids[p] in positions
      ensures positions[ids[p]] == Slot(levels[ids[p]], |AtLevelOfFirst(ids, levels, levels[ids[p]], p)|)
    {
      AtLevelIndex(ids, levels, p);
    }
  }

  /** A later id of the same level has a higher index. */
  lemma IndexGrows(ids: seq<string>, levels: map<string, nat>, p: nat, q: nat)
    requires p < q <= |ids| && forall k :: 0 <= k < |ids| ==> ids[k] in levels
    ensures |AtLevelOfFirst(ids, levels, levels[ids[p]], p)| < |AtLevelOfFirst(ids, levels, levels[ids[p]], q)|
  {
    AtLevelPrefix(ids, levels, levels[ids[p]], p + 1, q);
  }

  /** Hence no two enumerated ids share a point. */
  lemma PlacedApart(ids: seq<string>, levels: map<string, nat>, positions: map<string, Position>)
    requires forall k :: 0 <= k < |ids| ==> ids[k] in levels
    requires Distinct(ids)
    requires forall p | 0 <= p < |ids| ::
      ids[p] in positions &&
      positions[ids[p]] == Slot(levels[ids[p]], |AtLevelOfFirst(ids, levels, levels[ids[p]], p)|)
    ensures forall p, q | 0 <= p < q < |ids| :: positions[ids[p]] != positions[ids[q]]
  {
    forall p, q | 0 <= p < q < |ids| ensures positions[ids[p]] != positions[ids[q]] {
      var lp, lq := levels[ids[p]], levels[ids[q]];
      var ip, iq := |AtLevelOfFirst(ids, levels, lp, p)|, |AtLevelOfFirst(ids, levels, lq, q)|;
      SlotInjective(lp, ip, lq, iq);
      if lp == lq {
        IndexGrows(ids, levels, p, q);
      }
    }
  }

  /** The part of calculateNodePositions after the levels
      (FlowCanvas.tsx:68-88): group the memo's keys by level, then give the
      index-th node of level L the slot (L, index). */
  method PositionsFromLevels(levels: map<string, nat>)
    returns (positions: map<string, Position>, ghost order: seq<string>)
    ensures forall k :: k in positions <==> k in levels
    ensures Distinct(order) && forall k :: k in order <==> k in levels
    ensures forall p | 0 <= p < |order| ::
      order[p] in levels &&
      positions[order[p]] == Slot(levels[order[p]], |AtLevelOfFirst(order, levels, levels[order[p]], p)|)
    ensures forall p, q | 0 <= p < q < |order| :: positions[order[p]] != positions[order[q]]
  {
    var ids := KeysOf(levels);
    order := ids;
    var byLevel := ArrangeByLevel(ids, levels);
    GroupedDisjoint(ids, levels, byLevel);
    positions := PlacePositions(byLevel);
    PlacedKeys(ids, levels, byLevel, positions);
    PlacedSlots(ids, levels, byLevel, positions);
    PlacedApart(ids, levels, positions);
  }

  /** calculateNodePositions (FlowCanvas.tsx:29-89): every node gets a
      point; its column is its level, and within a column the nodes are
      stacked in the order the memo's keys are enumerated. No two nodes
      share a point. */
  method CalculateNodePositions(nodes: seq<Node>, ghost rank: map<string, nat>)
    returns (positions: map<string, Position>, ghost levels: map<string, nat>, ghost order: seq<string>)
    requires Layable(Adjacency(JsSplit, nodes), rank)
    ensures levels.Keys == NodeIds(nodes)
    ensures forall k :: k in positions <==> k in levels
    ensures Memo(Adjacency(JsSplit, nodes), rank, levels)
    ensures Distinct(order) && forall k :: k in order <==> k in levels
    ensures forall p | 0 <= p < |order| ::
      order[p] in levels &&
      positions[order[p]] == Slot(levels[order[p]], |AtLevelOfFirst(order, levels, levels[order[p]], p)|)
    ensures forall p, q | 0 <= p < q < |order| :: positions[order[p]] != positions[order[q]]
  {
    var adj := BuildAdjacency(JsSplit, nodes);
    var levelMap := AssignLevels(adj, nodes, rank);
    levels := levelMap;
    positions, order := PositionsFromLevels(levelMap);
  }

  // ----- the diagram -----

  /** A diagram node's label: the node id in bold over the node type. */
  datatype Label = Label(title: string, subtitle: string)
  datatype NodeData = NodeData(caption: Label, node: Node)
  datatype GraphNode = GraphNode(id: string, kind: string, position: Position, data: NodeData)
  datatype Edge = Edge(id: string, source: string, target: string, caption: string, animated: bool)

  /** The diagram node type every flow node is drawn with. */
  const DefaultKind := "default"

  /** The edge drawn for a binding of `node` whose producer is `producer`:
      its id joins producer, node id and binding name with dashes. */
  function EdgeOf(producer: string, node: Node, input: Input): Edge {
    Edge(producer + "-" + node.id + "-" + input.name, producer, node.id, input.name, true)
  }

  /** The edge drawn for one binding of `node`, if it resolves. */
  function InputEdge(node: Node, input: Input): seq<Edge> {
    match Producer(JsSplit, input.from)
    case Some(p) => [EdgeOf(p, node, input)]
    case None => []
  }

  /** The edges of the first n bindings of a node, one per resolved binding. */
  function InputEdgesOfFirst(node: Node, n: nat): seq<Edge>
    requires n <= |node.inputs|
  {
    if n == 0 then [] else InputEdgesOfFirst(node, n - 1) + InputEdge(node, node.inputs[n - 1])
  }

  /** An edge belongs to a node's edges exactly when one of its bindings
      resolves to a producer and the edge is the one drawn for it. */
  lemma {:induction false} InputEdgesMembers(node: Node, n: nat, e: Edge)
    requires n <= |node.inputs|
    ensures e in InputEdgesOfFirst(node, n) <==> exists j :: 0 <= j < n && e in InputEdge(node, node.inputs[j])
  {
    if n > 0 {
      InputEdgesMembers(node, n - 1, e);
    }
  }

  /** The edges of the first n nodes, node by node. */
  function EdgesOfFirst(nodes: seq<Node>, n: nat): seq<Edge>
    requires n <= |nodes|
  {
    if n == 0 then [] else EdgesOfFirst(nodes, n - 1) + InputEdgesOfFirst(nodes[n - 1], |nodes[n - 1].inputs|)
  }

  /** ... and an edge of the diagram is one drawn for some node. */
  lemma {:induction false} EdgesMembers(nodes: seq<Node>, n: nat, e: Edge)
    requires n <= |nodes|
    ensures e in EdgesOfFirst(nodes, n) <==>
      exists i :: 0 <= i < n && e in InputEdgesOfFirst(nodes[i], |nodes[i].inputs|)
  {
    if n > 0 {
      EdgesMembers(nodes, n - 1, e);
    }
  }

  /** The node click handler (FlowCanvas.tsx:143-148): hand back the flow
      node the diagram node carries. */
  function NodeClicked(g: GraphNode): Node {
    g.data.node
  }

  /** The inner forEach of buildGraphNodes (FlowCanvas.tsx:114-127). */
  method EdgesFromInputs(node: Node) returns (edges: seq<Edge>)
    ensures edges == InputEdgesOfFirst(node, |node.inputs|)
  {
    edges := [];
    for j := 0 to |node.inputs|
      invariant edges == InputEdgesOfFirst(node, j)
    {
      var input := node.inputs[j];
      if input.from != FlowInput {
        var parts := Strings.Split(input.from, '.');
        if |parts| == 2 {
          ProducerSplits(JsSplit, input.from);
          edges := edges + [EdgeOf(parts[0], node, input)];
        }
      }
    }
  }

  /** The diagram node drawn for a flow node placed at `position`. */
  function DiagramNode(node: Node, position: Position): GraphNode {
    GraphNode(node.id, DefaultKind, position, NodeData(Label(node.id, node.nodeType), node))
  }

  /** The forEach of buildGraphNodes over the flow nodes
      (FlowCanvas.tsx:96-128): push each node's diagram node, then the
      edges of its bindings. */
  method AssembleDiagram(nodes: seq<Node>, positions: map<string, Position>)
    returns (gnodes: seq<GraphNode>, edges: seq<Edge>)
    requires forall k :: 0 <= k < |nodes| ==> nodes[k].id in positions
    ensures |gnodes| == |nodes|
    ensures forall k :: 0 <= k < |nodes| ==> gnodes[k] == DiagramNode(nodes[k], positions[nodes[k].id])
    ensures edges == EdgesOfFirst(nodes, |nodes|)
  {
    gnodes, edges := [], [];
    for i := 0 to |nodes|
      invariant |gnodes| == i
      invariant forall k :: 0 <= k < i ==> gnodes[k] == DiagramNode(nodes[k], positions[nodes[k].id])
      invariant edges == EdgesOfFirst(nodes, i)
    {
      var node := nodes[i];
      gnodes := gnodes + [DiagramNode(node, positions[node.id])];
      var nodeEdges := EdgesFromInputs(node);
      edges := edges + nodeEdges;
    }
  }

  /** buildGraphNodes (FlowCanvas.tsx:91-131): one diagram node per flow
      node, in order, carrying the flow node, so that clicking it hands
      back that flow node (FlowCanvas.tsx:143-148); each node sits at the
      point calculateNodePositions gave its id: its level's column, and the
      row counting the same-level ids enumerated before it in `order`; no
      two nodes with different ids share a point; one edge per resolved
      binding. `levels` and `order` are the memo and key order of that
      calculation. */
  method BuildGraphNodes(flow: Flow, ghost rank: map<string, nat>)
    returns (gnodes: seq<GraphNode>, edges: seq<Edge>, ghost levels: map<string, nat>, ghost order: seq<string>)
    requires Layable(Adjacency(JsSplit, flow.nodes), rank)
    ensures levels.Keys == NodeIds(flow.nodes) && Memo(Adjacency(JsSplit, flow.nodes), rank, levels)
    ensures Distinct(order) && forall k :: k in order <==> k in levels
    ensures |gnodes| == |flow.nodes|
    ensures forall i, p | 0 <= i < |gnodes| && 0 <= p < |order| && order[p] == flow.nodes[i].id ::
      gnodes[i].position == Slot(levels[order[p]], |AtLevelOfFirst(order, levels, levels[order[p]], p)|)
    ensures forall i :: 0 <= i < |gnodes| ==>
      && gnodes[i].id == flow.nodes[i].id
      && gnodes[i].kind == DefaultKind
      && gnodes[i].data == NodeData(Label(flow.nodes[i].id, flow.nodes[i].nodeType), flow.nodes[i])
      && NodeClicked(gnodes[i]) == flow.nodes[i]
      && gnodes[i].position.x == Level(Adjacency(JsSplit, flow.nodes), rank, flow.nodes[i].id) * LevelWidth + Margin
    ensures forall i, j :: 0 <= i < |gnodes| && 0 <= j < |gnodes| && flow.nodes[i].id != flow.nodes[j].id ==>
      gnodes[i].position != gnodes[j].position
    ensures edges == EdgesOfFirst(flow.nodes, |flow.nodes|)
  {
    var positions;
    positions, levels, order := CalculateNodePositions(flow.nodes, rank);
    ghost var adj := Adjacency(JsSplit, flow.nodes);
    PositionFacts(adj, rank, positions, levels, order);
    gnodes, edges := AssembleDiagram(flow.nodes, positions);
    DiagramFacts(flow.nodes, adj, rank, positions, gnodes);
  }

  /** The per-node reading of the diagram nodes. */
  lemma DiagramFacts(nodes: seq<Node>, adj: Graph, rank: map<string, nat>,
                     positions: map<string, Position>, gnodes: seq<GraphNode>)
    requires Layable(adj, rank)
    requires forall k | k in positions :: k in adj && positions[k].x == Level(adj, rank, k) * LevelWidth + Margin
    requires forall a, b | a in positions && b in positions && a != b :: positions[a] != positions[b]
    requires forall k :: 0 <= k < |nodes| ==> nodes[k].id in positions
    requires |gnodes| == |nodes|
    requires forall k :: 0 <= k < |nodes| ==> gnodes[k] == DiagramNode(nodes[k], positions[nodes[k].id])
    ensures forall i :: 0 <= i < |gnodes| ==>
      && gnodes[i].id == nodes[i].id
      && gnodes[i].kind == DefaultKind
      && gnodes[i].data == NodeData(Label(nodes[i].id, nodes[i].nodeType), nodes[i])
      && NodeClicked(gnodes[i]) == nodes[i]
      && nodes[i].id in adj
      && gnodes[i].position.x == Level(adj, rank, nodes[i].id) * LevelWidth + Margin
    ensures forall i, j :: 0 <= i < |gnodes| && 0 <= j < |gnodes| && nodes[i].id != nodes[j].id ==>
      gnodes[i].position != gnodes[j].position
  {
  }

  /** What CalculateNodePositions promises, read per node id. */
  lemma PositionFacts(adj: Graph, rank: map<string, nat>, positions: map<string, Position>,
                      levels: map<string, nat>, order: seq<string>)
    requires Layable(adj, rank) && Memo(adj, rank, levels)
    requires forall k :: k in positions <==> k in levels
    requires forall k :: k in order <==> k in levels
    requires forall p | 0 <= p < |order| ::
      order[p] in levels &&
      positions[order[p]] == Slot(levels[order[p]], |AtLevelOfFirst(order, levels, levels[order[p]], p)|)
    requires forall p, q | 0 <= p < q < |order| :: positions[order[p]] != positions[order[q]]
    ensures forall k | k in positions :: k in adj && positions[k].x == Level(adj, rank, k) * LevelWidth + Margin
    ensures forall a, b | a in positions && b in positions && a != b :: positions[a] != positions[b]
  {
    forall k | k in positions ensures k in adj && positions[k].x == Level(adj, rank, k) * LevelWidth + Margin {
      var p :| 0 <= p < |order| && order[p] == k;
    }
    forall a, b | a in positions && b in positions && a != b ensures positions[a] != positions[b] {
      var p :| 0 <= p < |order| && order[p] == a;
      var q :| 0 <= q < |order| && order[q] == b;
    }
  }

  /** Under unique ids, every edge runs from a node to a node of a higher
      level, so to a column further right: the diagram reads left to
      right. */
  lemma EdgesPointRight(nodes: seq<Node>, rank: map<string, nat>, e: Edge)
    requires Layable(Adjacency(JsSplit, nodes), rank) && UniqueIds(nodes)
    requires e in EdgesOfFirst(nodes, |nodes|)
    ensures e.source in Adjacency(JsSplit, nodes) && e.target in Adjacency(JsSplit, nodes)
    ensures Level(Adjacency(JsSplit, nodes), rank, e.source) < Level(Adjacency(JsSplit, nodes), rank, e.target)
  {
    var adj := Adjacency(JsSplit, nodes);
    EdgesMembers(nodes, |nodes|, e);
    var i :| 0 <= i < |nodes| && e in InputEdgesOfFirst(nodes[i], |nodes[i].inputs|);
    InputEdgesMembers(nodes[i], |nodes[i].inputs|, e);
    var j :| 0 <= j < |nodes[i].inputs| && e in InputEdge(nodes[i], nodes[i].inputs[j]);
    DepsInclude(JsSplit, nodes[i].inputs, |nodes[i].inputs|, j);
    AdjacencyEntry(JsSplit, nodes, i);
    LevelAboveDeps(adj, rank, nodes[i].id, e.source);
  }
}
