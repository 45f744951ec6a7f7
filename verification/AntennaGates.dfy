/** Which gates an antenna node sees: layer by layer, what is connected by metal up to that layer. */
module AntennaGates {
  import opened Connectivity
  import opened DisjointSets

  /** A polygon of a net on one layer.  `lowAdj` holds indices into the layer below; pins are
      numbered in the order of the pin map. */
  class GraphNode {
    const id: nat
    const lowAdj: seq<nat>
    var gates: set<nat>

    constructor (id: nat, lowAdj: seq<nat>)
      ensures this.id == id && this.lowAdj == lowAdj && gates == {}
    {
      this.id, this.lowAdj, gates := id, lowAdj, {};
    }
  }

  /** Ids are in range, and adjacent nodes exist.  What nodes of the bottom layer list is ignored. */
  ghost predicate WellFormed(layers: seq<seq<GraphNode>>, nodeCount: nat) {
    forall k, i :: 0 <= k < |layers| && 0 <= i < |layers[k]| ==>
      && layers[k][i].id < nodeCount
      && (k > 0 ==> forall a :: 0 <= a < |layers[k][i].lowAdj| ==> layers[k][i].lowAdj[a] < |layers[k - 1]|)
  }

  ghost predicate LowKnown(node: GraphNode, low: seq<GraphNode>) {
    forall a :: 0 <= a < |node.lowAdj| ==> node.lowAdj[a] < |low|
  }

  /** The edges from a node to the first n of its neighbours in the layer below. */
  ghost function NodeEdges(node: GraphNode, low: seq<GraphNode>, n: nat): seq<Edge>
    requires n <= |node.lowAdj| && LowKnown(node, low)
  {
    if n == 0 then [] else NodeEdges(node, low, n - 1) + [Edge(node.id, low[node.lowAdj[n - 1]].id)]
  }

  /** The edges of the first n nodes of layer k. */
  ghost function LayerEdges(layers: seq<seq<GraphNode>>, nodeCount: nat, k: nat, n: nat): seq<Edge>
    requires WellFormed(layers, nodeCount) && k < |layers| && n <= |layers[k]|
  {
    if n == 0 || k == 0 then []
    else
      var node := layers[k][n - 1];
      LayerEdges(layers, nodeCount, k, n - 1) + NodeEdges(node, layers[k - 1], |node.lowAdj|)
  }

  /** The edges of the layers from `first` to before k. */
  ghost function EdgesBelow(layers: seq<seq<GraphNode>>, nodeCount: nat, first: nat, k: nat): seq<Edge>
    requires WellFormed(layers, nodeCount) && k <= |layers|
  {
    if k <= first then []
    else EdgesBelow(layers, nodeCount, first, k - 1) + LayerEdges(layers, nodeCount, k - 1, |layers[k - 1]|)
  }

  predicate Touches(edges: seq<Edge>, nbrs: seq<nat>, n: nat, id: nat)
    requires n <= |nbrs|
  {
    exists b :: 0 <= b < n && Linked(edges, |edges|, id, nbrs[b])
  }

  /** The first n pins with a neighbour that is connected to the node. */
  function GatesBy(edges: seq<Edge>, pinNbrs: seq<seq<nat>>, n: nat, id: nat): set<nat>
    requires n <= |pinNbrs|
  {
    set g: nat | g < n && Touches(edges, pinNbrs[g], |pinNbrs[g]|, id)
  }

  /** The gates of a node on layer k: the pins it reaches by metal of the layers up to k only. */
  ghost function GatesAt(layers: seq<seq<GraphNode>>, nodeCount: nat, first: nat, pinNbrs: seq<seq<nat>>, k: nat, id: nat): set<nat>
    requires WellFormed(layers, nodeCount) && k < |layers|
  {
    GatesBy(EdgesBelow(layers, nodeCount, first, k + 1), pinNbrs, |pinNbrs|, id)
  }

  // ----- what the sets stand for -----

  /** Two nodes are in one set exactly if the edges so far connect them. */
  ghost predicate Partition(root: seq<nat>, edges: seq<Edge>) {
    forall a, b :: 0 <= a < |root| && 0 <= b < |root| ==> (root[a] == root[b] <==> Linked(edges, |edges|, a, b))
  }

  lemma {:induction false} LinkedPrefix(a: seq<Edge>, b: seq<Edge>, n: nat, x: nat, y: nat)
    requires n <= |a| && a <= b
    ensures Linked(a, n, x, y) == Linked(b, n, x, y)
  {
    if n > 0 {
      var e := a[n - 1];
      LinkedPrefix(a, b, n - 1, x, y);
      LinkedPrefix(a, b, n - 1, x, e.u);
      LinkedPrefix(a, b, n - 1, x, e.v);
      LinkedPrefix(a, b, n - 1, e.u, y);
      LinkedPrefix(a, b, n - 1, e.v, y);
    }
  }

  /** One more edge merges two sets, or leaves the sets alone if they are one already. */
  lemma {:induction false} EdgeMerges(root: seq<nat>, root': seq<nat>, edges: seq<Edge>, u: nat, v: nat)
    requires Partition(root, edges) && u < |root| == |root'| && v < |root|
    requires forall a, b :: 0 <= a < |root| && 0 <= b < |root| ==> (root'[a] == root'[b] <==> Merged(root, u, v, a, b))
    ensures Partition(root', edges + [Edge(u, v)])
  {
    var edges' := edges + [Edge(u, v)];
    forall a, b | 0 <= a < |root'| && 0 <= b < |root'|
      ensures root'[a] == root'[b] <==> Linked(edges', |edges'|, a, b)
    {
      EdgeMergesAt(root, edges, u, v, a, b);
      assert root'[a] == root'[b] <==> Merged(root, u, v, a, b);
    }
  }

  lemma {:induction false} EdgeMergesAt(root: seq<nat>, edges: seq<Edge>, u: nat, v: nat, a: nat, b: nat)
    requires Partition(root, edges) && u < |root| && v < |root| && a < |root| && b < |root|
    ensures Merged(root, u, v, a, b) <==> Linked(edges + [Edge(u, v)], |edges| + 1, a, b)
  {
    var edges' := edges + [Edge(u, v)];
    LinkedPrefix(edges, edges', |edges|, a, b);
    LinkedPrefix(edges, edges', |edges|, a, u);
    LinkedPrefix(edges, edges', |edges|, a, v);
    LinkedPrefix(edges, edges', |edges|, u, b);
    LinkedPrefix(edges, edges', |edges|, v, b);
  }

  /** No edges: every node is a set of its own. */
  lemma {:induction false} NoEdges(root: seq<nat>)
    requires forall x :: 0 <= x < |root| ==> root[x] == x
    ensures Partition(root, [])
  {
  }

  // ----- the passes -----

  /** Join a node with its neighbours below. */
  method JoinNode(dsu: DisjointSetForest, node: GraphNode, low: seq<GraphNode>, ghost edges: seq<Edge>)
    requires dsu.Valid() && Partition(dsu.root, edges) && LowKnown(node, low)
    requires node.id < |dsu.root| && forall i :: 0 <= i < |low| ==> low[i].id < |dsu.root|
    modifies dsu, dsu.parent, dsu.rank
    ensures dsu.Valid() && |dsu.root| == old(|dsu.root|)
    ensures Partition(dsu.root, edges + NodeEdges(node, low, |node.lowAdj|))
  {
    assert edges + [] == edges;
    for a := 0 to |node.lowAdj|
      invariant dsu.Valid() && |dsu.root| == old(|dsu.root|)
      invariant Partition(dsu.root, edges + NodeEdges(node, low, a))
    {
      ghost var done, root := edges + NodeEdges(node, low, a), dsu.root;
      var idU, idV := node.id, low[node.lowAdj[a]].id;
      var setU := dsu.FindSet(idU);
      var setV := dsu.FindSet(idV);
      if setU != setV {
        dsu.UnionSet(idU, idV);
      }
      EdgeMerges(root, dsu.root, done, idU, idV);
      assert edges + NodeEdges(node, low, a + 1) == done + [Edge(idU, idV)];
    }
  }

  /** Join all nodes of layer k with their neighbours below. */
  method JoinLayer(dsu: DisjointSetForest, layers: seq<seq<GraphNode>>, k: nat, ghost edges: seq<Edge>)
    requires dsu.Valid() && Partition(dsu.root, edges) && WellFormed(layers, |dsu.root|) && k < |layers|
    modifies dsu, dsu.parent, dsu.rank
    ensures dsu.Valid() && |dsu.root| == old(|dsu.root|)
    ensures Partition(dsu.root, edges + LayerEdges(layers, |dsu.root|, k, |layers[k]|))
  {
    ghost var nodeCount := |dsu.root|;
    assert edges + [] == edges;
    for i := 0 to |layers[k]|
      invariant dsu.Valid() && |dsu.root| == nodeCount
      invariant Partition(dsu.root, edges + LayerEdges(layers, nodeCount, k, i))
    {
      if k > 0 {
        ghost var done := edges + LayerEdges(layers, nodeCount, k, i);
        JoinNode(dsu, layers[k][i], layers[k - 1], done);
        assert edges + LayerEdges(layers, nodeCount, k, i + 1)
               == done + NodeEdges(layers[k][i], layers[k - 1], |layers[k][i].lowAdj|);
      }
    }
  }

  /** Whether one of the neighbours of a pin is in the set of a node. */
  method Meets(dsu: DisjointSetForest, id: nat, nbrs: seq<nat>, ghost edges: seq<Edge>) returns (met: bool)
    requires dsu.Valid() && Partition(dsu.root, edges) && id < |dsu.root|
    requires forall b :: 0 <= b < |nbrs| ==> nbrs[b] < |dsu.root|
    modifies dsu.parent
    ensures dsu.Valid() && met == Touches(edges, nbrs, |nbrs|, id)
  {
    for b := 0 to |nbrs|
      invariant dsu.Valid() && !Touches(edges, nbrs, b, id)
    {
      var setU := dsu.FindSet(id);
      var setNbr := dsu.FindSet(nbrs[b]);
      if setU == setNbr {
        return true;
      }
    }
    met := false;
  }

  /** The gates of one node. */
  method CollectGates(dsu: DisjointSetForest, node: GraphNode, pinNbrs: seq<seq<nat>>, ghost edges: seq<Edge>)
    requires dsu.Valid() && Partition(dsu.root, edges) && node.id < |dsu.root|
    requires NbrsKnown(pinNbrs, |dsu.root|)
    modifies dsu.parent, node`gates
    ensures dsu.Valid() && node.gates == old(node.gates) + GatesBy(edges, pinNbrs, |pinNbrs|, node.id)
  {
    for g := 0 to |pinNbrs|
      invariant dsu.Valid() && node.gates == old(node.gates) + GatesBy(edges, pinNbrs, g, node.id)
    {
      var met := Meets(dsu, node.id, pinNbrs[g], edges);
      if met {
        node.gates := node.gates + {g};
      }
      assert GatesBy(edges, pinNbrs, g + 1, node.id)
             == GatesBy(edges, pinNbrs, g, node.id) + if met then {g} else {};
    }
  }

  /** The gates of all nodes of one layer. */
  method CollectLayer(dsu: DisjointSetForest, nodes: seq<GraphNode>, pinNbrs: seq<seq<nat>>, ghost edges: seq<Edge>)
    requires dsu.Valid() && Partition(dsu.root, edges)
    requires forall i :: 0 <= i < |nodes| ==> nodes[i].id < |dsu.root|
    requires forall i, j :: 0 <= i < j < |nodes| ==> nodes[i] != nodes[j]
    requires NbrsKnown(pinNbrs, |dsu.root|)
    modifies dsu.parent, nodes
    ensures dsu.Valid()
    ensures forall i :: 0 <= i < |nodes| ==>
              nodes[i].gates == old(nodes[i].gates) + GatesBy(edges, pinNbrs, |pinNbrs|, nodes[i].id)
  {
    for i := 0 to |nodes|
      invariant dsu.Valid()
      invariant forall j :: 0 <= j < i ==>
                  nodes[j].gates == old(nodes[j].gates) + GatesBy(edges, pinNbrs, |pinNbrs|, nodes[j].id)
      invariant forall j :: i <= j < |nodes| ==> nodes[j].gates == old(nodes[j].gates)
    {
      CollectGates(dsu, nodes[i], pinNbrs, edges);
    }
  }

  ghost function AllNodes(layers: seq<seq<GraphNode>>): set<GraphNode> {
    set k, i | 0 <= k < |layers| && 0 <= i < |layers[k]| :: layers[k][i]
  }

  /** No polygon is listed twice. */
  ghost predicate NodesDiffer(layers: seq<seq<GraphNode>>) {
    forall k, m {:trigger LayersDiffer(layers, k, m)} :: 0 <= k < |layers| && 0 <= m < |layers| ==> LayersDiffer(layers, k, m)
  }

  ghost predicate LayersDiffer(layers: seq<seq<GraphNode>>, k: nat, m: nat)
    requires k < |layers| && m < |layers|
  {
    forall i, j :: 0 <= i < |layers[k]| && 0 <= j < |layers[m]| && layers[k][i] == layers[m][j] ==> k == m && i == j
  }

  /** The neighbours of every pin are nodes. */
  ghost predicate NbrsKnown(pinNbrs: seq<seq<nat>>, nodeCount: nat) {
    forall g, b :: 0 <= g < |pinNbrs| && 0 <= b < |pinNbrs[g]| ==> pinNbrs[g][b] < nodeCount
  }

  /** The gates of a node on layer k once the layers before `done` have been passed. */
  ghost function Saved(layers: seq<seq<GraphNode>>, nodeCount: nat, first: nat, done: nat, pinNbrs: seq<seq<nat>>,
                       k: nat, id: nat): set<nat>
    requires WellFormed(layers, nodeCount) && k < |layers|
  {
    if k < first || k >= done then {} else GatesAt(layers, nodeCount, first, pinNbrs, k, id)
  }

  /** One layer: join its nodes with what is below, then collect their gates. */
  method PassLayer(dsu: DisjointSetForest, layers: seq<seq<GraphNode>>, k: nat, pinNbrs: seq<seq<nat>>, ghost edges: seq<Edge>)
    requires dsu.Valid() && Partition(dsu.root, edges) && WellFormed(layers, |dsu.root|) && k < |layers|
    requires NodesDiffer(layers)
    requires NbrsKnown(pinNbrs, |dsu.root|)
    modifies dsu, dsu.parent, dsu.rank, layers[k]
    ensures dsu.Valid() && |dsu.root| == old(|dsu.root|)
    ensures Partition(dsu.root, edges + LayerEdges(layers, |dsu.root|, k, |layers[k]|))
    ensures forall i :: 0 <= i < |layers[k]| ==>
              layers[k][i].gates == old(layers[k][i].gates)
                + GatesBy(edges + LayerEdges(layers, |dsu.root|, k, |layers[k]|), pinNbrs, |pinNbrs|, layers[k][i].id)
    ensures forall m, i :: 0 <= m < |layers| && m != k && 0 <= i < |layers[m]| ==>
              layers[m][i].gates == old(layers[m][i].gates)
  {
    assert LayersDiffer(layers, k, k);
    forall m, i | 0 <= m < |layers| && m != k && 0 <= i < |layers[m]| ensures layers[m][i] !in layers[k] {
      assert LayersDiffer(layers, m, k);
    }
    JoinLayer(dsu, layers, k, edges);
    CollectLayer(dsu, layers[k], pinNbrs, edges + LayerEdges(layers, |dsu.root|, k, |layers[k]|));
  }

  /** From the first routing layer upwards: join the nodes of the layer with what is below, then
      collect the gates of its nodes. */
  method SaveGates(layers: seq<seq<GraphNode>>, first: nat, pinNbrs: seq<seq<nat>>, nodeCount: nat)
    requires WellFormed(layers, nodeCount) && NodesDiffer(layers)
    requires NbrsKnown(pinNbrs, nodeCount)
    modifies AllNodes(layers)
    ensures forall k, i :: 0 <= k < |layers| && 0 <= i < |layers[k]| ==>
              layers[k][i].gates == old(layers[k][i].gates)
                + Saved(layers, nodeCount, first, |layers|, pinNbrs, k, layers[k][i].id)
  {
    var dsu := new DisjointSetForest(nodeCount);
    NoEdges(dsu.root);
    ghost var edges: seq<Edge> := [];
    var k := first;
    while k < |layers|
      invariant dsu.Valid() && fresh(dsu) && fresh(dsu.parent) && fresh(dsu.rank) && |dsu.root| == nodeCount
      invariant first <= k && (k <= |layers| ==> edges == EdgesBelow(layers, nodeCount, first, k))
      invariant Partition(dsu.root, edges)
      invariant forall m, i :: 0 <= m < |layers| && 0 <= i < |layers[m]| ==>
                  layers[m][i].gates == old(layers[m][i].gates)
                    + Saved(layers, nodeCount, first, k, pinNbrs, m, layers[m][i].id)
    {
      PassLayer(dsu, layers, k, pinNbrs, edges);
      edges := edges + LayerEdges(layers, nodeCount, k, |layers[k]|);
      k := k + 1;
    }
  }

  // ----- what it means -----

  /** Some path leads from a node to one of the neighbours. */
  ghost predicate HasPath(edges: seq<Edge>, nbrs: seq<nat>, id: nat) {
    exists p: seq<nat>, b: nat :: b < |nbrs| && PathFrom(edges, |edges|, p, id, nbrs[b])
  }

  lemma {:induction false} TouchesIffPath(edges: seq<Edge>, nbrs: seq<nat>, id: nat)
    ensures Touches(edges, nbrs, |nbrs|, id) <==> HasPath(edges, nbrs, id)
  {
    if Touches(edges, nbrs, |nbrs|, id) {
      var b :| 0 <= b < |nbrs| && Linked(edges, |edges|, id, nbrs[b]);
      var p := LinkedPath(edges, |edges|, id, nbrs[b]);
      assert PathFrom(edges, |edges|, p, id, nbrs[b]);
    }
    if HasPath(edges, nbrs, id) {
      var p: seq<nat>, b: nat :| b < |nbrs| && PathFrom(edges, |edges|, p, id, nbrs[b]);
      PathLinked(edges, |edges|, p);
    }
  }

  lemma {:induction false} NodeEdgeIn(node: GraphNode, low: seq<GraphNode>, n: nat, a: nat) returns (i: nat)
    requires a < n <= |node.lowAdj| && LowKnown(node, low)
    ensures i < |NodeEdges(node, low, n)| && NodeEdges(node, low, n)[i] == Edge(node.id, low[node.lowAdj[a]].id)
  {
    if a == n - 1 {
      i := |NodeEdges(node, low, n - 1)|;
    } else {
      i := NodeEdgeIn(node, low, n - 1, a);
    }
  }

  lemma {:induction false} LayerEdgeIn(layers: seq<seq<GraphNode>>, nodeCount: nat, k: nat, n: nat, i: nat, a: nat)
    returns (e: nat)
    requires WellFormed(layers, nodeCount) && 0 < k < |layers| && i < n <= |layers[k]| && a < |layers[k][i].lowAdj|
    ensures e < |LayerEdges(layers, nodeCount, k, n)|
    ensures LayerEdges(layers, nodeCount, k, n)[e] == Edge(layers[k][i].id, layers[k - 1][layers[k][i].lowAdj[a]].id)
  {
    if i == n - 1 {
      var f := NodeEdgeIn(layers[k][i], layers[k - 1], |layers[k][i].lowAdj|, a);
      e := |LayerEdges(layers, nodeCount, k, n - 1)| + f;
    } else {
      e := LayerEdgeIn(layers, nodeCount, k, n - 1, i, a);
    }
  }

  /** Polygon i of layer m lists a polygon of the layer below, and these two are u and v. */
  ghost predicate ListedAt(layers: seq<seq<GraphNode>>, nodeCount: nat, m: nat, i: nat, u: nat, v: nat)
    requires WellFormed(layers, nodeCount) && 0 < m < |layers| && i < |layers[m]|
  {
    exists a :: 0 <= a < |layers[m][i].lowAdj| && u == layers[m][i].id && v == layers[m - 1][layers[m][i].lowAdj[a]].id
  }

  /** Polygon u is on one of the layers from `first` to k, and lists v as a neighbour below. */
  ghost predicate Lists(layers: seq<seq<GraphNode>>, nodeCount: nat, first: nat, k: nat, u: nat, v: nat)
    requires WellFormed(layers, nodeCount) && k < |layers|
  {
    exists m: nat, i: nat :: first <= m <= k && 0 < m && i < |layers[m]| && ListedAt(layers, nodeCount, m, i, u, v)
  }

  ghost predicate Neighbours(layers: seq<seq<GraphNode>>, nodeCount: nat, first: nat, k: nat, u: nat, v: nat)
    requires WellFormed(layers, nodeCount) && k < |layers|
  {
    Lists(layers, nodeCount, first, k, u, v) || Lists(layers, nodeCount, first, k, v, u)
  }

  /** A path from polygon to neighbouring polygon through metal of the layers from `first` to k. */
  ghost predicate MetalPath(layers: seq<seq<GraphNode>>, nodeCount: nat, first: nat, k: nat, p: seq<nat>, a: nat, b: nat)
    requires WellFormed(layers, nodeCount) && k < |layers|
  {
    && p != [] && p[0] == a && p[|p| - 1] == b
    && forall i: nat {:trigger NextAt(layers, nodeCount, first, k, p, i)} :: i < |p| - 1 ==>
         NextAt(layers, nodeCount, first, k, p, i)
  }

  ghost predicate NextAt(layers: seq<seq<GraphNode>>, nodeCount: nat, first: nat, k: nat, p: seq<nat>, i: nat)
    requires WellFormed(layers, nodeCount) && k < |layers| && i < |p| - 1
  {
    Neighbours(layers, nodeCount, first, k, p[i], p[i + 1])
  }

  ghost predicate HasMetalPath(layers: seq<seq<GraphNode>>, nodeCount: nat, first: nat, k: nat, id: nat, nbrs: seq<nat>)
    requires WellFormed(layers, nodeCount) && k < |layers|
  {
    exists p: seq<nat>, b: nat :: b < |nbrs| && MetalPath(layers, nodeCount, first, k, p, id, nbrs[b])
  }

  lemma {:induction false} NodeEdgeListed(node: GraphNode, low: seq<GraphNode>, n: nat, e: nat) returns (a: nat)
    requires n <= |node.lowAdj| && LowKnown(node, low) && e < |NodeEdges(node, low, n)|
    ensures a < n && NodeEdges(node, low, n)[e] == Edge(node.id, low[node.lowAdj[a]].id)
  {
    if e < |NodeEdges(node, low, n - 1)| {
      a := NodeEdgeListed(node, low, n - 1, e);
    } else {
      a := n - 1;
    }
  }

  lemma {:induction false} LayerEdgeListed(layers: seq<seq<GraphNode>>, nodeCount: nat, k: nat, n: nat, e: nat) returns (i: nat)
    requires WellFormed(layers, nodeCount) && k < |layers| && n <= |layers[k]| && e < |LayerEdges(layers, nodeCount, k, n)|
    ensures 0 < k && i < n
    ensures ListedAt(layers, nodeCount, k, i, LayerEdges(layers, nodeCount, k, n)[e].u, LayerEdges(layers, nodeCount, k, n)[e].v)
  {
    var before := LayerEdges(layers, nodeCount, k, n - 1);
    if e < |before| {
      i := LayerEdgeListed(layers, nodeCount, k, n - 1, e);
    } else {
      i := n - 1;
      var node := layers[k][n - 1];
      var a := NodeEdgeListed(node, layers[k - 1], |node.lowAdj|, e - |before|);
    }
  }

  /** The edges are exactly the pairs of polygons of which one lists the other. */
  lemma {:induction false} EdgeIsListed(layers: seq<seq<GraphNode>>, nodeCount: nat, first: nat, k: nat, j: nat, e: nat)
    requires WellFormed(layers, nodeCount) && k < |layers| && j <= k + 1 && e < |EdgesBelow(layers, nodeCount, first, j)|
    ensures var edge := EdgesBelow(layers, nodeCount, first, j)[e]; Lists(layers, nodeCount, first, k, edge.u, edge.v)
  {
    var before := EdgesBelow(layers, nodeCount, first, j - 1);
    if e < |before| {
      EdgeIsListed(layers, nodeCount, first, k, j - 1, e);
    } else {
      var i := LayerEdgeListed(layers, nodeCount, j - 1, |layers[j - 1]|, e - |before|);
    }
  }

  lemma {:induction false} ListedIsEdge(layers: seq<seq<GraphNode>>, nodeCount: nat, first: nat, m: nat, j: nat, i: nat, u: nat, v: nat)
    returns (e: nat)
    requires WellFormed(layers, nodeCount) && 0 < m < j <= |layers| && first <= m && i < |layers[m]|
    requires ListedAt(layers, nodeCount, m, i, u, v)
    ensures e < |EdgesBelow(layers, nodeCount, first, j)| && EdgesBelow(layers, nodeCount, first, j)[e] == Edge(u, v)
  {
    if m == j - 1 {
      var a :| 0 <= a < |layers[m][i].lowAdj| && u == layers[m][i].id && v == layers[m - 1][layers[m][i].lowAdj[a]].id;
      var f := LayerEdgeIn(layers, nodeCount, m, |layers[m]|, i, a);
      e := |EdgesBelow(layers, nodeCount, first, j - 1)| + f;
    } else {
      e := ListedIsEdge(layers, nodeCount, first, m, j - 1, i, u, v);
    }
  }

  lemma {:induction false} StepIsNeighbour(layers: seq<seq<GraphNode>>, nodeCount: nat, first: nat, k: nat, u: nat, v: nat)
    requires WellFormed(layers, nodeCount) && k < |layers|
    ensures var edges := EdgesBelow(layers, nodeCount, first, k + 1);
            Step(edges, |edges|, u, v) <==> Neighbours(layers, nodeCount, first, k, u, v)
  {
    var edges := EdgesBelow(layers, nodeCount, first, k + 1);
    if Step(edges, |edges|, u, v) {
      var e :| 0 <= e < |edges| && Joins(edges[e], u, v);
      EdgeIsListed(layers, nodeCount, first, k, k + 1, e);
    }
    if Lists(layers, nodeCount, first, k, u, v) {
      var e := ListedEdge(layers, nodeCount, first, k, u, v);
      assert Joins(edges[e], u, v);
    }
    if Lists(layers, nodeCount, first, k, v, u) {
      var e := ListedEdge(layers, nodeCount, first, k, v, u);
      assert Joins(edges[e], u, v);
    }
  }

  lemma {:induction false} ListedEdge(layers: seq<seq<GraphNode>>, nodeCount: nat, first: nat, k: nat, u: nat, v: nat)
    returns (e: nat)
    requires WellFormed(layers, nodeCount) && k < |layers| && Lists(layers, nodeCount, first, k, u, v)
    ensures e < |EdgesBelow(layers, nodeCount, first, k + 1)| && EdgesBelow(layers, nodeCount, first, k + 1)[e] == Edge(u, v)
  {
    var m: nat, i: nat :| first <= m <= k && 0 < m && i < |layers[m]| && ListedAt(layers, nodeCount, m, i, u, v);
    e := ListedIsEdge(layers, nodeCount, first, m, k + 1, i, u, v);
  }

  lemma {:induction false} PathIsMetal(layers: seq<seq<GraphNode>>, nodeCount: nat, first: nat, k: nat, p: seq<nat>, a: nat, b: nat)
    requires WellFormed(layers, nodeCount) && k < |layers|
    ensures var edges := EdgesBelow(layers, nodeCount, first, k + 1);
            PathFrom(edges, |edges|, p, a, b) <==> MetalPath(layers, nodeCount, first, k, p, a, b)
  {
    var edges := EdgesBelow(layers, nodeCount, first, k + 1);
    forall i: nat {:trigger StepAt(edges, |edges|, p, i)} {:trigger NextAt(layers, nodeCount, first, k, p, i)} | i < |p| - 1
      ensures StepAt(edges, |edges|, p, i) <==> NextAt(layers, nodeCount, first, k, p, i)
    {
      StepIsNeighbour(layers, nodeCount, first, k, p[i], p[i + 1]);
    }
  }

  /** A pin is a gate of a node on layer k exactly if some path through metal of the layers from
      the first routing layer up to k leads from the node to a neighbour of the pin. */
  lemma {:induction false} GateIffPath(layers: seq<seq<GraphNode>>, nodeCount: nat, first: nat, pinNbrs: seq<seq<nat>>,
                                       k: nat, id: nat, g: nat)
    requires WellFormed(layers, nodeCount) && k < |layers| && g < |pinNbrs|
    ensures g in GatesAt(layers, nodeCount, first, pinNbrs, k, id)
            <==> HasMetalPath(layers, nodeCount, first, k, id, pinNbrs[g])
  {
    var edges := EdgesBelow(layers, nodeCount, first, k + 1);
    TouchesIffPath(edges, pinNbrs[g], id);
    forall p: seq<nat>, b: nat | b < |pinNbrs[g]|
      ensures PathFrom(edges, |edges|, p, id, pinNbrs[g][b]) <==> MetalPath(layers, nodeCount, first, k, p, id, pinNbrs[g][b])
    {
      PathIsMetal(layers, nodeCount, first, k, p, id, pinNbrs[g][b]);
    }
  }

  /** Adjacent upper nodes see at least the gates of the lower ones. */
  lemma {:induction false} LowerGatesContained(layers: seq<seq<GraphNode>>, nodeCount: nat, first: nat,
                                               pinNbrs: seq<seq<nat>>, k: nat, i: nat, a: nat)
    requires WellFormed(layers, nodeCount) && first < k < |layers| && i < |layers[k]| && a < |layers[k][i].lowAdj|
    ensures GatesAt(layers, nodeCount, first, pinNbrs, k - 1, layers[k - 1][layers[k][i].lowAdj[a]].id)
            <= GatesAt(layers, nodeCount, first, pinNbrs, k, layers[k][i].id)
  {
    var u, v := layers[k][i].id, layers[k - 1][layers[k][i].lowAdj[a]].id;
    var below, all := EdgesBelow(layers, nodeCount, first, k), EdgesBelow(layers, nodeCount, first, k + 1);
    var e := LayerEdgeIn(layers, nodeCount, k, |layers[k]|, i, a);
    assert all[|below| + e] == Edge(u, v);
    assert Joins(all[|below| + e], u, v);
    StepLinked(all, |all|, u, v);
    forall g | g in GatesBy(below, pinNbrs, |pinNbrs|, v)
      ensures g in GatesBy(all, pinNbrs, |pinNbrs|, u)
    {
      var b :| 0 <= b < |pinNbrs[g]| && Linked(below, |below|, v, pinNbrs[g][b]);
      LinkedPrefix(below, all, |below|, v, pinNbrs[g][b]);
      LinkedMore(all, |below|, |all|, v, pinNbrs[g][b]);
      LinkedOn(all, |all|, u, v, pinNbrs[g][b]);
    }
  }
}
