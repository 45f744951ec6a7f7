/** The whole way of a clock net: its sinks are clustered, the levels are laid out, and the tree is
    built over the clusters. */
module HTreeRuns {
  import opened ClockNets
  import opened Clusterings
  import opened Branching
  import opened BranchNets
  import LeafNets
  import PreClustering
  import opened ClusterRounds
  import opened HTreeBuilding

  /** A builder with its levels laid out, one for each list of wire segments. */
  method LayOut(clock: Clock, m: map<Point, ClockInst>, locs: seq<Point>, buffers: seq<nat>, wires: seq<seq<nat>>,
                halve: bool, fraction: real, flow: nat -> nat -> Rounds, treeBufLevels0: nat)
    returns (builder: HTreeBuilder, ghost levels: seq<Level>)
    requires AllKnown(wires, buffers) && fraction >= 0.0
    ensures fresh(builder) && builder.clock == clock && builder.topLevelSinksClustered == locs && builder.mapLocationToSink == m
    ensures WiresOf(levels, wires) && builder.buffers == buffers && builder.Laid(levels) && builder.Bare(0) && builder.treeBufLevels == treeBufLevels0
    ensures forall i :: 0 <= i < |builder.topologyForEachLevel| ==> fresh(builder.topologyForEachLevel[i])
  {
    builder := new HTreeBuilder(clock, buffers);
    builder.topLevelSinksClustered, builder.mapLocationToSink, builder.treeBufLevels := locs, m, treeBufLevels0;
    levels := [];
    for i := 0 to |wires|
      invariant builder.topLevelSinksClustered == locs && builder.mapLocationToSink == m
      invariant |levels| == i && (forall k :: 0 <= k < i ==> levels[k].wires == wires[k]) && builder.buffers == buffers
      invariant builder.Laid(levels) && builder.Bare(0) && builder.treeBufLevels == treeBufLevels0
      invariant forall i :: 0 <= i < |builder.topologyForEachLevel| ==> fresh(builder.topologyForEachLevel[i])
    {
      ghost var level := builder.AddLevel(wires[i], halve, fraction, flow(i), levels);
      levels := levels + [level];
    }
  }

  /** One round of clustering. */
  method ClusterSinks(clock: Clock, points: seq<Point>, m0: map<Point, ClockInst>, clusters: seq<seq<nat>>, secondLevel: bool,
                      treeBufLevels0: nat, ghost earlier: set<ClockInst>)
    returns (m: map<Point, ClockInst>, locs: seq<Point>, treeBufLevels: nat, ghost c: Clustering<ClockInst>)
    requires clock.Valid() && Waiting(m0, points, clock.Nets()) && Fit(points, clusters)
    modifies clock
    ensures clock.Valid() && PreClustering.NewNets(clock, !secondLevel) && NetsAdded(clock) && clock.clockBuffers == old(clock.clockBuffers) + c.bufs
    ensures c.Valid() && c.nets0 == old(clock.Nets()) && c.m == m0 && c.points == points && c.clusters == clusters
    ensures clock.Nets() == c.nets0 + c.Leaves() && m == c.Map() && locs == c.Locs() && Waiting(m, locs, clock.Nets())
    ensures treeBufLevels == treeBufLevels0 + if clusters == [] then 0 else 1
    ensures forall x :: x in c.bufs ==> x !in earlier
  {
    ghost var nets0 := clock.Nets();
    ghost var leafBufs;
    m, locs, leafBufs := PreClustering.PreSinkClustering(clock, points, m0, clusters, secondLevel);
    FreshAreNew(nets0, leafBufs);
    FreshAreOthers(earlier, leafBufs);
    c := Clustering(nets0, m0, points, clusters, leafBufs);
    Ready(c);
    treeBufLevels := treeBufLevels0;
    if |clusters| > 0 {
      treeBufLevels := treeBufLevels + 1;
    }
  }

  /** Instances that have just been created are none of those there were. */
  twostate lemma {:induction false} FreshAreOthers(earlier: set<ClockInst>, new bufs: seq<ClockInst>)
    requires forall x :: x in bufs ==> fresh(x)
    ensures forall x :: x in bufs ==> x !in earlier
  {
  }

  /** Build the tree over the places.  The builder finds every location it is given. */
  method BuildNets(clock: Clock, m: map<Point, ClockInst>, locs: seq<Point>, buffers: seq<nat>, wires: seq<seq<nat>>,
                   halve: bool, fraction: real, flow: nat -> nat -> Rounds, treeBufLevels0: nat)
    returns (treeBufLevels: nat, ghost l: LeafNets.Leaves<ClockInst>)
    requires clock.Valid() && Waiting(m, locs, clock.Nets()) && wires != [] && AllKnown(wires, buffers) && fraction >= 0.0
    modifies clock, clock.subNets
    ensures Extended(clock, l.bufs) && l.bufs != [] && l.n0 == old(clock.Nets()) && l.m == m
    ensures AllAttached(l, clock, locs)
    ensures l.depth == TreeBuffers(wires, buffers)
    ensures locs != [] ==> treeBufLevels == treeBufLevels0 + l.depth + 1
  {
    var builder;
    ghost var levels;
    builder, levels := LayOut(clock, m, locs, buffers, wires, halve, fraction, flow, treeBufLevels0);
    var ok;
    ok, l := builder.CreateClockSubNets(levels);
    DepthIsTotal(levels, wires, buffers, |levels|);
    treeBufLevels := builder.treeBufLevels;
  }

  /** The same, seen from the places. */
  method BuildOver(clock: Clock, m: map<Point, ClockInst>, locs: seq<Point>, buffers: seq<nat>, wires: seq<seq<nat>>,
                   halve: bool, fraction: real, flow: nat -> nat -> Rounds, treeBufLevels0: nat, ghost earlier: set<ClockInst>)
    returns (treeBufLevels: nat, ghost tree: nat, ghost bufs: seq<ClockInst>)
    requires clock.Valid() && Waiting(m, locs, clock.Nets()) && wires != [] && AllKnown(wires, buffers) && fraction >= 0.0
    modifies clock, clock.subNets
    ensures clock.Valid() && bufs != [] && clock.clockBuffers == old(clock.clockBuffers) + bufs
    ensures SpreadFrom(clock.Nets(), |old(clock.Nets())|, Stage(old(clock.Nets()), m, locs), multiset(bufs[1..]),
                       Everywhere(tree))
    ensures tree == TreeBuffers(wires, buffers) + 1
    ensures locs != [] ==> treeBufLevels == treeBufLevels0 + tree
    ensures forall x :: x in bufs ==> x !in earlier
  {
    ghost var l;
    treeBufLevels, l := BuildNets(clock, m, locs, buffers, wires, halve, fraction, flow, treeBufLevels0);
    bufs, tree := l.bufs, l.depth + 1;
    FreshAreOthers(earlier, bufs);
    TreeSpreads(l, clock.Nets(), locs, tree);
  }

  /** Since the start, nets have only been added. */
  twostate predicate NetsAdded(clock: Clock)
    reads clock
  {
    forall i :: 0 <= i < |clock.subNets| ==> clock.subNets[i] in old(clock.subNets) || fresh(clock.subNets[i])
  }

  /** The second round, if there is one. */
  method ClusterAgain(clock: Clock, m1: map<Point, ClockInst>, locs1: seq<Point>, second: Option<seq<seq<nat>>>,
                      treeBufLevels0: nat, ghost c: Clustering<ClockInst>)
    returns (m: map<Point, ClockInst>, locs: seq<Point>, treeBufLevels: nat, ghost cs: seq<Clustering<ClockInst>>,
             ghost stages: seq<Stage<ClockInst>>)
    requires clock.Valid() && Waiting(m1, locs1, clock.Nets()) && (second.Some? ==> Fit(locs1, second.value))
    requires c.Valid() && Stage(clock.Nets(), m1, locs1) == After(c)
    modifies clock
    ensures clock.Valid() && Waiting(m, locs, clock.Nets()) && NetsAdded(clock)
    ensures RoundsFrom(cs, stages) && stages[0] == Before(c) && stages[|cs|] == Stage(clock.Nets(), m, locs)
    ensures NewTo(cs, multiset{}) && Clusters(cs, ClustersOf(Some(c.clusters), second))
    ensures locs1 != [] ==> locs != [] && treeBufLevels + 1 == treeBufLevels0 + |cs|
  {
    m, locs, treeBufLevels, cs, stages := m1, locs1, treeBufLevels0, [c], [Before(c), After(c)];
    OneRound(c);
    if second.Some? {
      ghost var e;
      if locs1 != [] { PlacesLeft(locs1, second.value); }
      m, locs, treeBufLevels, e := ClusterSinks(clock, locs1, m1, second.value, true, treeBufLevels0, c.m.Values);
      cs, stages := [c, e], [Before(c), After(c), After(e)];
      TwoRounds(c, e);
    }
  }

  /** Cluster the sinks: not at all, once, or once more. */
  method ClusterAll(clock: Clock, points: seq<Point>, m0: map<Point, ClockInst>, first: Option<seq<seq<nat>>>,
                    second: Option<seq<seq<nat>>>)
    returns (m: map<Point, ClockInst>, locs: seq<Point>, treeBufLevels: nat, ghost cs: seq<Clustering<ClockInst>>,
             ghost stages: seq<Stage<ClockInst>>)
    requires clock.Valid() && Waiting(m0, points, clock.Nets()) && RoundsFit(points, first, second)
    modifies clock
    ensures clock.Valid() && Waiting(m, locs, clock.Nets()) && NetsAdded(clock)
    ensures RoundsFrom(cs, stages) && stages[0] == Stage(old(clock.Nets()), m0, points)
    ensures stages[|cs|] == Stage(clock.Nets(), m, locs)
    ensures NewTo(cs, multiset{}) && Clusters(cs, ClustersOf(first, second))
    ensures points != [] ==> locs != [] && treeBufLevels == |cs|
  {
    m, locs, treeBufLevels, cs, stages := m0, points, 0, [], [Stage(clock.Nets(), m0, points)];
    NoRound(stages[0]);
    if first.Some? {
      ghost var c;
      if points != [] { PlacesLeft(points, first.value); }
      m, locs, treeBufLevels, c := ClusterSinks(clock, points, m0, first.value, false, treeBufLevels, {});
      m, locs, treeBufLevels, cs, stages := ClusterAgain(clock, m, locs, second, treeBufLevels, c);
    }
  }

  /** The whole run, from the sinks of the clock to the finished tree. */
  method Run(clock: Clock, points: seq<Point>, m0: map<Point, ClockInst>, first: Option<seq<seq<nat>>>,
             second: Option<seq<seq<nat>>>, buffers: seq<nat>, wires: seq<seq<nat>>, halve: bool, fraction: real,
             flow: nat -> nat -> Rounds)
    returns (treeBufLevels: nat, ghost cs: seq<Clustering<ClockInst>>, ghost stages: seq<Stage<ClockInst>>,
             ghost bufs: seq<ClockInst>, ghost tree: nat)
    requires clock.Valid() && Waiting(m0, points, clock.Nets()) && RoundsFit(points, first, second)
    requires wires != [] && AllKnown(wires, buffers) && fraction >= 0.0
    modifies clock, clock.subNets
    ensures clock.Valid() && RoundsFrom(cs, stages) && Clusters(cs, ClustersOf(first, second))
    ensures stages[0] == Stage(old(clock.Nets()), m0, points)
    ensures AllInTree(clock.Nets(), |stages[|cs|].nets|, stages[0], cs, bufs, tree)
    ensures tree == TreeBuffers(wires, buffers) + 1
    ensures points != [] ==> treeBufLevels == tree + |cs|
  {
    var m, locs, levels;
    m, locs, levels, cs, stages := ClusterAll(clock, points, m0, first, second);
    ghost var end := Stage(clock.Nets(), m, locs);
    treeBufLevels, tree, bufs := BuildOver(clock, m, locs, buffers, wires, halve, fraction, flow, levels, KnownTo(cs));
    RunInTree(cs, stages, end, clock.Nets(), |end.nets|, bufs, tree);
  }
}
