/** What rounds of clustering and the tree over the last of them mean for the sinks there were to begin
    with. */
module ClusterRounds {
  import opened Netlists
  import opened ClockNets
  import opened Branching
  import opened BranchNets
  import opened LeafNets
  import opened TreeGrowth
  import opened PreClustering

  /** What the clusters leave for the tree: leaf nets after the nets there were before, and places
      that stand for the sinks still to be attached. */
  datatype Clustering<!T> = Clustering(nets0: Netlist<T>, m: map<Point, T>, points: seq<Point>, clusters: seq<seq<nat>>, bufs: seq<T>) {
    /** The sinks are clustered exactly once, and the leaf buffers are new. */
    ghost predicate Valid() {
      && Driven(nets0) && Apart(points, clusters) && Known(m, points) && Injective(m) && NoSinksYet(m, points, nets0)
      && multiset(Flat<nat>(clusters, |clusters|)) == multiset(seq(|points|, i => i))
      && |bufs| == Several(clusters, |clusters|) && Distinct(bufs)
      && forall x :: x in bufs ==> x !in m.Values && Absent(nets0, x)
    }

    ghost function Leaves(): Netlist<T>
      requires Valid()
    {
      LeafNetsOf(m, points, clusters, bufs, |clusters|)
    }

    function Map(): map<Point, T>
      requires Valid()
    {
      Replaced(m, points, clusters, bufs, |clusters|)
    }

    function Locs(): seq<Point>
      requires Valid()
    {
      Places(points, clusters, |clusters|)
    }
  }

  // ----- the places are ready for the tree -----

  lemma {:induction false} CountAtMostOne<T>(s: seq<T>, x: T)
    requires Distinct(s)
    ensures multiset(s)[x] <= 1 && (x in s <==> multiset(s)[x] == 1)
  {
    OnceEach(s, x);
    assert x in s <==> x in multiset(s);
  }

  lemma {:induction false} InstsHold<T>(m: map<Point, T>, locs: seq<Point>, x: T) returns (p: Point)
    requires Known(m, locs) && x in Insts(m, locs)
    ensures p in locs && m[p] == x && x in m.Values
  {
    var i :| 0 <= i < |locs| && Insts(m, locs)[i] == x;
    p := locs[i];
  }

  lemma {:induction false} InstsHas<T>(m: map<Point, T>, locs: seq<Point>, p: Point)
    requires Known(m, locs) && p in locs
    ensures m[p] in Insts(m, locs)
  {
    var i :| 0 <= i < |locs| && locs[i] == p;
    assert Insts(m, locs)[i] == m[p];
  }

  /** Old sinks and leaf buffers are one or the other, and none comes twice. */
  lemma {:induction false} OldAndNew<T>(c: Clustering<T>, x: T)
    requires c.Valid()
    ensures multiset(Insts(c.m, c.points))[x] + multiset(c.bufs)[x] <= 1
  {
    InstsDiffer(c.m, c.points);
    CountAtMostOne(Insts(c.m, c.points), x);
    CountAtMostOne(c.bufs, x);
    if x in Insts(c.m, c.points) {
      var p := InstsHold(c.m, c.points, x);
    }
  }

  /** The new sinks and the sinks on leaf nets are the old sinks and the leaf buffers. */
  lemma {:induction false} AllShared<T>(c: Clustering<T>)
    requires c.Valid()
    ensures Known(c.Map(), c.Locs())
    ensures multiset(Insts(c.Map(), c.Locs())) + AllSinks(c.Leaves()) == multiset(Insts(c.m, c.points)) + multiset(c.bufs)
  {
    var n := |c.clusters|;
    SinksShared(c.m, c.points, c.clusters, c.bufs, n);
    AllClustered(c.points, c.clusters);
    SameInsts(c.m, ClusteredPoints(c.points, c.clusters, n), c.points);
    assert c.bufs[..|c.bufs|] == c.bufs;
  }

  lemma {:induction false} NotBoth<T>(places: multiset<T>, leaves: multiset<T>, sinks: multiset<T>, bufs: multiset<T>, x: T)
    requires places + leaves == sinks + bufs && sinks[x] + bufs[x] <= 1 && places[x] >= 1
    ensures leaves[x] == 0 && sinks[x] + bufs[x] == 1
  {
    assert (places + leaves)[x] == (sinks + bufs)[x];
  }

  /** No new sink is on a leaf net, nor on a net from before. */
  lemma {:induction false} PlaceIsFree<T>(c: Clustering<T>, x: T)
    requires c.Valid() && Known(c.Map(), c.Locs()) && x in Insts(c.Map(), c.Locs())
    ensures x !in AllSinks(c.nets0 + c.Leaves())
  {
    AllShared(c);
    OldAndNew(c, x);
    assert x in multiset(Insts(c.Map(), c.Locs()));
    NotBoth(multiset(Insts(c.Map(), c.Locs())), AllSinks(c.Leaves()), multiset(Insts(c.m, c.points)), multiset(c.bufs), x);
    AllSinksJoin(c.nets0, c.Leaves());
    if x in c.bufs {
      NoSink(c.nets0, x);
    } else {
      assert x in multiset(Insts(c.m, c.points));
      var p := InstsHold(c.m, c.points, x);
    }
  }

  /** What clustering and the tree builder ask for: different known places, each standing for a sink of
      its own that is on no net yet. */
  ghost predicate Waiting<T>(m: map<Point, T>, locs: seq<Point>, nets: Netlist<T>) {
    Driven(nets) && Injective(m) && Known(m, locs) && Distinct(locs) && NoSinksYet(m, locs, nets)
  }

  /** After clustering, the places wait for the tree as the sinks did before. */
  lemma {:induction false} Ready<T>(c: Clustering<T>)
    requires c.Valid()
    ensures Waiting(c.Map(), c.Locs(), c.nets0 + c.Leaves())
  {
    ReadyForTheTree(c.m, c.points, c.clusters, c.bufs);
    forall p | p in c.Locs()
      ensures c.Map()[p] !in AllSinks(c.nets0 + c.Leaves())
    {
      InstsHas(c.Map(), c.Locs(), p);
      PlaceIsFree(c, c.Map()[p]);
    }
  }

  // ----- how many buffers a sink is behind -----

  /** x is a sink once, on a net that the driver of net r reaches through n buffers, itself included. */
  ghost predicate Behind<T>(nets: Netlist<T>, r: nat, x: T, n: nat) {
    n > 0 && AllSinks(nets)[x] == 1 && exists j: nat :: SinkOn(nets, j, x) && HangsAt(nets, r, j, n - 1)
  }

  ghost predicate AllBehind<T>(nets: Netlist<T>, r: nat, m: map<Point, T>, locs: seq<Point>, above: Point -> nat) {
    Known(m, locs) && forall p :: p in locs ==> Behind(nets, r, m[p], above(p))
  }

  /** All sinks at the places are in the tree, each behind the given number of buffers; what is a sink
      besides was one before or is one of the others; and the nets from before are as they were. */
  ghost predicate Spread<T>(nets: Netlist<T>, r: nat, n0: Netlist<T>, m: map<Point, T>, locs: seq<Point>,
                            others: multiset<T>, above: Point -> nat) {
    && AllBehind(nets, r, m, locs, above)
    && AllSinks(nets) == AllSinks(n0) + multiset(Insts(m, locs)) + others
    && |n0| <= |nets| && forall j :: 0 <= j < |n0| ==> nets[j] == n0[j]
  }

  // ----- the tree itself -----

  lemma {:induction false} FlatHolds<T>(s: seq<seq<T>>, n: nat, x: T) returns (b: nat)
    requires n <= |s| && x in Flat(s, n)
    ensures b < n && x in s[b]
  {
    if x in Flat(s, n - 1) {
      b := FlatHolds(s, n - 1, x);
    } else {
      b := n - 1;
    }
  }

  /** Every place is on a leaf net, at the depth of these. */
  lemma {:induction false} OnLeafNet<T>(l: Leaves<T>, nets: Netlist<T>, top: seq<Point>, p: Point) returns (j: nat)
    requires Complete(l, nets, top) && p in top
    ensures SinkOn(nets, j, l.m[p]) && HangsAt(nets, |l.n0|, j, l.depth)
  {
    assert p in multiset(top);
    var b := FlatHolds(l.sinks, |l.sinks|, p);
    assert LeafAt(l, nets, b, |l.sinks|) by { assert l.at[b] == l.at[b]; }
    j := l.at[b].value;
    InstsHas(l.m, l.sinks[b], p);
  }

  /** The same for all places. */
  function Everywhere(n: nat): Point -> nat {
    (p: Point) => n
  }

  lemma {:induction false} PlaceBehind<T>(l: Leaves<T>, nets: Netlist<T>, top: seq<Point>, p: Point)
    requires Complete(l, nets, top) && p in top && OnOne(nets, |l.n0|, l.m[p])
    ensures Behind(nets, |l.n0|, l.m[p], l.depth + 1)
  {
    var j := OnLeafNet(l, nets, top, p);
  }

  lemma {:induction false} AllPlacesBehind<T>(l: Leaves<T>, nets: Netlist<T>, top: seq<Point>, tree: nat)
    requires tree == l.depth + 1 && Complete(l, nets, top) && forall x :: x in Insts(l.m, top) ==> OnOne(nets, |l.n0|, x)
    ensures AllBehind(nets, |l.n0|, l.m, top, Everywhere(tree))
  {
    forall p | p in top
      ensures Behind(nets, |l.n0|, l.m[p], tree)
    {
      InstsHas(l.m, top, p);
      PlaceBehind(l, nets, top, p);
    }
  }

  lemma {:induction false} TreeSpreads<T>(l: Leaves<T>, nets: Netlist<T>, top: seq<Point>, tree: nat)
    requires tree == l.depth + 1 && Complete(l, nets, top) && OneTree(l.n0, nets, l.bufs, Insts(l.m, top))
    ensures Spread(nets, |l.n0|, l.n0, l.m, top, multiset(l.bufs[1..]), Everywhere(tree))
  {
    AllPlacesBehind(l, nets, top, tree);
    SwapLast(AllSinks(nets), AllSinks(l.n0), multiset(l.bufs[1..]), multiset(Insts(l.m, top)));
  }

  lemma {:induction false} SwapLast<T>(all: multiset<T>, a: multiset<T>, b: multiset<T>, c: multiset<T>)
    requires all == a + b + c
    ensures all == a + c + b
  {
  }

  // ----- one round of clustering taken back -----

  ghost predicate InCluster<T>(c: Clustering<T>, k: nat, p: Point)
    requires c.Valid()
  {
    k < |c.clusters| && p in PointsOf(c.points, c.clusters[k])
  }

  /** Every index is in some cluster. */
  lemma {:induction false} IndexClustered(clusters: seq<seq<nat>>, n: nat, i: nat) returns (k: nat)
    requires i < n && multiset(Flat<nat>(clusters, |clusters|)) == multiset(seq(n, i => i))
    ensures k < |clusters| && i in clusters[k]
  {
    var all: seq<nat> := seq(n, i => i);
    assert all[i] == i;
    assert i in multiset(all);
    k := FlatHolds(clusters, |clusters|, i);
  }

  lemma {:induction false} SomeCluster<T>(c: Clustering<T>, p: Point)
    requires c.Valid() && p in c.points
    ensures exists k: nat :: InCluster(c, k, p)
  {
    var i :| 0 <= i < |c.points| && c.points[i] == p;
    var k := IndexClustered(c.clusters, |c.points|, i);
    var q :| 0 <= q < |c.clusters[k]| && c.clusters[k][q] == i;
    PointThere(c.points, c.clusters[k], q);
    assert InCluster(c, k, p);
  }

  lemma {:induction false} PointThere(points: seq<Point>, cluster: seq<nat>, q: nat)
    requires q < |cluster| && forall i :: 0 <= i < |cluster| ==> cluster[i] < |points|
    ensures points[cluster[q]] in PointsOf(points, cluster)
  {
    assert PointsOf(points, cluster)[q] == points[cluster[q]];
  }

  /** The cluster of a place. */
  ghost function ClusterOf<T>(c: Clustering<T>, p: Point): (k: nat)
    requires c.Valid() && p in c.points
    ensures InCluster(c, k, p)
  {
    SomeCluster(c, p);
    var k: nat :| InCluster(c, k, p);
    k
  }

  /** Where the sink at a place is found after clustering. */
  ghost function Moved<T>(c: Clustering<T>, p: Point): Point
    requires c.Valid() && p in c.points
  {
    PlaceOf(c.points, c.clusters[ClusterOf(c, p)])
  }

  /** Whether it is behind a leaf buffer then. */
  ghost function LeafBuffer<T>(c: Clustering<T>, p: Point): nat
    requires c.Valid() && p in c.points
  {
    if |c.clusters[ClusterOf(c, p)]| > 1 then 1 else 0
  }

  lemma {:induction false} PlaceThere(points: seq<Point>, clusters: seq<seq<nat>>, n: nat, c: nat)
    requires c < n <= |clusters| && Indices(clusters, |points|) && clusters[c] != []
    ensures PlaceOf(points, clusters[c]) in Places(points, clusters, n)
  {
    if c < n - 1 { PlaceThere(points, clusters, n - 1, c); }
  }

  lemma {:induction false} LeafNetAt<T>(m: map<Point, T>, points: seq<Point>, clusters: seq<seq<nat>>, bufs: seq<T>, n: nat, k: nat)
    requires k < n <= |clusters| && Indices(clusters, |points|) && Known(m, points) && |bufs| >= Several(clusters, n)
    requires |clusters[k]| > 1
    ensures Several(clusters, k) < Several(clusters, n)
    ensures LeafNetsOf(m, points, clusters, bufs, n)[Several(clusters, k)]
            == [bufs[Several(clusters, k)]] + Insts(m, PointsOf(points, clusters[k]))
  {
    if k < n - 1 { LeafNetAt(m, points, clusters, bufs, n - 1, k); }
  }

  /** What is fed by a net that x is on, x drives. */
  lemma {:induction false} OneDeeper<T>(nets: Netlist<T>, r: nat, b: T, n: nat, q: nat, x: T)
    requires Behind(nets, r, b, n) && q < |nets| && nets[q] != [] && nets[q][0] == b && x in nets[q][1..] && AllSinks(nets)[x] == 1
    ensures Behind(nets, r, x, n + 1)
  {
    var j: nat :| SinkOn(nets, j, b) && HangsAt(nets, r, j, n - 1);
    assert Feeds(nets, j, q);
    assert SinkOn(nets, q, x);
  }

  lemma {:induction false} CountInSum<T>(all: multiset<T>, a: multiset<T>, b: multiset<T>, c: multiset<T>, d: multiset<T>, x: T)
    requires all == a + b + (c + d) && a[x] == 0 && b[x] == 1 && c[x] == 0 && d[x] == 0
    ensures all[x] == 1
  {
    assert (c + d)[x] == c[x] + d[x];
    assert all[x] == a[x] + b[x] + (c + d)[x];
  }

  lemma {:induction false} Traded<T>(all: multiset<T>, n0: multiset<T>, leaves: multiset<T>, places: multiset<T>, sinks: multiset<T>,
                                     bufs: multiset<T>, others: multiset<T>)
    requires all == n0 + leaves + places + others && places + leaves == sinks + bufs
    ensures all == n0 + sinks + (bufs + others)
  {
    assert all == n0 + (places + leaves) + others;
  }

  /** The sinks of a clustered netlist, seen from before the clustering. */
  lemma {:induction false} SinksBefore<T>(c: Clustering<T>, nets: Netlist<T>, others: multiset<T>)
    requires c.Valid() && Known(c.Map(), c.Locs())
    requires AllSinks(nets) == AllSinks(c.nets0 + c.Leaves()) + multiset(Insts(c.Map(), c.Locs())) + others
    ensures AllSinks(nets) == AllSinks(c.nets0) + multiset(Insts(c.m, c.points)) + (multiset(c.bufs) + others)
  {
    AllShared(c);
    AllSinksJoin(c.nets0, c.Leaves());
    Traded(AllSinks(nets), AllSinks(c.nets0), AllSinks(c.Leaves()), multiset(Insts(c.Map(), c.Locs())),
           multiset(Insts(c.m, c.points)), multiset(c.bufs), others);
  }

  lemma {:induction false} SinkOnce<T>(c: Clustering<T>, nets: Netlist<T>, others: multiset<T>, p: Point)
    requires c.Valid() && p in c.points && c.m[p] !in others
    requires AllSinks(nets) == AllSinks(c.nets0) + multiset(Insts(c.m, c.points)) + (multiset(c.bufs) + others)
    ensures AllSinks(nets)[c.m[p]] == 1
  {
    var x := c.m[p];
    InstsHas(c.m, c.points, p);
    InstsDiffer(c.m, c.points);
    CountAtMostOne(Insts(c.m, c.points), x);
    assert x in c.m.Values;
    assert x !in multiset(c.bufs);
    CountInSum(AllSinks(nets), AllSinks(c.nets0), multiset(Insts(c.m, c.points)), multiset(c.bufs), others, x);
  }

  /** A sink that is alone in its cluster stays where it was. */
  lemma {:induction false} SingleStays<T>(c: Clustering<T>, p: Point)
    requires c.Valid() && p in c.points && LeafBuffer(c, p) == 0
    ensures Moved(c, p) == p && p in c.Locs() && p in c.Map() && c.Map()[p] == c.m[p]
  {
    var k := ClusterOf(c, p);
    PlaceThere(c.points, c.clusters, |c.clusters|, k);
    SinksStay(c.m, c.points, c.clusters, c.bufs, |c.clusters|, p);
  }

  /** The sinks of a larger cluster are on the leaf net of the buffer at its centre. */
  lemma {:induction false} SeveralMoved<T>(c: Clustering<T>, p: Point) returns (q: nat)
    requires c.Valid() && p in c.points && LeafBuffer(c, p) == 1
    ensures Moved(c, p) in c.Locs() && Moved(c, p) in c.Map()
    ensures |c.nets0| <= q < |c.nets0 + c.Leaves()|
    ensures var net := (c.nets0 + c.Leaves())[q]; net != [] && net[0] == c.Map()[Moved(c, p)] && c.m[p] in net[1..]
  {
    var k, n := ClusterOf(c, p), |c.clusters|;
    PlaceThere(c.points, c.clusters, n, k);
    BufferStays(c.m, c.points, c.clusters, c.bufs, n, k);
    LeafNetAt(c.m, c.points, c.clusters, c.bufs, n, k);
    q := |c.nets0| + Several(c.clusters, k);
    InClusterInst(c, k, p);
  }

  lemma {:induction false} InClusterInst<T>(c: Clustering<T>, k: nat, p: Point)
    requires c.Valid() && InCluster(c, k, p)
    ensures Known(c.m, PointsOf(c.points, c.clusters[k])) && c.m[p] in Insts(c.m, PointsOf(c.points, c.clusters[k]))
  {
    ClusterDistinct(c.m, c.points, c.clusters, k);
    InstsHas(c.m, PointsOf(c.points, c.clusters[k]), p);
  }

  /** How many buffers a sink is behind, seen from before the clustering. */
  ghost function Deeper<T>(c: Clustering<T>, above: Point -> nat): Point -> nat
    requires c.Valid()
  {
    (p: Point) => AboveSink(c, above, p)
  }

  ghost function AboveSink<T>(c: Clustering<T>, above: Point -> nat, p: Point): nat
    requires c.Valid()
  {
    if p in c.points then above(Moved(c, p)) + LeafBuffer(c, p) else 0
  }

  lemma {:induction false} SinkBehind<T>(c: Clustering<T>, nets: Netlist<T>, r: nat, above: Point -> nat, p: Point)
    requires c.Valid() && AllBehind(nets, r, c.Map(), c.Locs(), above)
    requires |c.nets0 + c.Leaves()| <= |nets| && forall j :: 0 <= j < |c.nets0 + c.Leaves()| ==> nets[j] == (c.nets0 + c.Leaves())[j]
    requires p in c.points && AllSinks(nets)[c.m[p]] == 1
    ensures Behind(nets, r, c.m[p], above(Moved(c, p)) + LeafBuffer(c, p))
  {
    if LeafBuffer(c, p) == 0 {
      SingleStays(c, p);
    } else {
      var q := SeveralMoved(c, p);
      assert Behind(nets, r, c.Map()[Moved(c, p)], above(Moved(c, p)));
      OneDeeper(nets, r, c.Map()[Moved(c, p)], above(Moved(c, p)), q, c.m[p]);
    }
  }

  lemma {:induction false} OldNetsStay<T>(a: Netlist<T>, b: Netlist<T>, nets: Netlist<T>)
    requires |a + b| <= |nets| && forall j :: 0 <= j < |a + b| ==> nets[j] == (a + b)[j]
    ensures |a| <= |nets| && forall j :: 0 <= j < |a| ==> nets[j] == a[j]
  {
    assert forall j :: 0 <= j < |a| ==> nets[j] == (a + b)[j];
  }

  /** A tree over the clusters is a tree over their sinks: those of a cluster of several are one buffer
      further down. */
  lemma {:induction false} TreeOverClusters<T>(c: Clustering<T>, nets: Netlist<T>, r: nat, others: multiset<T>, above: Point -> nat)
    requires c.Valid() && Spread(nets, r, c.nets0 + c.Leaves(), c.Map(), c.Locs(), others, above)
    requires forall p :: p in c.points ==> c.m[p] !in others
    ensures Spread(nets, r, c.nets0, c.m, c.points, multiset(c.bufs) + others, Deeper(c, above))
  {
    SinksBefore(c, nets, others);
    OldNetsStay(c.nets0, c.Leaves(), nets);
    forall p | p in c.points
      ensures Behind(nets, r, c.m[p], Deeper(c, above)(p))
    {
      SinkOnce(c, nets, others, p);
      SinkBehind(c, nets, r, above, p);
    }
  }

  // ----- several rounds of clustering -----

  /** Where a round begins or ends: the nets, the places, and the sinks that these stand for. */
  datatype Stage<!T> = Stage(nets: Netlist<T>, m: map<Point, T>, locs: seq<Point>)

  ghost function Before<T>(c: Clustering<T>): Stage<T> {
    Stage(c.nets0, c.m, c.points)
  }

  ghost function After<T>(c: Clustering<T>): Stage<T>
    requires c.Valid()
  {
    Stage(c.nets0 + c.Leaves(), c.Map(), c.Locs())
  }

  ghost predicate RoundAt<T>(cs: seq<Clustering<T>>, stages: seq<Stage<T>>, i: nat)
    requires i < |cs| && |stages| == |cs| + 1
  {
    cs[i].Valid() && stages[i] == Before(cs[i]) && stages[i + 1] == After(cs[i])
  }

  /** Each round takes up what the one before has left. */
  ghost predicate RoundsFrom<T>(cs: seq<Clustering<T>>, stages: seq<Stage<T>>) {
    |stages| == |cs| + 1 && forall i {:trigger RoundAt(cs, stages, i)} :: 0 <= i < |cs| ==> RoundAt(cs, stages, i)
  }

  ghost predicate ValidAt<T>(cs: seq<Clustering<T>>, i: nat)
    requires i < |cs|
  {
    cs[i].Valid()
  }

  ghost predicate AllValid<T>(cs: seq<Clustering<T>>) {
    forall i {:trigger ValidAt(cs, i)} :: 0 <= i < |cs| ==> ValidAt(cs, i)
  }

  lemma {:induction false} RoundsValid<T>(cs: seq<Clustering<T>>, stages: seq<Stage<T>>)
    requires RoundsFrom(cs, stages)
    ensures AllValid(cs)
  {
    forall i {:trigger ValidAt(cs, i)} | 0 <= i < |cs| ensures ValidAt(cs, i) {
      assert RoundAt(cs, stages, i);
    }
  }

  /** The leaf buffers of the rounds from i on. */
  ghost function LeafBufs<T>(cs: seq<Clustering<T>>, i: nat): multiset<T>
    requires i <= |cs|
    decreases |cs| - i
  {
    if i == |cs| then multiset{} else multiset(cs[i].bufs) + LeafBufs(cs, i + 1)
  }

  /** Behind how many buffers the sink at a place is, seen from before round i: the leaf buffers of the
      rounds from then on, and the buffers of the tree. */
  ghost function Above<T>(cs: seq<Clustering<T>>, tree: nat, i: nat): Point -> nat
    requires AllValid(cs) && i <= |cs|
    decreases |cs| - i
  {
    if i == |cs| then Everywhere(tree)
    else
      assert ValidAt(cs, i);
      Deeper(cs[i], Above(cs, tree, i + 1))
  }

  ghost predicate NewAt<T>(cs: seq<Clustering<T>>, others: multiset<T>, i: nat)
    requires i < |cs|
  {
    cs[i].Valid() && forall p :: p in cs[i].points ==> cs[i].m[p] !in LeafBufs(cs, i + 1) + others
  }

  /** The buffers of the tree and of later rounds are none of the sinks of a round. */
  ghost predicate NewTo<T>(cs: seq<Clustering<T>>, others: multiset<T>) {
    forall i {:trigger NewAt(cs, others, i)} :: 0 <= i < |cs| ==> NewAt(cs, others, i)
  }

  ghost predicate SpreadFrom<T>(nets: Netlist<T>, r: nat, s: Stage<T>, others: multiset<T>, above: Point -> nat) {
    Spread(nets, r, s.nets, s.m, s.locs, others, above)
  }

  lemma {:induction false} RoundTakenBack<T>(cs: seq<Clustering<T>>, stages: seq<Stage<T>>, nets: Netlist<T>, r: nat,
                                             others: multiset<T>, tree: nat, i: nat)
    requires RoundsFrom(cs, stages) && NewTo(cs, others) && AllValid(cs) && i < |cs|
    requires SpreadFrom(nets, r, stages[i + 1], LeafBufs(cs, i + 1) + others, Above(cs, tree, i + 1))
    ensures SpreadFrom(nets, r, stages[i], LeafBufs(cs, i) + others, Above(cs, tree, i))
  {
    assert RoundAt(cs, stages, i) && NewAt(cs, others, i);
    TreeOverClusters(cs[i], nets, r, LeafBufs(cs, i + 1) + others, Above(cs, tree, i + 1));
    assert LeafBufs(cs, i) + others == multiset(cs[i].bufs) + (LeafBufs(cs, i + 1) + others);
  }

  /** A tree over the places that the last round has left is a tree over the sinks of each round. */
  lemma {:induction false} TreeOverRounds<T>(cs: seq<Clustering<T>>, stages: seq<Stage<T>>, nets: Netlist<T>, r: nat,
                                             others: multiset<T>, tree: nat, i: nat)
    requires RoundsFrom(cs, stages) && NewTo(cs, others) && AllValid(cs) && i <= |cs|
    requires SpreadFrom(nets, r, stages[|cs|], others, Everywhere(tree))
    ensures SpreadFrom(nets, r, stages[i], LeafBufs(cs, i) + others, Above(cs, tree, i))
    decreases |cs| - i
  {
    if i == |cs| {
      assert LeafBufs(cs, i) + others == others;
    } else {
      TreeOverRounds(cs, stages, nets, r, others, tree, i + 1);
      RoundTakenBack(cs, stages, nets, r, others, tree, i);
    }
  }

  /** From round i on, the sink at a place is in a cluster of several in every round. */
  ghost predicate AlwaysSeveral<T>(cs: seq<Clustering<T>>, i: nat, p: Point)
    requires i <= |cs|
    decreases |cs| - i
  {
    i < |cs| ==>
      && cs[i].Valid() && p in cs[i].points && LeafBuffer(cs[i], p) == 1
      && AlwaysSeveral(cs, i + 1, Moved(cs[i], p))
  }

  lemma {:induction false} MovedThere<T>(c: Clustering<T>, p: Point)
    requires c.Valid() && p in c.points
    ensures Moved(c, p) in c.Locs()
  {
    if LeafBuffer(c, p) == 0 {
      SingleStays(c, p);
    } else {
      var q := SeveralMoved(c, p);
    }
  }

  /** Every sink is behind the buffers of the tree and at most one more for each round, and behind one
      for every round exactly if it is never alone in its cluster. */
  lemma {:induction false} AboveIs<T>(cs: seq<Clustering<T>>, stages: seq<Stage<T>>, tree: nat, i: nat, p: Point)
    requires RoundsFrom(cs, stages) && AllValid(cs) && i <= |cs| && p in stages[i].locs
    ensures tree <= Above(cs, tree, i)(p) <= tree + |cs| - i
    ensures Above(cs, tree, i)(p) == tree + |cs| - i <==> AlwaysSeveral(cs, i, p)
    decreases |cs| - i
  {
    if i < |cs| {
      assert RoundAt(cs, stages, i);
      MovedThere(cs[i], p);
      AboveIs(cs, stages, tree, i + 1, Moved(cs[i], p));
    }
  }

  /** Each sink is in one cluster, and the clusters can be told apart by their places. */
  ghost predicate Fit(points: seq<Point>, clusters: seq<seq<nat>>) {
    Apart(points, clusters) && multiset(Flat<nat>(clusters, |clusters|)) == multiset(seq(|points|, i => i))
  }

  lemma {:induction false} PlacesLeft(points: seq<Point>, clusters: seq<seq<nat>>)
    requires Fit(points, clusters) && points != []
    ensures clusters != [] && Places(points, clusters, |clusters|) != []
  {
    var k := IndexClustered(clusters, |points|, 0);
    PlaceThere(points, clusters, |clusters|, k);
  }

  /** The rounds there are: none, one, or two. */
  ghost predicate RoundsFit(points: seq<Point>, first: Option<seq<seq<nat>>>, second: Option<seq<seq<nat>>>) {
    && (first.Some? ==> Fit(points, first.value))
    && (second.Some? ==> first.Some? && Fit(Places(points, first.value, |first.value|), second.value))
  }

  /** The clusters of each round. */
  function ClustersOf(first: Option<seq<seq<nat>>>, second: Option<seq<seq<nat>>>): seq<seq<seq<nat>>> {
    if first == None then [] else if second == None then [first.value] else [first.value, second.value]
  }

  ghost predicate Clusters<T>(cs: seq<Clustering<T>>, clusters: seq<seq<seq<nat>>>) {
    |cs| == |clusters| && forall i :: 0 <= i < |cs| ==> cs[i].clusters == clusters[i]
  }

  /** All instances that the rounds have known of. */
  ghost function KnownTo<T>(cs: seq<Clustering<T>>): set<T> {
    set i, p | 0 <= i < |cs| && p in cs[i].m :: cs[i].m[p]
  }

  lemma {:induction false} NewToTree<T>(cs: seq<Clustering<T>>, more: seq<T>)
    requires NewTo(cs, multiset{}) && forall x :: x in more ==> x !in KnownTo(cs)
    ensures NewTo(cs, multiset(more))
  {
    forall i {:trigger NewAt(cs, multiset(more), i)} | 0 <= i < |cs| ensures NewAt(cs, multiset(more), i) {
      assert NewAt(cs, multiset{}, i);
      forall p | p in cs[i].points
        ensures cs[i].m[p] !in LeafBufs(cs, i + 1) + multiset(more)
      {
        assert cs[i].m[p] in KnownTo(cs);
        NotInSum(LeafBufs(cs, i + 1), more, cs[i].m[p]);
      }
    }
  }

  lemma {:induction false} NotInSum<T>(a: multiset<T>, more: seq<T>, x: T)
    requires x !in a + multiset{} && x !in more
    ensures x !in a + multiset(more)
  {
    assert x !in multiset(more);
  }

  /** The stages of no rounds, of one, and of two. */
  lemma {:induction false} NoRound<T>(s: Stage<T>)
    ensures RoundsFrom<T>([], [s]) && NewTo<T>([], multiset{})
  {
  }

  lemma {:induction false} OneRound<T>(c: Clustering<T>)
    requires c.Valid()
    ensures RoundsFrom([c], [Before(c), After(c)]) && NewTo([c], multiset{}) && Clusters([c], ClustersOf(Some(c.clusters), None))
  {
    assert RoundAt([c], [Before(c), After(c)], 0);
    assert NewAt([c], multiset{}, 0);
  }

  lemma {:induction false} TwoRounds<T>(c: Clustering<T>, e: Clustering<T>)
    requires c.Valid() && e.Valid() && Before(e) == After(c) && forall x :: x in e.bufs ==> x !in c.m.Values
    ensures RoundsFrom([c, e], [Before(c), After(c), After(e)]) && NewTo([c, e], multiset{})
    ensures Clusters([c, e], ClustersOf(Some(c.clusters), Some(e.clusters)))
  {
    var cs, stages := [c, e], [Before(c), After(c), After(e)];
    assert RoundAt(cs, stages, 0) && RoundAt(cs, stages, 1);
    assert LeafBufs(cs, 2) == multiset{} && LeafBufs(cs, 1) == multiset(e.bufs);
    forall p | p in c.points ensures c.m[p] !in multiset(e.bufs) {
      assert c.m[p] in c.m.Values;
    }
    assert NewAt(cs, multiset{}, 0) && NewAt(cs, multiset{}, 1);
  }

  /** The finished netlist: every sink of the clock in the tree over all rounds of clustering; besides,
      only leaf buffers and tree buffers but the first are sinks, once each. */
  ghost predicate AllInTree<T>(nets: Netlist<T>, r: nat, start: Stage<T>, cs: seq<Clustering<T>>, bufs: seq<T>, tree: nat) {
    && AllValid(cs) && bufs != []
    && SpreadFrom(nets, r, start, LeafBufs(cs, 0) + multiset(bufs[1..]), Above(cs, tree, 0))
  }

  lemma {:induction false} RunInTree<T>(cs: seq<Clustering<T>>, stages: seq<Stage<T>>, end: Stage<T>, nets: Netlist<T>, r: nat,
                                          bufs: seq<T>, tree: nat)
    requires RoundsFrom(cs, stages) && NewTo(cs, multiset{}) && bufs != [] && forall x :: x in bufs ==> x !in KnownTo(cs)
    requires stages[|cs|] == end && SpreadFrom(nets, r, end, multiset(bufs[1..]), Everywhere(tree))
    ensures AllInTree(nets, r, stages[0], cs, bufs, tree)
  {
    NewToTree(cs, bufs[1..]);
    RoundsValid(cs, stages);
    TreeOverRounds(cs, stages, nets, r, multiset(bufs[1..]), tree, 0);
  }
}
