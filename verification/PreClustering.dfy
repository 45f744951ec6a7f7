/** Clustering the sinks before the tree is built: each cluster of several sinks gets a buffer and a
    leaf net, and the buffer takes the place of its sinks. */
module PreClustering {
  import opened Netlists
  import opened ClockNets
  import opened Clusterings
  import opened Branching
  import opened BranchNets
  import opened LeafNets
  import LevelNames
  import TreeGrowth

  // ----- where the clusters are -----

  function SumX(points: seq<Point>, n: nat): real
    requires n <= |points|
  {
    if n == 0 then 0.0 else SumX(points, n - 1) + points[n - 1].x
  }

  function SumY(points: seq<Point>, n: nat): real
    requires n <= |points|
  {
    if n == 0 then 0.0 else SumY(points, n - 1) + points[n - 1].y
  }

  /** The centre of a cluster. */
  function Centre(points: seq<Point>): Point
    requires points != []
  {
    Point(SumX(points, |points|) / |points| as real, SumY(points, |points|) / |points| as real)
  }

  /** How far the first n points are to the right of a line, added up, and above one. */
  function ExcessX(points: seq<Point>, n: nat, x: real): real
    requires n <= |points|
  {
    if n == 0 then 0.0 else ExcessX(points, n - 1, x) + (points[n - 1].x - x)
  }

  function ExcessY(points: seq<Point>, n: nat, y: real): real
    requires n <= |points|
  {
    if n == 0 then 0.0 else ExcessY(points, n - 1, y) + (points[n - 1].y - y)
  }

  lemma {:induction false} ExcessIs(points: seq<Point>, n: nat, c: Point)
    requires n <= |points|
    ensures ExcessX(points, n, c.x) == SumX(points, n) - n as real * c.x
    ensures ExcessY(points, n, c.y) == SumY(points, n) - n as real * c.y
  {
    if n > 0 {
      ExcessIs(points, n - 1, c);
      OneMoreTime((n - 1) as real, n as real, c.x);
      OneMoreTime((n - 1) as real, n as real, c.y);
    }
  }

  lemma {:induction false} OneMoreTime(m: real, n: real, v: real)
    requires n == m + 1.0
    ensures n * v == m * v + v
  {
  }

  /** The points of a cluster lie around its centre evenly: as much to its right as to its left, and as
      much above it as below. */
  lemma {:induction false} CentreIsMiddle(points: seq<Point>)
    requires points != []
    ensures ExcessX(points, |points|, Centre(points).x) == 0.0 && ExcessY(points, |points|, Centre(points).y) == 0.0
  {
    ExcessIs(points, |points|, Centre(points));
    Shares(SumX(points, |points|), |points| as real);
    Shares(SumY(points, |points|), |points| as real);
  }

  lemma {:induction false} Shares(v: real, n: real)
    requires n > 0.0
    ensures n * (v / n) == v
  {
  }

  ghost predicate Indices(clusters: seq<seq<nat>>, n: nat) {
    forall c, i :: 0 <= c < |clusters| && 0 <= i < |clusters[c]| ==> clusters[c][i] < n
  }

  /** The points of a cluster. */
  function PointsOf(points: seq<Point>, cluster: seq<nat>): (r: seq<Point>)
    requires forall i :: 0 <= i < |cluster| ==> cluster[i] < |points|
    ensures |r| == |cluster|
  {
    Pick(points, cluster)
  }

  /** Where a cluster is found from now on: where its only sink is, or at its centre. */
  function PlaceOf(points: seq<Point>, cluster: seq<nat>): Point
    requires cluster != [] && forall i :: 0 <= i < |cluster| ==> cluster[i] < |points|
  {
    if |cluster| == 1 then points[cluster[0]] else Centre(PointsOf(points, cluster))
  }

  /** The places of the first n clusters; an empty one has none. */
  function Places(points: seq<Point>, clusters: seq<seq<nat>>, n: nat): (r: seq<Point>)
    requires n <= |clusters| && Indices(clusters, |points|)
  {
    if n == 0 then []
    else Places(points, clusters, n - 1) + if clusters[n - 1] == [] then [] else [PlaceOf(points, clusters[n - 1])]
  }

  /** Clusters of several sinks among the first n. */
  function Several(clusters: seq<seq<nat>>, n: nat): nat
    requires n <= |clusters|
  {
    if n == 0 then 0 else Several(clusters, n - 1) + if |clusters[n - 1]| > 1 then 1 else 0
  }

  /** The leaf nets of the first n clusters: a buffer and the sinks of the cluster. */
  ghost function LeafNetsOf<T>(m: map<Point, T>, points: seq<Point>, clusters: seq<seq<nat>>, bufs: seq<T>, n: nat): (r: Netlist<T>)
    requires n <= |clusters| && Indices(clusters, |points|) && Known(m, points) && |bufs| >= Several(clusters, n)
    ensures |r| == Several(clusters, n) && Driven(r)
  {
    if n == 0 then []
    else
      var before, cluster := LeafNetsOf(m, points, clusters, bufs, n - 1), clusters[n - 1];
      if |cluster| > 1
      then before + [[bufs[|before|]] + Insts(m, PointsOf(points, cluster))]
      else before
  }

  /** The locations after the first n clusters: the buffers stand at the centres. */
  function Replaced<T>(m: map<Point, T>, points: seq<Point>, clusters: seq<seq<nat>>, bufs: seq<T>, n: nat): map<Point, T>
    requires n <= |clusters| && Indices(clusters, |points|) && |bufs| >= Several(clusters, n)
  {
    if n == 0 then m
    else
      var before, cluster := Replaced(m, points, clusters, bufs, n - 1), clusters[n - 1];
      if |cluster| > 1 then before[Centre(PointsOf(points, cluster)) := bufs[Several(clusters, n - 1)]] else before
  }

  lemma {:induction false} PrefixBufs<T>(m: map<Point, T>, points: seq<Point>, clusters: seq<seq<nat>>, a: seq<T>, b: seq<T>, n: nat)
    requires n <= |clusters| && Indices(clusters, |points|) && Known(m, points) && |a| >= Several(clusters, n) && a <= b
    ensures LeafNetsOf(m, points, clusters, a, n) == LeafNetsOf(m, points, clusters, b, n)
    ensures Replaced(m, points, clusters, a, n) == Replaced(m, points, clusters, b, n)
  {
    if n > 0 { PrefixBufs(m, points, clusters, a, b, n - 1); }
  }

  // ----- the method -----

  /** A buffer and a net for one cluster of several sinks. */
  method AddLeaf(clock: Clock, insts: seq<ClockInst>, name: string, netName: string, leaf: bool)
    returns (rootBuffer: ClockInst)
    requires clock.Valid() && Distinct(insts)
    modifies clock
    ensures clock.Valid() && fresh(rootBuffer) && clock.clockBuffers == old(clock.clockBuffers) + [rootBuffer]
    ensures rootBuffer.name == name + "_" + clock.netName && rootBuffer.gate == None
    ensures clock.Nets() == old(clock.Nets()) + [[rootBuffer] + insts]
    ensures |clock.subNets| == |old(clock.subNets)| + 1 && old(clock.subNets) <= clock.subNets
    ensures fresh(clock.subNets[|old(clock.subNets)|]) && clock.subNets[|old(clock.subNets)|].leafLevel == leaf
  {
    ghost var nets := clock.Nets();
    rootBuffer := clock.AddClockBuffer(name);
    var clockSubNet := clock.AddSubNet(netName);
    ghost var t := |clock.subNets| - 1;
    Connect(clock, clockSubNet, t, rootBuffer);
    assert [] + [rootBuffer] == [rootBuffer];
    assert clock.Nets() == nets + [[rootBuffer]];
    ConnectAll(clock, clockSubNet, t, insts);
    assert Attach(nets + [[rootBuffer]], t, insts) == nets + [[rootBuffer] + insts];
    ghost var done := clock.Nets();
    clockSubNet.SetLeafLevel(leaf);
    assert clock.Nets() == done;
  }

  /** No two sinks and no two clusters share a location, and no sink is in two clusters. */
  ghost predicate Apart(points: seq<Point>, clusters: seq<seq<nat>>) {
    && Indices(clusters, |points|) && Distinct(points) && Distinct(Flat<nat>(clusters, |clusters|))
    && (forall c {:trigger clusters[c]} :: 0 <= c < |clusters| && |clusters[c]| > 1 ==> Centre(PointsOf(points, clusters[c])) !in points)
    && forall c, d {:trigger clusters[c], clusters[d]} :: 0 <= c < d < |clusters| && |clusters[c]| > 1 && |clusters[d]| > 1 ==>
         Centre(PointsOf(points, clusters[c])) != Centre(PointsOf(points, clusters[d]))
  }

  /** Sinks stay where they were. */
  lemma {:induction false} SinksStay<T>(m: map<Point, T>, points: seq<Point>, clusters: seq<seq<nat>>, bufs: seq<T>, n: nat, p: Point)
    requires n <= |clusters| && Apart(points, clusters) && |bufs| >= Several(clusters, n) && p in points && p in m
    ensures p in Replaced(m, points, clusters, bufs, n) && Replaced(m, points, clusters, bufs, n)[p] == m[p]
  {
    if n > 0 {
      SinksStay(m, points, clusters, bufs, n - 1, p);
      assert clusters[n - 1] == clusters[n - 1];
    }
  }

  lemma {:induction false} ClusterDistinct<T>(m: map<Point, T>, points: seq<Point>, clusters: seq<seq<nat>>, c: nat)
    requires Apart(points, clusters) && c < |clusters| && Known(m, points) && Injective(m)
    ensures Known(m, PointsOf(points, clusters[c])) && Distinct(Insts(m, PointsOf(points, clusters[c])))
  {
    var cluster := clusters[c];
    PartDistinct(clusters, c);
    forall i, j | 0 <= i < j < |cluster|
      ensures points[cluster[i]] != points[cluster[j]]
    {
      assert cluster[i] != cluster[j];
    }
  }

  /** The instances that the clusters' sinks stand for, read off the map as it is now. */
  method Collect(m: map<Point, ClockInst>, points: seq<Point>, cluster: seq<nat>, ghost m0: map<Point, ClockInst>)
    returns (insts: seq<ClockInst>)
    requires forall i :: 0 <= i < |cluster| ==> cluster[i] < |points|
    requires Known(m0, points) && forall p :: p in points ==> p in m && m[p] == m0[p]
    ensures Known(m0, PointsOf(points, cluster)) && insts == Insts(m0, PointsOf(points, cluster))
  {
    insts := [];
    for i := 0 to |cluster|
      invariant Known(m0, PointsOf(points, cluster[..i])) && insts == Insts(m0, PointsOf(points, cluster[..i]))
    {
      var p := points[cluster[i]];
      assert PointsOf(points, cluster[..i + 1]) == PointsOf(points, cluster[..i]) + [p];
      insts := insts + [m[p]];
    }
    assert cluster[..|cluster|] == cluster;
  }

  /** Where the clustering stands after n clusters. */
  ghost predicate Clustered(m0: map<Point, ClockInst>, m: map<Point, ClockInst>, points: seq<Point>, clusters: seq<seq<nat>>,
                            bufs: seq<ClockInst>, nets0: Netlist<ClockInst>, nets: Netlist<ClockInst>, locs: seq<Point>, n: nat) {
    && n <= |clusters| && Indices(clusters, |points|) && Known(m0, points) && |bufs| == Several(clusters, n)
    && nets == nets0 + LeafNetsOf(m0, points, clusters, bufs, n)
    && m == Replaced(m0, points, clusters, bufs, n) && locs == Places(points, clusters, n)
  }

  lemma {:induction false} OneMoreCluster(m0: map<Point, ClockInst>, m: map<Point, ClockInst>, points: seq<Point>,
                                          clusters: seq<seq<nat>>, bufs: seq<ClockInst>, nets0: Netlist<ClockInst>,
                                          nets: Netlist<ClockInst>, locs: seq<Point>, n: nat, b: ClockInst)
    requires Clustered(m0, m, points, clusters, bufs, nets0, nets, locs, n) && n < |clusters|
    ensures var cluster := clusters[n];
            if |cluster| > 1 then
              var centre := Centre(PointsOf(points, cluster));
              Clustered(m0, m[centre := b], points, clusters, bufs + [b], nets0,
                        nets + [[b] + Insts(m0, PointsOf(points, cluster))], locs + [centre], n + 1)
            else if |cluster| == 1 then
              Clustered(m0, m, points, clusters, bufs, nets0, nets, locs + [points[cluster[0]]], n + 1)
            else Clustered(m0, m, points, clusters, bufs, nets0, nets, locs, n + 1)
  {
    PrefixBufs(m0, points, clusters, bufs, bufs + [b], n);
  }

  /** The nets the clock has got since are new, and marked as leaf nets or not. */
  twostate predicate NewNets(clock: Clock, leaf: bool)
    reads clock, clock.subNets
  {
    && old(clock.subNets) <= clock.subNets
    && forall i :: |old(clock.subNets)| <= i < |clock.subNets| ==> fresh(clock.subNets[i]) && clock.subNets[i].leafLevel == leaf
  }

  /** Give every cluster of several sinks a buffer and a leaf net. */
  method PreSinkClustering(clock: Clock, points: seq<Point>, m0: map<Point, ClockInst>, clusters: seq<seq<nat>>, secondLevel: bool)
    returns (m: map<Point, ClockInst>, locs: seq<Point>, ghost bufs: seq<ClockInst>)
    requires clock.Valid() && Apart(points, clusters) && Known(m0, points) && Injective(m0)
    modifies clock
    ensures clock.Valid() && clock.clockBuffers == old(clock.clockBuffers) + bufs && forall x :: x in bufs ==> fresh(x)
    ensures Distinct(bufs) && forall x :: x in bufs ==> x !in m0.Values
    ensures Clustered(m0, m, points, clusters, bufs, old(clock.Nets()), clock.Nets(), locs, |clusters|)
    ensures NewNets(clock, !secondLevel)
  {
    m, locs, bufs := m0, [], [];
    ghost var nets0 := clock.Nets();
    for clusterCount := 0 to |clusters|
      invariant clock.Valid() && clock.clockBuffers == old(clock.clockBuffers) + bufs
      invariant (forall x :: x in bufs ==> fresh(x)) && Distinct(bufs)
      invariant Clustered(m0, m, points, clusters, bufs, nets0, clock.Nets(), locs, clusterCount)
      invariant NewNets(clock, !secondLevel)
    {
      var cluster := clusters[clusterCount];
      if |cluster| == 1 {
        OneMoreCluster(m0, m, points, clusters, bufs, nets0, clock.Nets(), locs, clusterCount, m0[points[cluster[0]]]);
        locs := locs + [points[cluster[0]]];
      } else if |cluster| > 1 {
        var rootBuffer := ClusterLeaf(clock, m, points, clusters, clusterCount, secondLevel, m0, bufs);
        var centre := Centre(PointsOf(points, cluster));
        OneMoreCluster(m0, m, points, clusters, bufs, nets0, old(clock.Nets()) + LeafNetsOf(m0, points, clusters, bufs, clusterCount),
                       locs, clusterCount, rootBuffer);
        assert forall x :: x in bufs ==> x != rootBuffer;
        locs, m, bufs := locs + [centre], m[centre := rootBuffer], bufs + [rootBuffer];
      } else {
        EmptyStep(m0, m, points, clusters, bufs, nets0, clock.Nets(), locs, clusterCount);
      }
    }
  }

  lemma {:induction false} EmptyStep(m0: map<Point, ClockInst>, m: map<Point, ClockInst>, points: seq<Point>,
                                     clusters: seq<seq<nat>>, bufs: seq<ClockInst>, nets0: Netlist<ClockInst>,
                                     nets: Netlist<ClockInst>, locs: seq<Point>, n: nat)
    requires Clustered(m0, m, points, clusters, bufs, nets0, nets, locs, n) && n < |clusters| && clusters[n] == []
    ensures Clustered(m0, m, points, clusters, bufs, nets0, nets, locs, n + 1)
  {
  }

  method ClusterLeaf(clock: Clock, m: map<Point, ClockInst>, points: seq<Point>, clusters: seq<seq<nat>>, c: nat,
                     secondLevel: bool, ghost m0: map<Point, ClockInst>, ghost bufs: seq<ClockInst>)
    returns (rootBuffer: ClockInst)
    requires clock.Valid() && Apart(points, clusters) && Known(m0, points) && Injective(m0) && c < |clusters|
    requires |bufs| == Several(clusters, c) && m == Replaced(m0, points, clusters, bufs, c)
    modifies clock
    ensures clock.Valid() && fresh(rootBuffer) && clock.clockBuffers == old(clock.clockBuffers) + [rootBuffer]
    ensures Known(m0, PointsOf(points, clusters[c]))
    ensures clock.Nets() == old(clock.Nets()) + [[rootBuffer] + Insts(m0, PointsOf(points, clusters[c]))]
    ensures |clock.subNets| == |old(clock.subNets)| + 1 && NewNets(clock, !secondLevel)
  {
    forall p | p in points
      ensures p in m && m[p] == m0[p]
    {
      SinksStay(m0, points, clusters, bufs, c, p);
    }
    ClusterDistinct(m0, points, clusters, c);
    var insts := Collect(m, points, clusters[c], m0);
    var suffix := (if secondLevel then "leaf2_" else "leaf_") + LevelNames.Decimal(c);
    rootBuffer := AddLeaf(clock, insts, "clkbuf_" + suffix, "clknet_" + suffix, !secondLevel);
  }

  // ----- what the tree builder finds -----

  /** A cluster's buffer stands at its centre to the end. */
  lemma {:induction false} BufferStays<T>(m: map<Point, T>, points: seq<Point>, clusters: seq<seq<nat>>, bufs: seq<T>, n: nat, c: nat)
    requires c < n <= |clusters| && Apart(points, clusters) && |bufs| >= Several(clusters, n) && |clusters[c]| > 1
    ensures Several(clusters, c) < |bufs|
    ensures var centre := Centre(PointsOf(points, clusters[c]));
            centre in Replaced(m, points, clusters, bufs, n) && Replaced(m, points, clusters, bufs, n)[centre] == bufs[Several(clusters, c)]
  {
    if c < n - 1 {
      BufferStays(m, points, clusters, bufs, n - 1, c);
      assert clusters[n - 1] == clusters[n - 1];
    }
  }

  /** The new places are known, and each stands for one new sink: the only sink of its cluster, or
      the cluster's buffer. */
  lemma {:induction false} PlaceKnown<T>(m: map<Point, T>, points: seq<Point>, clusters: seq<seq<nat>>, bufs: seq<T>, n: nat, c: nat)
    requires c < n <= |clusters| && Apart(points, clusters) && Known(m, points) && |bufs| >= Several(clusters, n) && clusters[c] != []
    ensures PlaceOf(points, clusters[c]) in Replaced(m, points, clusters, bufs, n)
    ensures |clusters[c]| == 1 ==> Replaced(m, points, clusters, bufs, n)[PlaceOf(points, clusters[c])] == m[points[clusters[c][0]]]
    ensures |clusters[c]| > 1 ==>
              Several(clusters, c) < |bufs|
              && Replaced(m, points, clusters, bufs, n)[PlaceOf(points, clusters[c])] == bufs[Several(clusters, c)]
  {
    if |clusters[c]| == 1 {
      SinksStay(m, points, clusters, bufs, n, points[clusters[c][0]]);
    } else {
      BufferStays(m, points, clusters, bufs, n, c);
    }
  }

  lemma {:induction false} PlacesKnown<T>(m: map<Point, T>, points: seq<Point>, clusters: seq<seq<nat>>, bufs: seq<T>, n: nat)
    requires n <= |clusters| && Apart(points, clusters) && Known(m, points) && |bufs| >= Several(clusters, |clusters|)
    ensures Known(Replaced(m, points, clusters, bufs, |clusters|), Places(points, clusters, n))
  {
    if n > 0 {
      PlacesKnown(m, points, clusters, bufs, n - 1);
      if clusters[n - 1] != [] {
        PlaceKnown(m, points, clusters, bufs, |clusters|, n - 1);
      }
    }
  }

  /** The points of the first n clusters, one after the other. */
  function ClusteredPoints(points: seq<Point>, clusters: seq<seq<nat>>, n: nat): seq<Point>
    requires n <= |clusters| && Indices(clusters, |points|)
  {
    if n == 0 then [] else ClusteredPoints(points, clusters, n - 1) + PointsOf(points, clusters[n - 1])
  }

  /** No sink of the first n clusters is lost: those that are not among the new sinks, where m'
      tells what these are, are on leaf nets, and the buffers of the leaf nets are new sinks. */
  ghost predicate Shared<T>(m: map<Point, T>, m': map<Point, T>, points: seq<Point>, clusters: seq<seq<nat>>, bufs: seq<T>, n: nat) {
    && n <= |clusters| && Indices(clusters, |points|) && Known(m, points) && Several(clusters, n) <= |bufs|
    && Known(m', Places(points, clusters, n)) && Known(m, ClusteredPoints(points, clusters, n))
    && Balance(Insts(m', Places(points, clusters, n)), AllSinks(LeafNetsOf(m, points, clusters, bufs, n)),
               Insts(m, ClusteredPoints(points, clusters, n)), bufs[..Several(clusters, n)])
  }

  /** The new sinks and the sinks on leaf nets make up the old sinks and the buffers. */
  ghost predicate Balance<T>(places: seq<T>, leaves: multiset<T>, sinks: seq<T>, bufs: seq<T>) {
    multiset(places) + leaves == multiset(sinks) + multiset(bufs)
  }

  /** Adding the same on both sides keeps the balance. */
  lemma {:induction false} AddBoth<T>(p: multiset<T>, l: multiset<T>, s: multiset<T>, b: multiset<T>, x: multiset<T>, y: multiset<T>)
    requires p + l == s + b
    ensures (p + x) + (l + y) == (s + y) + (b + x)
  {
    assert (p + x) + (l + y) == (p + l) + (x + y);
    assert (s + y) + (b + x) == (s + b) + (x + y);
  }

  lemma {:induction false} BalanceOne<T>(places: seq<T>, leaves: multiset<T>, sinks: seq<T>, bufs: seq<T>, x: T)
    requires Balance(places, leaves, sinks, bufs)
    ensures Balance(places + [x], leaves, sinks + [x], bufs)
  {
    assert multiset(places + [x]) == multiset(places) + multiset{x};
    assert multiset(sinks + [x]) == multiset(sinks) + multiset{x};
    assert multiset(places) + multiset{x} + leaves == multiset(places) + leaves + multiset{x};
    assert multiset(sinks) + multiset{x} + multiset(bufs) == multiset(sinks) + multiset(bufs) + multiset{x};
  }

  lemma {:induction false} BalanceSeveral<T>(places: seq<T>, leaves: multiset<T>, sinks: seq<T>, bufs: seq<T>, b: T, insts: seq<T>)
    requires Balance(places, leaves, sinks, bufs)
    ensures Balance(places + [b], leaves + multiset(insts), sinks + insts, bufs + [b])
  {
    assert multiset(places + [b]) == multiset(places) + multiset{b};
    assert multiset(bufs + [b]) == multiset(bufs) + multiset{b};
    assert multiset(sinks + insts) == multiset(sinks) + multiset(insts);
    AddBoth(multiset(places), leaves, multiset(sinks), multiset(bufs), multiset{b}, multiset(insts));
  }

  lemma {:induction false} SinksShared<T>(m: map<Point, T>, points: seq<Point>, clusters: seq<seq<nat>>, bufs: seq<T>, n: nat)
    requires n <= |clusters| && Apart(points, clusters) && Known(m, points) && |bufs| == Several(clusters, |clusters|)
    ensures Shared(m, Replaced(m, points, clusters, bufs, |clusters|), points, clusters, bufs, n)
  {
    SeveralGrows(clusters, n, |clusters|);
    var m' := Replaced(m, points, clusters, bufs, |clusters|);
    if n == 0 {
      assert Insts(m, ClusteredPoints(points, clusters, 0)) == [] && Insts(m', Places(points, clusters, 0)) == [];
      assert bufs[..0] == [];
    } else {
      SinksShared(m, points, clusters, bufs, n - 1);
      if clusters[n - 1] == [] {
        NoneShared(m, m', points, clusters, bufs, n);
      } else {
        PlaceKnown(m, points, clusters, bufs, |clusters|, n - 1);
        if |clusters[n - 1]| == 1 {
          OneShared(m, m', points, clusters, bufs, n);
        } else {
          SeveralShared(m, m', points, clusters, bufs, n);
        }
      }
    }
  }

  lemma {:induction false} SeveralGrows(clusters: seq<seq<nat>>, i: nat, n: nat)
    requires i <= n <= |clusters|
    ensures Several(clusters, i) <= Several(clusters, n)
  {
    if i < n { SeveralGrows(clusters, i, n - 1); }
  }

  lemma {:induction false} NoneShared<T>(m: map<Point, T>, m': map<Point, T>, points: seq<Point>, clusters: seq<seq<nat>>, bufs: seq<T>, n: nat)
    requires 0 < n && Shared(m, m', points, clusters, bufs, n - 1) && n <= |clusters| && clusters[n - 1] == []
    ensures Shared(m, m', points, clusters, bufs, n)
  {
    assert PointsOf(points, clusters[n - 1]) == [];
    SameSteps(m, points, clusters, bufs, n);
  }

  lemma {:induction false} SameSteps<T>(m: map<Point, T>, points: seq<Point>, clusters: seq<seq<nat>>, bufs: seq<T>, n: nat)
    requires 0 < n <= |clusters| && Indices(clusters, |points|) && Known(m, points) && |bufs| >= Several(clusters, n)
    requires clusters[n - 1] == [] && PointsOf(points, clusters[n - 1]) == []
    ensures Places(points, clusters, n) == Places(points, clusters, n - 1) && Several(clusters, n) == Several(clusters, n - 1)
    ensures ClusteredPoints(points, clusters, n) == ClusteredPoints(points, clusters, n - 1)
    ensures LeafNetsOf(m, points, clusters, bufs, n) == LeafNetsOf(m, points, clusters, bufs, n - 1)
  {
  }

  lemma {:induction false} OneShared<T>(m: map<Point, T>, m': map<Point, T>, points: seq<Point>, clusters: seq<seq<nat>>, bufs: seq<T>, n: nat)
    requires 0 < n && Shared(m, m', points, clusters, bufs, n - 1) && n <= |clusters| && |clusters[n - 1]| == 1
    requires var p := points[clusters[n - 1][0]]; p in m' && m'[p] == m[p]
    ensures Shared(m, m', points, clusters, bufs, n)
  {
    var p := points[clusters[n - 1][0]];
    var places, sinks := Places(points, clusters, n - 1), ClusteredPoints(points, clusters, n - 1);
    var leaves, b := LeafNetsOf(m, points, clusters, bufs, n - 1), bufs[..Several(clusters, n - 1)];
    OneStep(m, points, clusters, bufs, n);
    InstsMore(m', places, p);
    InstsMore(m, sinks, p);
    BalanceOne(Insts(m', places), AllSinks(leaves), Insts(m, sinks), b, m[p]);
  }

  lemma {:induction false} OneStep<T>(m: map<Point, T>, points: seq<Point>, clusters: seq<seq<nat>>, bufs: seq<T>, n: nat)
    requires 0 < n <= |clusters| && Indices(clusters, |points|) && Known(m, points) && |bufs| >= Several(clusters, n)
    requires |clusters[n - 1]| == 1
    ensures var p := points[clusters[n - 1][0]];
            && Places(points, clusters, n) == Places(points, clusters, n - 1) + [p]
            && ClusteredPoints(points, clusters, n) == ClusteredPoints(points, clusters, n - 1) + [p]
    ensures Several(clusters, n) == Several(clusters, n - 1)
    ensures LeafNetsOf(m, points, clusters, bufs, n) == LeafNetsOf(m, points, clusters, bufs, n - 1)
  {
    assert PointsOf(points, clusters[n - 1]) == [points[clusters[n - 1][0]]];
  }

  lemma {:induction false} InstsMore<T>(m: map<Point, T>, locs: seq<Point>, p: Point)
    requires Known(m, locs) && p in m
    ensures Known(m, locs + [p]) && Insts(m, locs + [p]) == Insts(m, locs) + [m[p]]
  {
  }

  lemma {:induction false} InstsJoin<T>(m: map<Point, T>, a: seq<Point>, b: seq<Point>)
    requires Known(m, a) && Known(m, b)
    ensures Known(m, a + b) && Insts(m, a + b) == Insts(m, a) + Insts(m, b)
  {
  }

  lemma {:induction false} SeveralShared<T>(m: map<Point, T>, m': map<Point, T>, points: seq<Point>, clusters: seq<seq<nat>>, bufs: seq<T>, n: nat)
    requires 0 < n && Shared(m, m', points, clusters, bufs, n - 1) && n <= |clusters| && |clusters[n - 1]| > 1
    requires Several(clusters, n) <= |bufs|
    requires var place := PlaceOf(points, clusters[n - 1]); place in m' && m'[place] == bufs[Several(clusters, n - 1)]
    ensures Shared(m, m', points, clusters, bufs, n)
  {
    var cluster, k := clusters[n - 1], Several(clusters, n - 1);
    var more := PointsOf(points, cluster);
    var places, sinks := Places(points, clusters, n - 1), ClusteredPoints(points, clusters, n - 1);
    var leaves := LeafNetsOf(m, points, clusters, bufs, n - 1);
    assert Known(m, more);
    InstsMore(m', places, PlaceOf(points, cluster));
    InstsJoin(m, sinks, more);
    SeveralStep(m, points, clusters, bufs, n);
    BalanceSeveral(Insts(m', places), AllSinks(leaves), Insts(m, sinks), bufs[..k], bufs[k], Insts(m, more));
  }

  lemma {:induction false} SeveralStep<T>(m: map<Point, T>, points: seq<Point>, clusters: seq<seq<nat>>, bufs: seq<T>, n: nat)
    requires 0 < n <= |clusters| && Indices(clusters, |points|) && Known(m, points) && |bufs| >= Several(clusters, n)
    requires |clusters[n - 1]| > 1 && Known(m, PointsOf(points, clusters[n - 1]))
    ensures Places(points, clusters, n) == Places(points, clusters, n - 1) + [PlaceOf(points, clusters[n - 1])]
    ensures ClusteredPoints(points, clusters, n) == ClusteredPoints(points, clusters, n - 1) + PointsOf(points, clusters[n - 1])
    ensures var k := Several(clusters, n - 1); Several(clusters, n) == k + 1 && bufs[..k + 1] == bufs[..k] + [bufs[k]]
    ensures AllSinks(LeafNetsOf(m, points, clusters, bufs, n))
            == AllSinks(LeafNetsOf(m, points, clusters, bufs, n - 1)) + multiset(Insts(m, PointsOf(points, clusters[n - 1])))
  {
    SeveralLeaves(m, points, clusters, bufs, n);
  }

  lemma {:induction false} SeveralLeaves<T>(m: map<Point, T>, points: seq<Point>, clusters: seq<seq<nat>>, bufs: seq<T>, n: nat)
    requires 0 < n <= |clusters| && Indices(clusters, |points|) && Known(m, points) && |bufs| >= Several(clusters, n)
    requires |clusters[n - 1]| > 1 && Known(m, PointsOf(points, clusters[n - 1]))
    ensures AllSinks(LeafNetsOf(m, points, clusters, bufs, n))
            == AllSinks(LeafNetsOf(m, points, clusters, bufs, n - 1)) + multiset(Insts(m, PointsOf(points, clusters[n - 1])))
  {
    var b, insts := bufs[Several(clusters, n - 1)], Insts(m, PointsOf(points, clusters[n - 1]));
    assert LeafNetsOf(m, points, clusters, bufs, n) == LeafNetsOf(m, points, clusters, bufs, n - 1) + [[b] + insts];
    OneMoreLeaf(LeafNetsOf(m, points, clusters, bufs, n - 1), b, insts);
  }

  lemma {:induction false} OneMoreLeaf<T>(nets: Netlist<T>, b: T, insts: seq<T>)
    ensures AllSinks(nets + [[b] + insts]) == AllSinks(nets) + multiset(insts)
  {
    AllSinksSnoc(nets, [b] + insts);
    assert ([b] + insts)[1..] == insts;
  }

  /** What the tree builder asks for: known, distinct places, each with a sink of its own. */
  lemma {:induction false} ReadyForTheTree<T>(m: map<Point, T>, points: seq<Point>, clusters: seq<seq<nat>>, bufs: seq<T>)
    requires Apart(points, clusters) && Known(m, points) && Injective(m) && |bufs| == Several(clusters, |clusters|)
    requires Distinct(bufs) && forall x :: x in bufs ==> x !in m.Values
    ensures var m' := Replaced(m, points, clusters, bufs, |clusters|);
            && Injective(m') && Known(m', Places(points, clusters, |clusters|))
            && Distinct(Places(points, clusters, |clusters|))
  {
    PlacesKnown(m, points, clusters, bufs, |clusters|);
    StillInjective(m, points, clusters, bufs, |clusters|);
    PlacesDiffer(points, clusters, |clusters|);
  }

  lemma {:induction false} StillInjective<T>(m: map<Point, T>, points: seq<Point>, clusters: seq<seq<nat>>, bufs: seq<T>, n: nat)
    requires n <= |clusters| && Indices(clusters, |points|) && Injective(m) && |bufs| >= Several(clusters, n)
    requires Distinct(bufs) && forall x :: x in bufs ==> x !in m.Values
    ensures Injective(Replaced(m, points, clusters, bufs, n))
    ensures forall p :: p in Replaced(m, points, clusters, bufs, n) ==>
              Replaced(m, points, clusters, bufs, n)[p] in m.Values
              || Replaced(m, points, clusters, bufs, n)[p] in bufs[..Several(clusters, n)]
  {
    if n > 0 {
      StillInjective(m, points, clusters, bufs, n - 1);
      var k := Several(clusters, n - 1);
      if |clusters[n - 1]| > 1 {
        assert bufs[k] !in bufs[..k] && bufs[..k + 1] == bufs[..k] + [bufs[k]];
        assert bufs[k] in bufs;
      }
    }
  }

  /** Every place belongs to a cluster. */
  lemma {:induction false} PlaceFrom(points: seq<Point>, clusters: seq<seq<nat>>, n: nat, p: Point) returns (c: nat)
    requires n <= |clusters| && Indices(clusters, |points|) && p in Places(points, clusters, n)
    ensures c < n && clusters[c] != [] && PlaceOf(points, clusters[c]) == p
  {
    if clusters[n - 1] != [] && p == PlaceOf(points, clusters[n - 1]) {
      c := n - 1;
    } else {
      c := PlaceFrom(points, clusters, n - 1, p);
    }
  }

  lemma {:induction false} PlacesDiffer(points: seq<Point>, clusters: seq<seq<nat>>, n: nat)
    requires n <= |clusters| && Apart(points, clusters)
    ensures Distinct(Places(points, clusters, n))
  {
    if n > 0 {
      PlacesDiffer(points, clusters, n - 1);
      if clusters[n - 1] != [] && PlaceOf(points, clusters[n - 1]) in Places(points, clusters, n - 1) {
        var c := PlaceFrom(points, clusters, n - 1, PlaceOf(points, clusters[n - 1]));
        TwoPlaces(points, clusters, c, n - 1);
      }
    }
  }

  lemma {:induction false} TwoPlaces(points: seq<Point>, clusters: seq<seq<nat>>, c: nat, d: nat)
    requires c < d < |clusters| && Apart(points, clusters) && clusters[c] != [] && clusters[d] != []
    ensures PlaceOf(points, clusters[c]) != PlaceOf(points, clusters[d])
  {
    if |clusters[c]| == 1 && |clusters[d]| == 1 {
      TwoParts(clusters, |clusters|, c, d);
    } else if |clusters[c]| == 1 {
      assert points[clusters[c][0]] in points;
    } else if |clusters[d]| == 1 {
      assert points[clusters[d][0]] in points;
    }
  }

  lemma {:induction false} TwoParts(s: seq<seq<nat>>, n: nat, c: nat, d: nat)
    requires c < d < n <= |s| && Distinct(Flat(s, n)) && s[c] != [] && s[d] != []
    ensures s[c][0] != s[d][0]
  {
    var f := Flat(s, n - 1);
    assert Flat(s, n) == f + s[n - 1];
    if d == n - 1 {
      var from := FlatPart(s, n - 1, c);
      assert f[from..from + |s[c]|][0] == f[from];
      assert Flat(s, n)[from] == s[c][0] && Flat(s, n)[|f|] == s[d][0];
    } else {
      assert forall i, j :: 0 <= i < j < |f| ==> f[i] == Flat(s, n)[i] && f[j] == Flat(s, n)[j];
      TwoParts(s, n - 1, c, d);
    }
  }

  // ----- the whole way from the sinks to the root -----

  /** Picking by the same indices in another order. */
  lemma {:induction false} PickPerm<T>(items: seq<T>, a: seq<nat>, b: seq<nat>)
    requires multiset(a) == multiset(b) && forall p :: 0 <= p < |a| ==> a[p] < |items|
    ensures forall p :: 0 <= p < |b| ==> b[p] < |items|
    ensures multiset(Pick(items, a)) == multiset(Pick(items, b))
  {
    forall p | 0 <= p < |b|
      ensures b[p] < |items|
    {
      assert b[p] in multiset(b);
      assert b[p] in multiset(a);
    }
    if a == [] {
      assert |b| == |multiset(b)| == 0;
    } else {
      var i := DropOne(a, b);
      PickPerm(items, a[..|a| - 1], b[..i] + b[i + 1..]);
      PickSplit(items, a, |a| - 1);
      PickSplit(items, b, i);
      assert a[..|a| - 1] + a[|a|..] == a[..|a| - 1];
    }
  }

  lemma {:induction false} PickSplit<T>(items: seq<T>, a: seq<nat>, i: nat)
    requires i < |a| && forall p :: 0 <= p < |a| ==> a[p] < |items|
    ensures multiset(Pick(items, a)) == multiset(Pick(items, a[..i] + a[i + 1..])) + multiset{items[a[i]]}
  {
    var y := Pick(items, a);
    assert Pick(items, a[..i] + a[i + 1..]) == y[..i] + y[i + 1..];
    RemoveOne(y, i);
  }

  lemma {:induction false} ClusteredAreFlat(points: seq<Point>, clusters: seq<seq<nat>>, n: nat)
    requires n <= |clusters| && Indices(clusters, |points|)
    ensures Within(Flat<nat>(clusters, n), |points|)
    ensures ClusteredPoints(points, clusters, n) == Pick(points, Flat<nat>(clusters, n))
  {
    if n > 0 {
      ClusteredAreFlat(points, clusters, n - 1);
    }
  }

  predicate Within(idx: seq<nat>, n: nat) {
    forall p :: 0 <= p < |idx| ==> idx[p] < n
  }

  /** A clustering that holds every index once holds every sink once. */
  lemma {:induction false} AllClustered(points: seq<Point>, clusters: seq<seq<nat>>)
    requires Indices(clusters, |points|)
    requires multiset(Flat<nat>(clusters, |clusters|)) == multiset(seq(|points|, i => i))
    ensures multiset(ClusteredPoints(points, clusters, |clusters|)) == multiset(points)
  {
    var all: seq<nat> := seq(|points|, i => i);
    ClusteredAreFlat(points, clusters, |clusters|);
    PickPerm(points, Flat<nat>(clusters, |clusters|), all);
    assert Pick(points, all) == points;
  }

  /** After clustering and building the tree, every sink there was to begin with, every leaf buffer
      and every tree buffer but the root is a sink, each as often as it should be, and so is what
      there was before; nothing else is. */
  lemma {:induction false} EverySinkOnce<T>(nets0: Netlist<T>, nets: Netlist<T>, m: map<Point, T>, points: seq<Point>,
                                            clusters: seq<seq<nat>>, leafBufs: seq<T>, treeBufs: seq<T>)
    requires Driven(nets0) && Apart(points, clusters) && Known(m, points) && |leafBufs| == Several(clusters, |clusters|)
    requires multiset(Flat<nat>(clusters, |clusters|)) == multiset(seq(|points|, i => i))
    requires var m', places := Replaced(m, points, clusters, leafBufs, |clusters|), Places(points, clusters, |clusters|);
             && Known(m', places)
             && TreeGrowth.Tree(nets0 + LeafNetsOf(m, points, clusters, leafBufs, |clusters|), nets, treeBufs, multiset(Insts(m', places)))
    ensures AllSinks(nets) == AllSinks(nets0) + multiset(Insts(m, points)) + multiset(leafBufs) + multiset(treeBufs[1..])
  {
    var n := |clusters|;
    var m', places, leaves := Replaced(m, points, clusters, leafBufs, n), Places(points, clusters, n),
                              LeafNetsOf(m, points, clusters, leafBufs, n);
    SinksShared(m, points, clusters, leafBufs, n);
    AllClustered(points, clusters);
    SameInsts(m, ClusteredPoints(points, clusters, n), points);
    TreeGrowth.AllSinksJoin(nets0, leaves);
    assert leafBufs[..|leafBufs|] == leafBufs;
    SumOfAll(AllSinks(nets), AllSinks(nets0), AllSinks(leaves), multiset(treeBufs[1..]), multiset(Insts(m', places)),
             multiset(Insts(m, points)), multiset(leafBufs));
  }

  lemma {:induction false} SumOfAll<T>(all: multiset<T>, before: multiset<T>, leaves: multiset<T>, tree: multiset<T>,
                                       places: multiset<T>, sinks: multiset<T>, bufs: multiset<T>)
    requires all == (before + leaves) + tree + places && places + leaves == sinks + bufs
    ensures all == before + sinks + bufs + tree
  {
    assert (before + leaves) + tree + places == before + tree + (places + leaves);
    assert before + tree + (sinks + bufs) == before + sinks + bufs + tree;
  }
}
