/** The branching points of an H-tree, level by level, and the sinks they share out. */
module Branching {
  import opened Clusterings
  import opened ClockNets

  datatype Point = Point(x: real, y: real)

  class LevelTopology {
    var wireSegments: seq<nat>
    var parents: seq<Option<nat>>
    var branchSinkLocs: seq<seq<Point>>
    var branchDrivingSubNet: seq<ClockSubNet?>

    /** Which net of the clock drives each branch. */
    ghost var drivingIdx: seq<Option<nat>>

    ghost predicate Valid()
      reads this
    {
      && |parents| == |branchSinkLocs| == |branchDrivingSubNet| == |drivingIdx|
      && forall b :: 0 <= b < |drivingIdx| ==> (drivingIdx[b] == None <==> branchDrivingSubNet[b] == null)
    }

    constructor ()
      ensures Valid() && parents == [] && wireSegments == []
    {
      wireSegments, parents, branchSinkLocs, branchDrivingSubNet, drivingIdx := [], [], [], [], [];
    }

    method AddWireSegment(idx: nat)
      modifies `wireSegments
      ensures wireSegments == old(wireSegments) + [idx]
    {
      wireSegments := wireSegments + [idx];
    }

    /** A new branch has no sinks and no net yet. */
    method AddBranchingPoint(parent: Option<nat>) returns (idx: nat)
      requires Valid()
      modifies `parents, `branchSinkLocs, `branchDrivingSubNet, `drivingIdx
      ensures Valid() && idx == |old(parents)|
      ensures parents == old(parents) + [parent] && branchSinkLocs == old(branchSinkLocs) + [[]]
      ensures drivingIdx == old(drivingIdx) + [None]
    {
      parents := parents + [parent];
      branchSinkLocs := branchSinkLocs + [[]];
      branchDrivingSubNet := branchDrivingSubNet + [null];
      drivingIdx := drivingIdx + [None];
      idx := |parents| - 1;
    }

    method AddSinkToBranch(branchIdx: nat, sinkLoc: Point)
      requires Valid() && branchIdx < |branchSinkLocs|
      modifies `branchSinkLocs
      ensures Valid() && branchSinkLocs == old(branchSinkLocs)[branchIdx := old(branchSinkLocs)[branchIdx] + [sinkLoc]]
    {
      branchSinkLocs := branchSinkLocs[branchIdx := branchSinkLocs[branchIdx] + [sinkLoc]];
    }

    method SetBranchDrivingSubNet(idx: nat, subNet: ClockSubNet, ghost t: nat)
      requires Valid() && idx < |branchDrivingSubNet|
      modifies `branchDrivingSubNet, `drivingIdx
      ensures Valid() && branchDrivingSubNet == old(branchDrivingSubNet)[idx := subNet]
      ensures drivingIdx == old(drivingIdx)[idx := Some(t)]
    {
      branchDrivingSubNet := branchDrivingSubNet[idx := subNet];
      drivingIdx := drivingIdx[idx := Some(t)];
    }
  }

  // ----- sharing out the sinks -----

  /** The two branches below each of the first n branches share its sinks out between them. */
  ghost predicate Halves(p: seq<seq<Point>>, c: seq<seq<Point>>, parents: seq<Option<nat>>, n: nat) {
    && n <= |p| && |c| == |parents| == 2 * n
    && forall i {:trigger Halved(p[i], c, parents, i)} :: 0 <= i < n ==> Halved(p[i], c, parents, i)
  }

  ghost predicate Halved(sinks: seq<Point>, c: seq<seq<Point>>, parents: seq<Option<nat>>, i: nat)
    requires 2 * i + 1 < |c| == |parents|
  {
    && parents[2 * i] == parents[2 * i + 1] == Some(i)
    && multiset(c[2 * i]) + multiset(c[2 * i + 1]) == multiset(sinks)
  }

  /** The first level halves all the sinks, below the root. */
  ghost predicate TopHalves(top: seq<Point>, c: seq<seq<Point>>, parents: seq<Option<nat>>) {
    && |c| == 2 && parents == [None, None]
    && multiset(c[0]) + multiset(c[1]) == multiset(top)
  }

  /** All sinks of the first n branches. */
  function Flat<T>(s: seq<seq<T>>, n: nat): seq<T>
    requires n <= |s|
  {
    if n == 0 then [] else Flat(s, n - 1) + s[n - 1]
  }

  ghost predicate SameSinks(a: seq<Point>, b: seq<Point>) {
    multiset(a) == multiset(b)
  }

  /** No sink is lost or doubled from one level to the next. */
  lemma {:induction false} HalvesKeep(p: seq<seq<Point>>, c: seq<seq<Point>>, parents: seq<Option<nat>>, n: nat, k: nat)
    requires Halves(p, c, parents, |p|) && n <= |p| && k == 2 * n
    ensures SameSinks(Flat(c, k), Flat(p, n))
  {
    if n > 0 {
      HalvesKeep(p, c, parents, n - 1, k - 2);
      HalfOf(p, c, parents, n - 1, k - 2);
      OneMoreHalved(p, c, n, k);
    }
  }

  lemma {:induction false} OneMoreHalved(p: seq<seq<Point>>, c: seq<seq<Point>>, n: nat, k: nat)
    requires 0 < n <= |p| && 2 <= k <= |c|
    requires SameSinks(Flat(c, k - 2), Flat(p, n - 1)) && multiset(c[k - 2]) + multiset(c[k - 1]) == multiset(p[n - 1])
    ensures SameSinks(Flat(c, k), Flat(p, n))
  {
    FlatTwo(c, k - 2);
    BothHalves(Flat(c, k - 2), Flat(p, n - 1), c[k - 2], c[k - 1], p[n - 1], Flat(c, k), Flat(p, n));
  }

  lemma {:induction false} HalfOf(p: seq<seq<Point>>, c: seq<seq<Point>>, parents: seq<Option<nat>>, i: nat, k: nat)
    requires Halves(p, c, parents, |p|) && i < |p| && k == 2 * i
    ensures multiset(c[k]) + multiset(c[k + 1]) == multiset(p[i])
  {
    assert Halved(p[i], c, parents, i);
  }

  lemma {:induction false} BothHalves<T>(a: seq<T>, b: seq<T>, l: seq<T>, r: seq<T>, sinks: seq<T>, c: seq<T>, p: seq<T>)
    requires multiset(a) == multiset(b) && multiset(l) + multiset(r) == multiset(sinks)
    requires c == a + l + r && p == b + sinks
    ensures multiset(c) == multiset(p)
  {
  }

  lemma {:induction false} FlatTwo<T>(s: seq<seq<T>>, k: nat)
    requires k + 2 <= |s|
    ensures Flat(s, k + 2) == Flat(s, k) + s[k] + s[k + 1]
  {
    assert Flat(s, k + 1) == Flat(s, k) + s[k];
  }

  /** A branch with sinks hangs below a branch with sinks. */
  lemma {:induction false} ParentHasSinks(p: seq<seq<Point>>, c: seq<seq<Point>>, parents: seq<Option<nat>>, b: nat)
    requires Halves(p, c, parents, |p|) && b < |c| && c[b] != []
    ensures parents[b].Some? && parents[b].value < |p| && p[parents[b].value] != []
  {
    assert Halved(p[b / 2], c, parents, b / 2);
    assert b == 2 * (b / 2) || b == 2 * (b / 2) + 1;
    assert c[b][0] in multiset(c[b]);
    assert c[b][0] in multiset(p[b / 2]);
  }

  /** Cluster the sinks of a branch in two and hand them to the branches below. */
  method RefineBranchingPointsWithClustering(topology: LevelTopology, branchPtIdx1: nat, branchPtIdx2: nat,
                                             sinks: seq<Point>, cap: nat, rounds: Rounds)
    returns (ghost last: nat, ghost assign: seq<nat>)
    requires topology.Valid() && branchPtIdx1 < branchPtIdx2 < |topology.branchSinkLocs|
    requires topology.branchSinkLocs[branchPtIdx1] == [] == topology.branchSinkLocs[branchPtIdx2]
    modifies topology`branchSinkLocs
    ensures topology.Valid() && |assign| == |sinks| && forall i :: 0 <= i < |assign| ==> assign[i] < 2
    ensures 1 <= last <= 6 && (last == 6 || rounds.moved(last) < 0.5)
    ensures forall i :: 0 <= i < |assign| ==>
              RightPlace(assign[..i], rounds.flow(last)(i), 2, cap, rounds.dist(last), assign[i])
    ensures topology.branchSinkLocs == old(topology.branchSinkLocs)[branchPtIdx1 := Share(sinks, assign, 0, |sinks|)]
                                                                  [branchPtIdx2 := Share(sinks, assign, 1, |sinks|)]
  {
    var clusters;
    clusters, last, assign := Kmeans(|sinks|, 2, cap, 5, rounds);
    ghost var locs := topology.branchSinkLocs;
    ghost var left, right := Share(sinks, assign, 0, |sinks|), Share(sinks, assign, 1, |sinks|);
    assert clusters[0] == Members(assign, 0, |sinks|) && clusters[1] == Members(assign, 1, |sinks|);
    assert [] + left == left && [] + right == right;
    var clusterIdx := 0;
    while clusterIdx < |clusters|
      invariant clusterIdx <= |clusters| && topology.Valid()
      invariant clusterIdx == 0 ==> topology.branchSinkLocs == locs
      invariant clusterIdx == 1 ==> topology.branchSinkLocs == locs[branchPtIdx1 := left]
      invariant clusterIdx == 2 ==> topology.branchSinkLocs == locs[branchPtIdx1 := left][branchPtIdx2 := right]
    {
      var branchPtIdx := if clusterIdx == 0 then branchPtIdx1 else branchPtIdx2;
      AddCluster(topology, branchPtIdx, sinks, clusters[clusterIdx]);
      clusterIdx := clusterIdx + 1;
    }
  }

  method AddCluster(topology: LevelTopology, branchPtIdx: nat, sinks: seq<Point>, cluster: seq<nat>)
    requires topology.Valid() && branchPtIdx < |topology.branchSinkLocs|
    requires forall p :: 0 <= p < |cluster| ==> cluster[p] < |sinks|
    modifies topology`branchSinkLocs
    ensures topology.Valid()
    ensures topology.branchSinkLocs == old(topology.branchSinkLocs)
              [branchPtIdx := old(topology.branchSinkLocs)[branchPtIdx] + Pick(sinks, cluster)]
  {
    ghost var locs := topology.branchSinkLocs;
    assert Pick(sinks, cluster[..0]) == [];
    assert locs[branchPtIdx] + [] == locs[branchPtIdx];
    for elementIdx := 0 to |cluster|
      invariant topology.Valid()
      invariant topology.branchSinkLocs == locs[branchPtIdx := locs[branchPtIdx] + Pick(sinks, cluster[..elementIdx])]
    {
      assert Pick(sinks, cluster[..elementIdx + 1]) == Pick(sinks, cluster[..elementIdx]) + [sinks[cluster[elementIdx]]];
      assert locs[branchPtIdx] + (Pick(sinks, cluster[..elementIdx]) + [sinks[cluster[elementIdx]]])
             == locs[branchPtIdx] + Pick(sinks, cluster[..elementIdx]) + [sinks[cluster[elementIdx]]];
      topology.AddSinkToBranch(branchPtIdx, sinks[cluster[elementIdx]]);
    }
    assert cluster[..|cluster|] == cluster;
  }

  /** Capacity of a cluster: half of the sinks, or the given fraction of them. */
  function Capacity(n: nat, halve: bool, fraction: real): nat
    requires fraction >= 0.0
  {
    if halve then n / 2 else (n as real * fraction).Floor
  }

  predicate CapacityIs(n: nat, halve: bool, fraction: real, cap: nat) {
    if halve then 2 * cap <= n <= 2 * cap + 1
    else cap as real <= n as real * fraction < cap as real + 1.0
  }

  /** The sinks have been shared out between two branches, each to where it belongs in the last round of
      at most six: the first one in which the means have hardly moved. */
  ghost predicate SplitBy(sinks: seq<Point>, left: seq<Point>, right: seq<Point>, halve: bool, fraction: real, rounds: Rounds,
                          cap: nat, last: nat, assign: seq<nat>) {
    && CapacityIs(|sinks|, halve, fraction, cap) && 1 <= last <= 6 && (last == 6 || rounds.moved(last) < 0.5)
    && |assign| == |sinks|
    && (forall i :: 0 <= i < |assign| ==>
          assign[i] < 2 && RightPlace(assign[..i], rounds.flow(last)(i), 2, cap, rounds.dist(last), assign[i]))
    && left == Share(sinks, assign, 0, |sinks|) && right == Share(sinks, assign, 1, |sinks|)
  }

  ghost predicate Split(sinks: seq<Point>, left: seq<Point>, right: seq<Point>, halve: bool, fraction: real, rounds: Rounds) {
    exists cap: nat, last: nat, assign: seq<nat> :: SplitBy(sinks, left, right, halve, fraction, rounds, cap, last, assign)
  }

  /** For each of the first n branches. */
  ghost predicate Splits(p: seq<seq<Point>>, c: seq<seq<Point>>, halve: bool, fraction: real, rounds: nat -> Rounds, n: nat) {
    n <= |p| && |c| == 2 * n && forall i {:trigger SplitAt(p, c, halve, fraction, rounds, i)} :: 0 <= i < n ==>
      SplitAt(p, c, halve, fraction, rounds, i)
  }

  ghost predicate SplitAt(p: seq<seq<Point>>, c: seq<seq<Point>>, halve: bool, fraction: real, rounds: nat -> Rounds, i: nat)
    requires i < |p| && 2 * i + 1 < |c|
  {
    Split(p[i], c[2 * i], c[2 * i + 1], halve, fraction, rounds(i))
  }

  lemma {:induction false} SplitsStep(p: seq<seq<Point>>, c: seq<seq<Point>>, more: seq<seq<Point>>, halve: bool, fraction: real,
                                      rounds: nat -> Rounds, n: nat)
    requires Splits(p, c, halve, fraction, rounds, n) && n < |p| && |more| == 2
    requires Split(p[n], more[0], more[1], halve, fraction, rounds(n))
    ensures Splits(p, c + more, halve, fraction, rounds, n + 1)
  {
    forall i {:trigger SplitAt(p, c + more, halve, fraction, rounds, i)} | 0 <= i < n + 1
      ensures SplitAt(p, c + more, halve, fraction, rounds, i)
    {
      assert i < n ==> SplitAt(p, c, halve, fraction, rounds, i);
    }
  }

  /** The branching points of the first level. */
  method ComputeTopBranchingPoints(topology: LevelTopology, top: seq<Point>, halve: bool, fraction: real, rounds: Rounds)
    requires topology.Valid() && topology.parents == [] && fraction >= 0.0
    modifies topology`parents, topology`branchSinkLocs, topology`branchDrivingSubNet, topology`drivingIdx
    ensures topology.Valid() && TopHalves(top, topology.branchSinkLocs, topology.parents)
    ensures Split(top, topology.branchSinkLocs[0], topology.branchSinkLocs[1], halve, fraction, rounds)
    ensures topology.drivingIdx == [None, None]
  {
    var branchPtIdx1 := topology.AddBranchingPoint(None);
    var branchPtIdx2 := topology.AddBranchingPoint(None);
    ghost var last, assign := RefineBranchingPointsWithClustering(topology, branchPtIdx1, branchPtIdx2, top,
                                                                  Capacity(|top|, halve, fraction), rounds);
    TwoClusters(top, assign, |top|);
    assert top[..|top|] == top;
    assert SplitBy(top, topology.branchSinkLocs[0], topology.branchSinkLocs[1], halve, fraction, rounds,
                   Capacity(|top|, halve, fraction), last, assign);
  }

  /** The branching points below those of the parent level: two for each, even if it has no sinks. */
  method ComputeBranchingPoints(topology: LevelTopology, parentTopology: LevelTopology, halve: bool, fraction: real,
                                rounds: nat -> Rounds)
    requires topology.Valid() && topology.parents == [] && parentTopology.Valid() && topology != parentTopology
    requires fraction >= 0.0
    modifies topology`parents, topology`branchSinkLocs, topology`branchDrivingSubNet, topology`drivingIdx
    ensures topology.Valid()
    ensures Halves(parentTopology.branchSinkLocs, topology.branchSinkLocs, topology.parents, |parentTopology.branchSinkLocs|)
    ensures Splits(parentTopology.branchSinkLocs, topology.branchSinkLocs, halve, fraction, rounds,
                   |parentTopology.branchSinkLocs|)
    ensures forall b :: 0 <= b < |topology.drivingIdx| ==> topology.drivingIdx[b] == None
  {
    for idx := 0 to |parentTopology.parents|
      invariant topology.Valid()
      invariant Halves(parentTopology.branchSinkLocs, topology.branchSinkLocs, topology.parents, idx)
      invariant Splits(parentTopology.branchSinkLocs, topology.branchSinkLocs, halve, fraction, rounds, idx)
      invariant forall b :: 0 <= b < |topology.drivingIdx| ==> topology.drivingIdx[b] == None
    {
      ghost var before, parents := topology.branchSinkLocs, topology.parents;
      var branchPtIdx1 := topology.AddBranchingPoint(Some(idx));
      var branchPtIdx2 := topology.AddBranchingPoint(Some(idx));
      var sinks := parentTopology.branchSinkLocs[idx];
      ghost var last, assign := RefineBranchingPointsWithClustering(topology, branchPtIdx1, branchPtIdx2, sinks,
                                                                    Capacity(|sinks|, halve, fraction), rounds(idx));
      HalvesStep(parentTopology.branchSinkLocs, before, parents, idx, assign);
      ghost var more := [Share(sinks, assign, 0, |sinks|), Share(sinks, assign, 1, |sinks|)];
      assert SplitBy(sinks, more[0], more[1], halve, fraction, rounds(idx), Capacity(|sinks|, halve, fraction), last, assign);
      SplitsStep(parentTopology.branchSinkLocs, before, more, halve, fraction, rounds, idx);
      assert topology.branchSinkLocs == before + [Share(sinks, assign, 0, |sinks|), Share(sinks, assign, 1, |sinks|)];
      assert topology.parents == parents + [Some(idx), Some(idx)];
    }
  }

  lemma {:induction false} HalvesStep(p: seq<seq<Point>>, c: seq<seq<Point>>, parents: seq<Option<nat>>, n: nat,
                                      assign: seq<nat>)
    requires Halves(p, c, parents, n) && n < |p| && |assign| == |p[n]|
    requires forall i :: 0 <= i < |assign| ==> assign[i] < 2
    ensures var sinks := p[n];
            Halves(p, c + [Share(sinks, assign, 0, |sinks|), Share(sinks, assign, 1, |sinks|)],
                   parents + [Some(n), Some(n)], n + 1)
  {
    var sinks := p[n];
    TwoClusters(sinks, assign, |sinks|);
    assert sinks[..|sinks|] == sinks;
    forall i | 0 <= i < n + 1
      ensures Halved(p[i], c + [Share(sinks, assign, 0, |sinks|), Share(sinks, assign, 1, |sinks|)],
                     parents + [Some(n), Some(n)], i)
    {
      assert i < n ==> Halved(p[i], c, parents, i);
    }
  }
}
