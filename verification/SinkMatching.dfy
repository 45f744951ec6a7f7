/** Grouping the sinks along a curve: one greedy clustering for each place to start from, all run
    in lock-step. */
module SinkMatching {
  import opened Branching

  // ----- one greedy clustering -----

  /** When a cluster is full: by the capacitance its buffer would drive, or by size and diameter. */
  datatype Limits =
    | Caps(limit: real, capPerUnit: real, cap: nat -> real, diameter: real)
    | Sizes(groupSize: nat, diameter: real)

  type Dist = (nat, nat) -> real

  /** The farthest of the first n points of a cluster from x, and 0 if none is farther. */
  function Farthest(dist: Dist, cluster: seq<nat>, n: nat, x: nat): (r: real)
    requires n <= |cluster|
    ensures r >= 0.0
  {
    if n == 0 then 0.0
    else
      var r, d := Farthest(dist, cluster, n - 1, x), dist(x, cluster[n - 1]);
      if d > r then d else r
  }

  /** The load of x together with the first n points of a cluster. */
  function Load(l: Limits, dist: Dist, cluster: seq<nat>, n: nat, x: nat): real
    requires n <= |cluster| && l.Caps?
  {
    if n == 0 then l.cap(x)
    else Load(l, dist, cluster, n - 1, x) + dist(x, cluster[n - 1]) * l.capPerUnit + l.cap(cluster[n - 1])
  }

  /** The point x no longer fits into the cluster. */
  predicate Exceeds(l: Limits, dist: Dist, cluster: seq<nat>, x: nat) {
    match l
    case Caps(limit, _, _, _) => Load(l, dist, cluster, |cluster|, x) > limit
    case Sizes(groupSize, diameter) => |cluster| >= groupSize || Farthest(dist, cluster, |cluster|, x) > diameter
  }

  /** A clustering under way: the closed clusters, the open one, the cost of the closed ones and
      the diameter of the open one. */
  datatype Solution = Solution(closed: seq<seq<nat>>, open: seq<nat>, cost: real, diameter: real) {
    function Clusters(): seq<seq<nat>> {
      closed + [open]
    }
  }

  function Charge(l: Limits, diameter: real): real {
    if diameter == 0.0 then l.diameter else diameter
  }

  function Place(l: Limits, dist: Dist, s: Solution, x: nat): Solution {
    if Exceeds(l, dist, s.open, x)
    then Solution(s.closed + [s.open], [x], s.cost + Charge(l, s.diameter), 0.0)
    else
      var far := Farthest(dist, s.open, |s.open|, x);
      Solution(s.closed, s.open + [x], s.cost, if far > s.diameter then far else s.diameter)
  }

  /** The clustering of the first n points of a sequence. */
  function Greedy(l: Limits, dist: Dist, order: seq<nat>, n: nat): Solution
    requires n <= |order|
  {
    if n == 0 then Solution([], [], 0.0, 0.0) else Place(l, dist, Greedy(l, dist, order, n - 1), order[n - 1])
  }

  /** The clusters are the sequence cut into consecutive pieces: every point is in exactly one. */
  lemma {:induction false} GreedySplits(l: Limits, dist: Dist, order: seq<nat>, n: nat)
    requires n <= |order|
    ensures var s := Greedy(l, dist, order, n); Flat(s.closed, |s.closed|) + s.open == order[..n]
  {
    if n > 0 {
      GreedySplits(l, dist, order, n - 1);
      var s, x := Greedy(l, dist, order, n - 1), order[n - 1];
      assert order[..n] == order[..n - 1] + [x];
      FlatSnoc(s.closed, s.open);
    }
  }

  lemma {:induction false} FlatSnoc<T>(s: seq<seq<T>>, last: seq<T>)
    ensures Flat(s + [last], |s| + 1) == Flat(s, |s|) + last
  {
    FlatPrefix(s, s + [last], |s|);
  }

  lemma {:induction false} FlatPrefix<T>(a: seq<seq<T>>, b: seq<seq<T>>, n: nat)
    requires n <= |a| && a <= b
    ensures Flat(a, n) == Flat(b, n)
  {
    if n > 0 { FlatPrefix(a, b, n - 1); }
  }

  lemma {:induction false} ClustersSplit(l: Limits, dist: Dist, order: seq<nat>)
    ensures var c := Greedy(l, dist, order, |order|).Clusters(); Flat(c, |c|) == order
  {
    GreedySplits(l, dist, order, |order|);
    var s := Greedy(l, dist, order, |order|);
    FlatSnoc(s.closed, s.open);
    assert order[..|order|] == order;
  }

  // ----- diameters and costs -----

  /** The largest distance within a cluster, each point measured to those before it. */
  function Diameter(dist: Dist, cluster: seq<nat>, n: nat): (r: real)
    requires n <= |cluster|
    ensures r >= 0.0
  {
    if n == 0 then 0.0
    else
      var r, far := Diameter(dist, cluster, n - 1), Farthest(dist, cluster, n - 1, cluster[n - 1]);
      if far > r then far else r
  }

  lemma {:induction false} FarthestPrefix(dist: Dist, a: seq<nat>, b: seq<nat>, n: nat, x: nat)
    requires n <= |a| && a <= b
    ensures Farthest(dist, a, n, x) == Farthest(dist, b, n, x)
  {
    if n > 0 { FarthestPrefix(dist, a, b, n - 1, x); }
  }

  lemma {:induction false} DiameterPrefix(dist: Dist, a: seq<nat>, b: seq<nat>, n: nat)
    requires n <= |a| && a <= b
    ensures Diameter(dist, a, n) == Diameter(dist, b, n)
  {
    if n > 0 {
      DiameterPrefix(dist, a, b, n - 1);
      FarthestPrefix(dist, a, b, n - 1, a[n - 1]);
    }
  }

  /** The diameter bounds the distance of any two points of the cluster, and is one of these
      distances unless none exceeds 0. */
  lemma {:induction false} DiameterIsMax(dist: Dist, cluster: seq<nat>, n: nat)
    requires n <= |cluster|
    ensures forall a, b :: 0 <= a < b < n ==> dist(cluster[b], cluster[a]) <= Diameter(dist, cluster, n)
    ensures Diameter(dist, cluster, n) == 0.0
            || exists a, b :: 0 <= a < b < n && dist(cluster[b], cluster[a]) == Diameter(dist, cluster, n)
  {
    if n > 0 {
      DiameterIsMax(dist, cluster, n - 1);
      FarthestIsMax(dist, cluster, n - 1, cluster[n - 1]);
    }
  }

  lemma {:induction false} FarthestIsMax(dist: Dist, cluster: seq<nat>, n: nat, x: nat)
    requires n <= |cluster|
    ensures forall a :: 0 <= a < n ==> dist(x, cluster[a]) <= Farthest(dist, cluster, n, x)
    ensures Farthest(dist, cluster, n, x) == 0.0
            || exists a :: 0 <= a < n && dist(x, cluster[a]) == Farthest(dist, cluster, n, x)
  {
    if n > 0 { FarthestIsMax(dist, cluster, n - 1, x); }
  }

  /** The charges of the first n clusters. */
  function TotalCharge(l: Limits, dist: Dist, clusters: seq<seq<nat>>, n: nat): real
    requires n <= |clusters|
  {
    if n == 0 then 0.0
    else TotalCharge(l, dist, clusters, n - 1) + Charge(l, Diameter(dist, clusters[n - 1], |clusters[n - 1]|))
  }

  lemma {:induction false} TotalChargePrefix(l: Limits, dist: Dist, a: seq<seq<nat>>, b: seq<seq<nat>>, n: nat)
    requires n <= |a| && a <= b
    ensures TotalCharge(l, dist, a, n) == TotalCharge(l, dist, b, n)
  {
    if n > 0 { TotalChargePrefix(l, dist, a, b, n - 1); }
  }

  ghost predicate CostIs(l: Limits, dist: Dist, s: Solution) {
    s.diameter == Diameter(dist, s.open, |s.open|) && s.cost == TotalCharge(l, dist, s.closed, |s.closed|)
  }

  lemma {:induction false} PlaceCost(l: Limits, dist: Dist, s: Solution, x: nat)
    requires CostIs(l, dist, s)
    ensures CostIs(l, dist, Place(l, dist, s, x))
  {
    DiameterPrefix(dist, s.open, s.open + [x], |s.open|);
    FarthestPrefix(dist, s.open, s.open + [x], |s.open|, x);
    TotalChargePrefix(l, dist, s.closed, s.closed + [s.open], |s.closed|);
    assert Diameter(dist, [x], 1) == 0.0;
  }

  /** The running numbers are what they should be: the diameter of the open cluster, and the
      charges of the closed ones. */
  lemma {:induction false} GreedyCost(l: Limits, dist: Dist, order: seq<nat>, n: nat)
    requires n <= |order|
    ensures var s := Greedy(l, dist, order, n);
            && s.diameter == Diameter(dist, s.open, |s.open|)
            && s.cost == TotalCharge(l, dist, s.closed, |s.closed|)
  {
    if n > 0 {
      GreedyCost(l, dist, order, n - 1);
      PlaceCost(l, dist, Greedy(l, dist, order, n - 1), order[n - 1]);
    }
  }

  /** What a cluster is charged: the largest distance in it, or the default if no two of its points are
      apart. */
  ghost predicate IsCharge(l: Limits, dist: Dist, cluster: seq<nat>, v: real) {
    if exists a, b :: 0 <= a < b < |cluster| && dist(cluster[b], cluster[a]) > 0.0 then
      && (forall a, b :: 0 <= a < b < |cluster| ==> dist(cluster[b], cluster[a]) <= v)
      && exists a, b :: 0 <= a < b < |cluster| && dist(cluster[b], cluster[a]) == v
    else v == l.diameter
  }

  lemma {:induction false} ChargeIs(l: Limits, dist: Dist, cluster: seq<nat>)
    ensures IsCharge(l, dist, cluster, Charge(l, Diameter(dist, cluster, |cluster|)))
  {
    DiameterIsMax(dist, cluster, |cluster|);
  }

  function Sum(s: seq<real>, n: nat): real
    requires n <= |s|
  {
    if n == 0 then 0.0 else Sum(s, n - 1) + s[n - 1]
  }

  ghost predicate Charged(l: Limits, dist: Dist, clusters: seq<seq<nat>>, n: nat, charges: seq<real>)
    requires n <= |clusters|
  {
    |charges| == n && forall i :: 0 <= i < n ==> IsCharge(l, dist, clusters[i], charges[i])
  }

  /** The charges one by one. */
  lemma {:induction false} TotalIsSum(l: Limits, dist: Dist, clusters: seq<seq<nat>>, n: nat) returns (charges: seq<real>)
    requires n <= |clusters|
    ensures Charged(l, dist, clusters, n, charges) && TotalCharge(l, dist, clusters, n) == Sum(charges, n)
  {
    charges := [];
    if n > 0 {
      var before := TotalIsSum(l, dist, clusters, n - 1);
      var c := clusters[n - 1];
      charges := before + [Charge(l, Diameter(dist, c, |c|))];
      OneMoreCharge(l, dist, clusters, n, before);
    }
  }

  lemma {:induction false} OneMoreCharge(l: Limits, dist: Dist, clusters: seq<seq<nat>>, n: nat, before: seq<real>)
    requires 0 < n <= |clusters| && Charged(l, dist, clusters, n - 1, before)
    ensures var v := Charge(l, Diameter(dist, clusters[n - 1], |clusters[n - 1]|));
            Charged(l, dist, clusters, n, before + [v]) && Sum(before + [v], n) == Sum(before, n - 1) + v
  {
    var v := Charge(l, Diameter(dist, clusters[n - 1], |clusters[n - 1]|));
    ChargeIs(l, dist, clusters[n - 1]);
    SumPrefix(before, before + [v], n - 1);
  }

  lemma {:induction false} SumPrefix(a: seq<real>, b: seq<real>, n: nat)
    requires n <= |a| && a <= b
    ensures Sum(a, n) == Sum(b, n)
  {
    if n > 0 { SumPrefix(a, b, n - 1); }
  }

  // ----- sizes and diameters stay within the limits -----

  predicate Fits(dist: Dist, cluster: seq<nat>, groupSize: nat, diameter: real) {
    && 0 < |cluster| <= groupSize
    && forall a, b :: 0 <= a < b < |cluster| ==> dist(cluster[b], cluster[a]) <= diameter
  }

  /** By size and diameter, no cluster is empty, larger than the group size or wider than the
      diameter. */
  lemma {:induction false} GreedyFits(dist: Dist, order: seq<nat>, n: nat, groupSize: nat, diameter: real)
    requires 0 < n <= |order| && groupSize > 0 && diameter >= 0.0
    ensures var s := Greedy(Sizes(groupSize, diameter), dist, order, n);
            forall c :: c in s.Clusters() ==> Fits(dist, c, groupSize, diameter)
  {
    var l := Sizes(groupSize, diameter);
    var s, x := Greedy(l, dist, order, n - 1), order[n - 1];
    if n == 1 {
      assert Greedy(l, dist, order, n) == Solution([], [x], 0.0, 0.0) by {
        assert [] + [x] == [x];
      }
    } else {
      GreedyFits(dist, order, n - 1, groupSize, diameter);
      assert Fits(dist, s.open, groupSize, diameter) by {
        assert s.Clusters()[|s.closed|] == s.open;
      }
      assert forall c :: c in s.closed ==> c in s.Clusters();
      FarthestIsMax(dist, s.open, |s.open|, x);
    }
  }

  /** By capacitance, a point joins other points only if the load then stays within the limit. */
  predicate Drivable(l: Limits, dist: Dist, cluster: seq<nat>)
    requires l.Caps?
  {
    forall k :: 1 <= k < |cluster| ==> Load(l, dist, cluster[..k], k, cluster[k]) <= l.limit
  }

  lemma {:induction false} GreedyDrivable(l: Limits, dist: Dist, order: seq<nat>, n: nat)
    requires l.Caps? && n <= |order|
    ensures forall c :: c in Greedy(l, dist, order, n).Clusters() ==> Drivable(l, dist, c)
  {
    if n > 0 {
      GreedyDrivable(l, dist, order, n - 1);
      var s, x := Greedy(l, dist, order, n - 1), order[n - 1];
      assert s.Clusters()[|s.closed|] == s.open;
      assert forall c :: c in s.closed ==> c in s.Clusters();
      if !Exceeds(l, dist, s.open, x) {
        DrivableSnoc(l, dist, s.open, x);
      }
    }
  }

  lemma {:induction false} DrivableSnoc(l: Limits, dist: Dist, cluster: seq<nat>, x: nat)
    requires l.Caps? && Drivable(l, dist, cluster) && !Exceeds(l, dist, cluster, x)
    ensures Drivable(l, dist, cluster + [x])
  {
    var c := cluster + [x];
    forall k | 1 <= k < |c|
      ensures Load(l, dist, c[..k], k, c[k]) <= l.limit
    {
      assert c[..k] == cluster[..k];
      assert cluster[..|cluster|] == cluster;
    }
  }

  /** What the first n points of a cluster take for themselves. */
  function CapSum(cap: nat -> real, cluster: seq<nat>, n: nat): real
    requires n <= |cluster|
  {
    if n == 0 then 0.0 else CapSum(cap, cluster, n - 1) + cap(cluster[n - 1])
  }

  /** The distances of a point to the first n points of a cluster, added up. */
  function DistSum(dist: Dist, x: nat, cluster: seq<nat>, n: nat): real
    requires n <= |cluster|
  {
    if n == 0 then 0.0 else DistSum(dist, x, cluster, n - 1) + dist(x, cluster[n - 1])
  }

  lemma {:induction false} LoadIs(l: Limits, dist: Dist, cluster: seq<nat>, n: nat, x: nat)
    requires n <= |cluster| && l.Caps?
    ensures Load(l, dist, cluster, n, x) == CapSum(l.cap, cluster, n) + l.cap(x) + l.capPerUnit * DistSum(dist, x, cluster, n)
  {
    if n > 0 {
      LoadIs(l, dist, cluster, n - 1, x);
      Spread(l.capPerUnit, DistSum(dist, x, cluster, n - 1), dist(x, cluster[n - 1]));
    }
  }

  lemma {:induction false} Spread(a: real, b: real, c: real)
    ensures a * (b + c) == a * b + c * a
  {
  }

  lemma {:induction false} SumsPrefix(cap: nat -> real, dist: Dist, x: nat, a: seq<nat>, b: seq<nat>, n: nat)
    requires n <= |a| && a <= b
    ensures CapSum(cap, a, n) == CapSum(cap, b, n) && DistSum(dist, x, a, n) == DistSum(dist, x, b, n)
  {
    if n > 0 { SumsPrefix(cap, dist, x, a, b, n - 1); }
  }

  /** Point k of a cluster, the capacitances up to it and the wires from it to the points before
      together are within the limit. */
  predicate WithinLimit(l: Limits, dist: Dist, cluster: seq<nat>, k: nat)
    requires l.Caps? && k < |cluster|
  {
    CapSum(l.cap, cluster, k + 1) + l.capPerUnit * DistSum(dist, cluster[k], cluster, k) <= l.limit
  }

  /** With x, the cluster would no longer be within the limit, or the size, or the diameter. */
  ghost predicate Overflows(l: Limits, dist: Dist, cluster: seq<nat>, x: nat) {
    match l
    case Caps(limit, capPerUnit, cap, _) =>
      CapSum(cap, cluster, |cluster|) + cap(x) + capPerUnit * DistSum(dist, x, cluster, |cluster|) > limit
    case Sizes(groupSize, diameter) =>
      |cluster| >= groupSize || diameter < 0.0 || exists i :: 0 <= i < |cluster| && dist(x, cluster[i]) > diameter
  }

  lemma {:induction false} ExceedsIs(l: Limits, dist: Dist, cluster: seq<nat>, x: nat)
    ensures Exceeds(l, dist, cluster, x) <==> Overflows(l, dist, cluster, x)
  {
    if l.Caps? {
      LoadIs(l, dist, cluster, |cluster|, x);
    } else {
      FarthestIsMax(dist, cluster, |cluster|, x);
    }
  }

  lemma {:induction false} JoinedWithin(l: Limits, dist: Dist, c: seq<nat>, k: nat)
    requires l.Caps? && 1 <= k < |c| && Drivable(l, dist, c)
    ensures WithinLimit(l, dist, c, k)
  {
    assert Load(l, dist, c[..k], k, c[k]) <= l.limit;
    LoadIs(l, dist, c[..k], k, c[k]);
    SumsPrefix(l.cap, dist, c[k], c[..k], c, k);
  }

  /** By capacitance, each point of a cluster but the first is within the limit with those before it. */
  lemma {:induction false} GreedyWithin(l: Limits, dist: Dist, order: seq<nat>, n: nat, c: seq<nat>, k: nat)
    requires l.Caps? && n <= |order| && c in Greedy(l, dist, order, n).Clusters() && 1 <= k < |c|
    ensures WithinLimit(l, dist, c, k)
  {
    GreedyDrivable(l, dist, order, n);
    JoinedWithin(l, dist, c, k);
  }

  /** The first point of cluster i + 1 did not fit into cluster i. */
  predicate ClosedBy(l: Limits, dist: Dist, clusters: seq<seq<nat>>, i: nat)
    requires i + 1 < |clusters|
  {
    clusters[i + 1] != [] && Exceeds(l, dist, clusters[i], clusters[i + 1][0])
  }

  lemma {:induction false} GreedyCloses(l: Limits, dist: Dist, order: seq<nat>, n: nat, i: nat)
    requires n <= |order| && i + 1 < |Greedy(l, dist, order, n).Clusters()|
    ensures ClosedBy(l, dist, Greedy(l, dist, order, n).Clusters(), i)
  {
    var s, x := Greedy(l, dist, order, n - 1), order[n - 1];
    var before, after := s.Clusters(), Greedy(l, dist, order, n).Clusters();
    if i + 1 < |before| {
      GreedyCloses(l, dist, order, n - 1, i);
      assert after[i] == before[i] && after[i + 1] != [] && after[i + 1][0] == before[i + 1][0];
    } else {
      assert after[i] == s.open && after[i + 1] == [x];
    }
  }

  /** A cluster is closed only by a point that would be too much for it. */
  lemma {:induction false} GreedyOverflows(l: Limits, dist: Dist, order: seq<nat>, n: nat, i: nat)
    requires n <= |order| && i + 1 < |Greedy(l, dist, order, n).Clusters()|
    ensures var c := Greedy(l, dist, order, n).Clusters(); c[i + 1] != [] && Overflows(l, dist, c[i], c[i + 1][0])
  {
    GreedyCloses(l, dist, order, n, i);
    var c := Greedy(l, dist, order, n).Clusters();
    ExceedsIs(l, dist, c[i], c[i + 1][0]);
  }

  /** An empty cluster can only come first, and does so exactly if the very first point exceeds
      the limits alone. */
  lemma {:induction false} EmptyCluster(l: Limits, dist: Dist, order: seq<nat>, n: nat, i: nat)
    requires 0 < n <= |order| && i < |Greedy(l, dist, order, n).Clusters()|
    ensures Greedy(l, dist, order, n).Clusters()[i] == [] <==> i == 0 && Exceeds(l, dist, [], order[0])
    ensures Greedy(l, dist, order, n).open != []
  {
    if n > 1 {
      var s := Greedy(l, dist, order, n - 1);
      EmptyCluster(l, dist, order, n - 1, if i < |s.Clusters()| then i else 0);
      assert s.Clusters()[|s.closed|] == s.open;
    }
  }

  // ----- all clusterings in lock-step -----

  /** The vectors that hold the clusterings under way, by the place they start from. */
  datatype Lanes = Lanes(clusters: seq<nat>, costs: seq<real>, previousCosts: seq<real>, solutions: seq<seq<seq<nat>>>) {
    predicate Shaped(g: nat) {
      |clusters| == |costs| == |previousCosts| == g && |solutions| <= g
    }

    function SolutionAt(j: nat): seq<seq<nat>> {
      if j < |solutions| then solutions[j] else []
    }
  }

  /** Lane j stands for the clustering s. */
  ghost predicate LaneIs(v: Lanes, j: nat, s: Solution) {
    && v.Shaped(|v.clusters|) && j < |v.clusters|
    && v.clusters[j] == |s.closed| && v.costs[j] == s.cost && v.previousCosts[j] == s.diameter
    && (v.SolutionAt(j) == s.Clusters() || (s.open == [] && v.SolutionAt(j) == s.closed))
  }

  /** Only lane j differs. */
  ghost predicate OnlyLane(v: Lanes, w: Lanes, j: nat) {
    && v.Shaped(|v.clusters|) && w.Shaped(|v.clusters|)
    && |w.solutions| == (if j < |v.solutions| then |v.solutions| else j + 1)
    && forall k :: 0 <= k < |v.clusters| && k != j ==>
         && w.clusters[k] == v.clusters[k] && w.costs[k] == v.costs[k] && w.previousCosts[k] == v.previousCosts[k]
         && w.SolutionAt(k) == v.SolutionAt(k)
  }

  /** The points in the order in which clustering j takes them. */
  function From(theta: seq<nat>, j: nat): (r: seq<nat>)
    requires j <= |theta|
    ensures |r| == |theta|
  {
    theta[j..] + theta[..j]
  }

  /** Each lane has taken as many points as `progress` says. */
  ghost predicate LanesAt(v: Lanes, l: Limits, dist: Dist, theta: seq<nat>, progress: seq<nat>) {
    && v.Shaped(|progress|) && |progress| <= |theta|
    && forall k {:trigger LaneAt(v, l, dist, theta, progress, k)} :: 0 <= k < |progress| ==>
         LaneAt(v, l, dist, theta, progress, k)
  }

  ghost predicate LaneAt(v: Lanes, l: Limits, dist: Dist, theta: seq<nat>, progress: seq<nat>, k: nat)
    requires k < |progress| <= |theta|
  {
    progress[k] <= |theta| && LaneIs(v, k, Greedy(l, dist, From(theta, k), progress[k]))
  }

  lemma {:induction false} OneMorePoint(v: Lanes, w: Lanes, l: Limits, dist: Dist, theta: seq<nat>, progress: seq<nat>, j: nat)
    requires LanesAt(v, l, dist, theta, progress) && j < |progress| && progress[j] < |theta| && OnlyLane(v, w, j)
    requires LaneIs(w, j, Place(l, dist, Greedy(l, dist, From(theta, j), progress[j]), From(theta, j)[progress[j]]))
    ensures LanesAt(w, l, dist, theta, progress[j := progress[j] + 1])
  {
    var progress' := progress[j := progress[j] + 1];
    forall k {:trigger LaneAt(w, l, dist, theta, progress', k)} | 0 <= k < |progress'|
      ensures LaneAt(w, l, dist, theta, progress', k)
    {
      assert LaneAt(v, l, dist, theta, progress, k);
    }
  }

  /** Compare a point with those of a cluster. */
  method Compare(l: Limits, dist: Dist, cluster: seq<nat>, idx: nat) returns (distanceCost: real, exceeded: bool)
    ensures distanceCost == Farthest(dist, cluster, |cluster|, idx)
    ensures exceeded == Exceeds(l, dist, cluster, idx)
  {
    distanceCost := 0.0;
    var capCost := if l.Caps? then l.cap(idx) else 0.0;
    for pointIdx := 0 to |cluster|
      invariant distanceCost == Farthest(dist, cluster, pointIdx, idx)
      invariant l.Caps? ==> capCost == Load(l, dist, cluster, pointIdx, idx)
    {
      var cost := dist(idx, cluster[pointIdx]);
      if l.Caps? {
        capCost := capCost + cost * l.capPerUnit + l.cap(cluster[pointIdx]);
      }
      if cost > distanceCost {
        distanceCost := cost;
      }
    }
    match l {
      case Caps(limit, _, _, _) => exceeded := capCost > limit;
      case Sizes(groupSize, diameter) => exceeded := |cluster| >= groupSize || distanceCost > diameter;
    }
  }

  /** Give the next point to lane j. */
  method PlacePoint(v: Lanes, l: Limits, dist: Dist, j: nat, idx: nat, ghost s: Solution) returns (w: Lanes)
    requires LaneIs(v, j, s) && j <= |v.solutions|
    ensures OnlyLane(v, w, j) && LaneIs(w, j, Place(l, dist, s, idx)) && w.SolutionAt(j) == Place(l, dist, s, idx).Clusters()
  {
    var clusters, costs, previousCosts, solutions := v.clusters, v.costs, v.previousCosts, v.solutions;
    if |solutions| < j + 1 {
      solutions := solutions + [[]];
    }
    if |solutions[j]| < clusters[j] + 1 {
      solutions := solutions[j := solutions[j] + [[]]];
    }
    assert solutions[j] == s.Clusters();
    var distanceCost, exceeded := Compare(l, dist, solutions[j][clusters[j]], idx);
    if exceeded {
      if previousCosts[j] == 0.0 {
        previousCosts := previousCosts[j := l.diameter];
      }
      costs := costs[j := costs[j] + previousCosts[j]];
      clusters := clusters[j := clusters[j] + 1];
      previousCosts := previousCosts[j := 0.0];
    } else {
      if distanceCost > previousCosts[j] {
        previousCosts := previousCosts[j := distanceCost];
      }
    }
    if |solutions[j]| < clusters[j] + 1 {
      solutions := solutions[j := solutions[j] + [[]]];
    }
    solutions := solutions[j := solutions[j][clusters[j] := solutions[j][clusters[j]] + [idx]]];
    w := Lanes(clusters, costs, previousCosts, solutions);
    assert [] + [idx] == [idx];
  }
}
