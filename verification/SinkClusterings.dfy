/** Clustering the sinks: the lock-step passes over all starting places, and the best clustering
    over several runs. */
module SinkClusterings {
  import opened ClockNets
  import Branching
  import opened SinkMatching

  /** How many points lane k has taken when the first pass is about to look at lane j in round i. */
  function Taken(i: nat, j: nat, k: nat, n: nat): nat
    requires k <= n
  {
    var rounds := if k < j then i + 1 else i;
    if rounds < n - k then rounds else n - k
  }

  /** The same in the second pass, which hands each lane the points before its starting place. */
  function TakenAgain(i: nat, j: nat, k: nat, n: nat): nat
    requires k <= n
  {
    n - k + (if i < k then i else k) + if i < k < j then 1 else 0
  }

  /** The same for all lanes. */
  ghost function FirstProgress(i: nat, j: nat, n: nat, groupSize: nat): (progress: seq<nat>)
    requires groupSize <= n
    ensures |progress| == groupSize
  {
    seq(groupSize, k requires 0 <= k < groupSize => Taken(i, j, k, n))
  }

  ghost function SecondProgress(i: nat, j: nat, n: nat, groupSize: nat): (progress: seq<nat>)
    requires groupSize <= n
    ensures |progress| == groupSize
  {
    seq(groupSize, k requires 0 <= k < groupSize => TakenAgain(i, j, k, n))
  }

  lemma {:induction false} FirstStep(i: nat, j: nat, theta: seq<nat>, groupSize: nat)
    requires j < groupSize <= |theta|
    ensures var progress, next := FirstProgress(i, j, |theta|, groupSize), FirstProgress(i, j + 1, |theta|, groupSize);
            if i + j < |theta| then progress[j] == i && From(theta, j)[i] == theta[i + j] && next == progress[j := i + 1]
            else next == progress
  {
  }

  lemma {:induction false} SecondStep(i: nat, j: nat, theta: seq<nat>, groupSize: nat)
    requires i < j < groupSize <= |theta|
    ensures var progress := SecondProgress(i, j, |theta|, groupSize);
            && progress[j] == |theta| - j + i && From(theta, j)[progress[j]] == theta[i]
            && SecondProgress(i, j + 1, |theta|, groupSize) == progress[j := progress[j] + 1]
  {
  }

  /** Where one round or pass ends, the next one begins; and in the end every lane has all points. */
  lemma {:induction false} RoundsMeet(i: nat, n: nat, groupSize: nat)
    requires groupSize <= n
    ensures FirstProgress(i, groupSize, n, groupSize) == FirstProgress(i + 1, 0, n, groupSize)
    ensures FirstProgress(n, 0, n, groupSize) == SecondProgress(0, 0, n, groupSize)
    ensures i < groupSize ==> SecondProgress(i, 0, n, groupSize) == SecondProgress(i, i + 1, n, groupSize)
    ensures i < groupSize ==> SecondProgress(i, groupSize, n, groupSize) == SecondProgress(i + 1, 0, n, groupSize)
    ensures SecondProgress(groupSize, 0, n, groupSize) == seq(groupSize, _ => n)
  {
  }

  /** Lane j takes its next point. */
  method TakePoint(v: Lanes, l: Limits, dist: Dist, theta: seq<nat>, j: nat, idx: nat, ghost progress: seq<nat>)
    returns (w: Lanes)
    requires LanesAt(v, l, dist, theta, progress) && j < |progress| && progress[j] < |theta| && j <= |v.solutions|
    requires From(theta, j)[progress[j]] == idx
    ensures LanesAt(w, l, dist, theta, progress[j := progress[j] + 1])
    ensures |w.solutions| == if j < |v.solutions| then |v.solutions| else j + 1
  {
    assert LaneAt(v, l, dist, theta, progress, j);
    w := PlacePoint(v, l, dist, j, idx, Greedy(l, dist, From(theta, j), progress[j]));
    OneMorePoint(v, w, l, dist, theta, progress, j);
  }

  /** The first pass: every lane from its starting place to the end. */
  method FirstPass(l: Limits, dist: Dist, theta: seq<nat>, groupSize: nat) returns (v: Lanes)
    requires groupSize <= |theta|
    ensures LanesAt(v, l, dist, theta, SecondProgress(0, 0, |theta|, groupSize)) && |v.solutions| == groupSize
  {
    v := Lanes(seq(groupSize, _ => 0), seq(groupSize, _ => 0.0), seq(groupSize, _ => 0.0), []);
    var i := 0;
    while i < |theta|
      invariant i <= |theta| && LanesAt(v, l, dist, theta, FirstProgress(i, 0, |theta|, groupSize))
      invariant |v.solutions| == if i == 0 then 0 else groupSize
    {
      v := FirstRound(v, l, dist, theta, groupSize, i);
      i := i + 1;
    }
    RoundsMeet(i, |theta|, groupSize);
  }

  method FirstRound(v0: Lanes, l: Limits, dist: Dist, theta: seq<nat>, groupSize: nat, i: nat) returns (v: Lanes)
    requires groupSize <= |theta| && i < |theta| && |v0.solutions| == if i == 0 then 0 else groupSize
    requires LanesAt(v0, l, dist, theta, FirstProgress(i, 0, |theta|, groupSize))
    ensures LanesAt(v, l, dist, theta, FirstProgress(i + 1, 0, |theta|, groupSize)) && |v.solutions| == groupSize
  {
    v := v0;
    for j := 0 to groupSize
      invariant |v.solutions| == if i == 0 then j else groupSize
      invariant LanesAt(v, l, dist, theta, FirstProgress(i, j, |theta|, groupSize))
    {
      FirstStep(i, j, theta, groupSize);
      if i + j < |theta| {
        v := TakePoint(v, l, dist, theta, j, theta[i + j], FirstProgress(i, j, |theta|, groupSize));
      }
    }
    RoundsMeet(i, |theta|, groupSize);
  }

  /** Every lane holds the clustering of all points from its starting place on. */
  ghost predicate AllTaken(v: Lanes, l: Limits, dist: Dist, theta: seq<nat>, groupSize: nat) {
    LanesAt(v, l, dist, theta, seq(groupSize, _ => |theta|)) && |v.solutions| == groupSize
  }

  /** The second pass: every lane takes the points before its starting place. */
  method SecondPass(v0: Lanes, l: Limits, dist: Dist, theta: seq<nat>, groupSize: nat) returns (v: Lanes)
    requires groupSize <= |theta| && |v0.solutions| == groupSize
    requires LanesAt(v0, l, dist, theta, SecondProgress(0, 0, |theta|, groupSize))
    ensures AllTaken(v, l, dist, theta, groupSize)
  {
    v := v0;
    for i := 0 to groupSize
      invariant |v.solutions| == groupSize && LanesAt(v, l, dist, theta, SecondProgress(i, 0, |theta|, groupSize))
    {
      RoundsMeet(i, |theta|, groupSize);
      for j := i + 1 to groupSize
        invariant |v.solutions| == groupSize && LanesAt(v, l, dist, theta, SecondProgress(i, j, |theta|, groupSize))
      {
        SecondStep(i, j, theta, groupSize);
        v := TakePoint(v, l, dist, theta, j, theta[i], SecondProgress(i, j, |theta|, groupSize));
      }
    }
    RoundsMeet(groupSize, |theta|, groupSize);
  }

  // ----- the best of several runs -----

  /** A clustering that was found, and the group size and diameter it was found with. */
  datatype Try = Try(cost: real, clusters: seq<seq<nat>>, size: nat, diameter: real)

  /** What a run tries, one after the other: the clusterings from all starting places but the first. */
  ghost function Tries(l: Limits, dist: Dist, theta: seq<nat>, size: nat, n: nat): seq<Try>
    requires n <= 1 || n <= |theta|
  {
    if n <= 1 then [] else Tries(l, dist, theta, size, n - 1) + [TryAt(l, dist, theta, size, n - 1)]
  }

  ghost function TryAt(l: Limits, dist: Dist, theta: seq<nat>, size: nat, j: nat): Try
    requires j <= |theta|
  {
    var s := Greedy(l, dist, From(theta, j), |theta|);
    Try(s.cost, s.Clusters(), size, l.diameter)
  }

  /** When both passes are done, lane j holds the clustering of all points from its starting place on. */
  lemma {:induction false} LaneDone(v: Lanes, l: Limits, dist: Dist, theta: seq<nat>, groupSize: nat, j: nat)
    requires AllTaken(v, l, dist, theta, groupSize) && j < groupSize
    ensures Try(v.costs[j], v.solutions[j], groupSize, l.diameter) == TryAt(l, dist, theta, groupSize, j)
  {
    assert LaneAt(v, l, dist, theta, seq(groupSize, _ => |theta|), j);
    EmptyCluster(l, dist, From(theta, j), |theta|, 0);
  }

  /** Every try cuts the curve, turned to its starting place, into consecutive clusters; it costs
      what all of them but the last are charged. */
  lemma {:induction false} TryIsClustering(l: Limits, dist: Dist, theta: seq<nat>, size: nat, j: nat) returns (charges: seq<real>)
    requires j < |theta|
    ensures var t := TryAt(l, dist, theta, size, j);
            && Branching.Flat(t.clusters, |t.clusters|) == theta[j..] + theta[..j]
            && multiset(Branching.Flat(t.clusters, |t.clusters|)) == multiset(theta)
            && |t.clusters| > 0 && Charged(l, dist, t.clusters, |t.clusters| - 1, charges)
            && t.cost == Sum(charges, |charges|)
  {
    var s := Greedy(l, dist, From(theta, j), |theta|);
    ClustersSplit(l, dist, From(theta, j));
    assert theta == theta[..j] + theta[j..];
    GreedyCost(l, dist, From(theta, j), |theta|);
    TotalChargePrefix(l, dist, s.closed, s.Clusters(), |s.closed|);
    charges := TotalIsSum(l, dist, s.Clusters(), |s.closed|);
  }

  /** The tries of a run are those from the second place to the last one of the first group. */
  lemma {:induction false} TriesAre(l: Limits, dist: Dist, theta: seq<nat>, size: nat, n: nat)
    requires 1 <= n <= |theta|
    ensures var tries := Tries(l, dist, theta, size, n);
            |tries| == n - 1 && forall j :: 1 <= j < n ==> tries[j - 1] == TryAt(l, dist, theta, size, j)
  {
    if n > 1 { TriesAre(l, dist, theta, size, n - 1); }
  }

  /** By size and diameter, all clusters of every try are within the limits. */
  lemma {:induction false} TryFits(dist: Dist, theta: seq<nat>, groupSize: nat, diameter: real, j: nat)
    requires j < |theta| && groupSize > 0 && diameter >= 0.0
    ensures forall c :: c in TryAt(Sizes(groupSize, diameter), dist, theta, groupSize, j).clusters ==>
                          Fits(dist, c, groupSize, diameter)
  {
    GreedyFits(dist, From(theta, j), |theta|, groupSize, diameter);
  }

  /** By capacitance, in every try each point but the first of its cluster is within the limit with
      those before it. */
  lemma {:induction false} TryWithin(l: Limits, dist: Dist, theta: seq<nat>, size: nat, j: nat, c: seq<nat>, k: nat)
    requires l.Caps? && j < |theta| && c in TryAt(l, dist, theta, size, j).clusters && 1 <= k < |c|
    ensures WithinLimit(l, dist, c, k)
  {
    GreedyWithin(l, dist, From(theta, j), |theta|, c, k);
  }

  /** And in every try a cluster ends only where the next point would be too much for it. */
  lemma {:induction false} TryOverflows(l: Limits, dist: Dist, theta: seq<nat>, size: nat, j: nat, i: nat)
    requires j < |theta| && i + 1 < |TryAt(l, dist, theta, size, j).clusters|
    ensures var c := TryAt(l, dist, theta, size, j).clusters; c[i + 1] != [] && Overflows(l, dist, c[i], c[i + 1][0])
  {
    GreedyOverflows(l, dist, From(theta, j), |theta|, i);
  }

  /** The first of the cheapest tries. */
  ghost predicate FirstCheapest(tried: seq<Try>, k: nat) {
    && k < |tried|
    && (forall i :: 0 <= i < |tried| ==> tried[k].cost <= tried[i].cost)
    && (forall i :: 0 <= i < k ==> tried[k].cost < tried[i].cost)
  }

  /** The place of the first of the cheapest among the first n tries. */
  ghost function Cheapest(tried: seq<Try>, n: nat): (k: nat)
    requires 0 < n <= |tried|
    ensures k < n
  {
    if n == 1 then 0
    else
      var k := Cheapest(tried, n - 1);
      if tried[n - 1].cost < tried[k].cost then n - 1 else k
  }

  lemma {:induction false} CheapestIsFirst(tried: seq<Try>, n: nat)
    requires 0 < n <= |tried|
    ensures FirstCheapest(tried[..n], Cheapest(tried, n))
  {
    if n > 1 {
      CheapestIsFirst(tried, n - 1);
      var k := Cheapest(tried, n - 1);
      assert FirstCheapest(tried[..n - 1], k);
      assert forall i :: 0 <= i < n - 1 ==> tried[..n - 1][i] == tried[i] == tried[..n][i];
      assert forall i :: 0 <= i < n - 1 ==> tried[k].cost <= tried[i].cost;
      assert forall i :: 0 <= i < k ==> tried[k].cost < tried[i].cost;
    }
  }

  lemma {:induction false} CheapestPrefix(tried: seq<Try>, more: seq<Try>, n: nat)
    requires 0 < n <= |tried|
    ensures Cheapest(tried, n) == Cheapest(tried + more, n)
  {
    if n > 1 { CheapestPrefix(tried, more, n - 1); }
  }

  /** What is kept is the first of the cheapest of all tries. */
  ghost predicate BestIs(tried: seq<Try>, cost: Option<real>, clusters: seq<seq<nat>>, size: nat, diameter: real) {
    if tried == [] then cost == None
    else
      var best := tried[Cheapest(tried, |tried|)];
      cost == Some(best.cost) && best == Try(best.cost, clusters, size, diameter)
  }

  lemma {:induction false} BestStep(tried: seq<Try>, cost: Option<real>, clusters: seq<seq<nat>>, size: nat, diameter: real, t: Try)
    requires BestIs(tried, cost, clusters, size, diameter)
    ensures if cost == None || t.cost < cost.value
            then BestIs(tried + [t], Some(t.cost), t.clusters, t.size, t.diameter)
            else BestIs(tried + [t], cost, clusters, size, diameter)
  {
    if tried != [] {
      CheapestPrefix(tried, [t], |tried|);
    }
  }

  /** One more clustering tried: the best stays the best if it replaces a dearer one. */
  lemma {:induction false} OneMoreTry(v: Lanes, l: Limits, dist: Dist, theta: seq<nat>, groupSize: nat, j: nat, tried: seq<Try>,
                                      cost: Option<real>, clusters: seq<seq<nat>>, size: nat, diameter: real)
    requires AllTaken(v, l, dist, theta, groupSize) && 1 <= j < groupSize <= |theta|
    requires BestIs(tried + Tries(l, dist, theta, groupSize, j), cost, clusters, size, diameter)
    ensures var tried' := tried + Tries(l, dist, theta, groupSize, j + 1);
            if cost == None || v.costs[j] < cost.value
            then BestIs(tried', Some(v.costs[j]), v.solutions[j], groupSize, l.diameter)
            else BestIs(tried', cost, clusters, size, diameter)
  {
    LaneDone(v, l, dist, theta, groupSize, j);
    BestStep(tried + Tries(l, dist, theta, groupSize, j), cost, clusters, size, diameter, TryAt(l, dist, theta, groupSize, j));
    OneMoreTried(tried, l, dist, theta, groupSize, j);
  }

  lemma {:induction false} OneMoreTried(tried: seq<Try>, l: Limits, dist: Dist, theta: seq<nat>, size: nat, j: nat)
    requires 1 <= j < |theta|
    ensures tried + Tries(l, dist, theta, size, j + 1)
            == tried + Tries(l, dist, theta, size, j) + [TryAt(l, dist, theta, size, j)]
  {
  }

  /** What is the best once lane `best` has been taken, or none of the lanes. */
  ghost predicate BestWith(tried: seq<Try>, cost: Option<real>, v: Lanes, best: Option<nat>, groupSize: nat, diameter: real,
                           clusters0: seq<seq<nat>>, size0: nat, diameter0: real) {
    if best == None then BestIs(tried, cost, clusters0, size0, diameter0)
    else best.value < |v.solutions| && BestIs(tried, cost, v.solutions[best.value], groupSize, diameter)
  }

  lemma {:induction false} BestNext(v: Lanes, l: Limits, dist: Dist, theta: seq<nat>, groupSize: nat, j: nat, tried: seq<Try>,
                                    cost: Option<real>, best: Option<nat>, clusters0: seq<seq<nat>>, size0: nat,
                                    diameter0: real)
    requires AllTaken(v, l, dist, theta, groupSize) && 1 <= j < groupSize <= |theta|
    requires BestWith(tried + Tries(l, dist, theta, groupSize, j), cost, v, best, groupSize, l.diameter,
                      clusters0, size0, diameter0)
    ensures var better := cost == None || v.costs[j] < cost.value;
            BestWith(tried + Tries(l, dist, theta, groupSize, j + 1), if better then Some(v.costs[j]) else cost, v,
                     if better then Some(j) else best, groupSize, l.diameter, clusters0, size0, diameter0)
  {
    if best == None {
      OneMoreTry(v, l, dist, theta, groupSize, j, tried, cost, clusters0, size0, diameter0);
    } else {
      OneMoreTry(v, l, dist, theta, groupSize, j, tried, cost, v.solutions[best.value], groupSize, l.diameter);
    }
  }

  /** Find the cheapest of the new clusterings, if it is cheaper than what there was. */
  method PickBest(v: Lanes, l: Limits, dist: Dist, theta: seq<nat>, groupSize: nat, cost0: Option<real>,
                  ghost tried: seq<Try>, ghost clusters0: seq<seq<nat>>, ghost size0: nat, ghost diameter0: real)
    returns (best: Option<nat>, cost: Option<real>)
    requires groupSize <= |theta| && AllTaken(v, l, dist, theta, groupSize)
    requires BestIs(tried, cost0, clusters0, size0, diameter0)
    ensures best == None ==> cost == cost0
    ensures BestWith(tried + Tries(l, dist, theta, groupSize, groupSize), cost, v, best, groupSize, l.diameter,
                     clusters0, size0, diameter0)
  {
    best, cost := None, cost0;
    assert tried + Tries(l, dist, theta, groupSize, 1) == tried;
    assert groupSize == 0 ==> tried + Tries(l, dist, theta, groupSize, 0) == tried;
    var j := 1;
    while j < groupSize
      invariant 1 <= j && (j == 1 || j <= groupSize)
      invariant best == None ==> cost == cost0
      invariant BestWith(tried + Tries(l, dist, theta, groupSize, j), cost, v, best, groupSize, l.diameter,
                         clusters0, size0, diameter0)
    {
      BestNext(v, l, dist, theta, groupSize, j, tried, cost, best, clusters0, size0, diameter0);
      if cost == None || v.costs[j] < cost.value {
        best, cost := Some(j), Some(v.costs[j]);
      }
      j := j + 1;
    }
  }

  class SinkClustering {
    const dist: Dist
    const useMaxCapLimit: bool
    const capLimit: real
    const capPerUnit: real
    const cap: nat -> real

    /** The indices of the points, sorted along the curve. */
    const thetaIndexVector: seq<nat>
    var maxInternalDiameter: real
    var bestSolution: seq<seq<nat>>
    var bestSolutionCost: Option<real>
    ghost var tried: seq<Try>

    constructor (dist: Dist, useMaxCapLimit: bool, capLimit: real, capPerUnit: real, cap: nat -> real,
                 thetaIndexVector: seq<nat>)
      ensures this.dist == dist && this.useMaxCapLimit == useMaxCapLimit && this.thetaIndexVector == thetaIndexVector
      ensures this.capLimit == capLimit && this.capPerUnit == capPerUnit && this.cap == cap
      ensures tried == [] && forall size, diameter :: BestIs(tried, bestSolutionCost, bestSolution, size, diameter)
    {
      this.dist, this.useMaxCapLimit, this.capLimit, this.capPerUnit := dist, useMaxCapLimit, capLimit, capPerUnit;
      this.cap, this.thetaIndexVector := cap, thetaIndexVector;
      maxInternalDiameter, bestSolution, bestSolutionCost, tried := 10.0, [], None, [];
    }

    function LimitsFor(groupSize: nat): Limits
      reads `maxInternalDiameter
    {
      if useMaxCapLimit then Caps(capLimit, capPerUnit, cap, maxInternalDiameter) else Sizes(groupSize, maxInternalDiameter)
    }

    /** Try all starting places, and keep the first of the cheapest clusterings of this and all
        earlier runs. */
    method FindBestMatching(groupSize: nat, ghost size: nat, ghost diameter: real) returns (bestSolutionFound: bool)
      requires groupSize <= |thetaIndexVector| && BestIs(tried, bestSolutionCost, bestSolution, size, diameter)
      modifies `bestSolution, `bestSolutionCost, `tried
      ensures useMaxCapLimit ==>
                tried == old(tried) + Tries(Caps(capLimit, capPerUnit, cap, maxInternalDiameter), dist, thetaIndexVector, groupSize, groupSize)
      ensures !useMaxCapLimit ==>
                tried == old(tried) + Tries(Sizes(groupSize, maxInternalDiameter), dist, thetaIndexVector, groupSize, groupSize)
      ensures BestIs(tried, bestSolutionCost, bestSolution,
                     if bestSolutionFound then groupSize else size,
                     if bestSolutionFound then maxInternalDiameter else diameter)
      ensures !bestSolutionFound ==> bestSolution == old(bestSolution) && bestSolutionCost == old(bestSolutionCost)
    {
      var l := LimitsFor(groupSize);
      var v := FirstPass(l, dist, thetaIndexVector, groupSize);
      v := SecondPass(v, l, dist, thetaIndexVector, groupSize);
      var best;
      best, bestSolutionCost := PickBest(v, l, dist, thetaIndexVector, groupSize, bestSolutionCost, tried, bestSolution, size,
                                         diameter);
      tried := tried + Tries(l, dist, thetaIndexVector, groupSize, groupSize);
      bestSolutionFound := best.Some?;
      if bestSolutionFound {
        bestSolution := v.solutions[best.value];
      }
    }

    /** One run with a group size and a diameter, already divided by the span of the points. */
    method Run(groupSize: nat, diameter: real, bestSize: nat, bestDiameter: real)
      returns (bestSize': nat, bestDiameter': real)
      requires groupSize <= |thetaIndexVector| && BestIs(tried, bestSolutionCost, bestSolution, bestSize, bestDiameter)
      modifies `maxInternalDiameter, `bestSolution, `bestSolutionCost, `tried
      ensures maxInternalDiameter == diameter
      ensures useMaxCapLimit ==>
                tried == old(tried) + Tries(Caps(capLimit, capPerUnit, cap, maxInternalDiameter), dist, thetaIndexVector, groupSize, groupSize)
      ensures !useMaxCapLimit ==>
                tried == old(tried) + Tries(Sizes(groupSize, maxInternalDiameter), dist, thetaIndexVector, groupSize, groupSize)
      ensures BestIs(tried, bestSolutionCost, bestSolution, bestSize', bestDiameter')
    {
      maxInternalDiameter := diameter;
      var bestSolutionFound := FindBestMatching(groupSize, bestSize, bestDiameter);
      bestSize', bestDiameter' := bestSize, bestDiameter;
      if bestSolutionFound {
        bestSize', bestDiameter' := groupSize, diameter;
      }
    }
  }
}
