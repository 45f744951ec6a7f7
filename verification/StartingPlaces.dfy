/** The clustering from the first starting place is never tried.  When that matters: whether it can be
    cheaper than all those that are tried. */
module StartingPlaces {
  import opened Branching
  import opened SinkMatching
  import opened SinkClusterings
  import opened CurveSorting
  import LeftEdge

  function Abs(x: real): (r: real)
    ensures r >= 0.0 && (r == x || r == -x)
  {
    if x < 0.0 then -x else x
  }

  function Manhattan(p: Point, q: Point): real {
    Abs(p.x - q.x) + Abs(p.y - q.y)
  }

  /** The distances of points in the plane. */
  function DistOf(points: seq<Point>): Dist {
    (a: nat, b: nat) => if a < |points| && b < |points| then Manhattan(points[a], points[b]) else 0.0
  }

  function FirstTo(n: nat): (s: seq<nat>)
    ensures |s| == n
  {
    seq(n, i => i)
  }

  /** The clustering from place 0 is cheaper than all those that a run tries. */
  ghost predicate FirstIsCheapest(dist: Dist, order: seq<nat>, groupSize: nat, diameter: real)
    requires groupSize <= |order|
  {
    forall j {:trigger TryAt(Sizes(groupSize, diameter), dist, order, groupSize, j)} :: 1 <= j < groupSize ==>
      TryAt(Sizes(groupSize, diameter), dist, order, groupSize, 0).cost
      < TryAt(Sizes(groupSize, diameter), dist, order, groupSize, j).cost
  }

  /** The same for a run on the given points: brought into the unit square, with the diameter, and
      taken in their order along the curve. */
  ghost predicate FirstMissed(points: seq<Point>, m: nat, groupSize: nat, maxDiameter: real)
    requires points != [] && groupSize <= |points| && AllOnGrid(Normalized(points), m)
  {
    var unit := Normalized(points);
    FirstIsCheapest(DistOf(unit), Sorted(unit, m, |unit|), groupSize, maxDiameter / Unit(points))
  }

  // ----- a tight group and far points -----

  /** The first s points lie close together, and all others far from everything. */
  ghost predicate Split(dist: Dist, n: nat, s: nat, diameter: real) {
    && 2 <= s < n && diameter > 0.0
    && (forall a, b :: 0 <= a < s && 0 <= b < s && a != b ==> 0.0 < dist(a, b) < diameter)
    && (forall a, b :: 0 <= a < n && 0 <= b < n && a != b && (a >= s || b >= s) ==> dist(a, b) > diameter)
  }

  /** What the far ones of the first n points of an order cost if each is charged the diameter. */
  function FarCost(order: seq<nat>, s: nat, diameter: real, n: nat): real
    requires n <= |order|
  {
    if n == 0 then 0.0 else FarCost(order, s, diameter, n - 1) + if order[n - 1] >= s then diameter else 0.0
  }

  predicate Different(order: seq<nat>, n: nat) {
    && (forall i :: 0 <= i < |order| ==> order[i] < n)
    && forall i, k :: 0 <= i < k < |order| ==> order[i] != order[k]
  }

  /** The last point placed is in the open cluster, and alone there if it is a far one. */
  ghost predicate JustPlaced(g: Solution, x: nat, s: nat) {
    x in g.open && (x >= s ==> g.open == [x] && g.diameter == 0.0)
  }

  lemma {:induction false} FarCloses(dist: Dist, g: Solution, p: nat, x: nat, groupSize: nat, diameter: real)
    requires p in g.open && dist(x, p) > diameter
    ensures Exceeds(Sizes(groupSize, diameter), dist, g.open, x)
  {
    FarthestIsMax(dist, g.open, |g.open|, x);
  }

  lemma {:induction false} PlaceNext(dist: Dist, g: Solution, p: nat, x: nat, s: nat, groupSize: nat, diameter: real)
    requires diameter > 0.0 && g.diameter >= 0.0 && JustPlaced(g, p, s) && (p >= s || x >= s ==> dist(x, p) > diameter)
    ensures var h := Place(Sizes(groupSize, diameter), dist, g, x);
            JustPlaced(h, x, s) && h.cost >= g.cost + if p >= s then diameter else 0.0
  {
    var h := Place(Sizes(groupSize, diameter), dist, g, x);
    if p >= s || x >= s { FarCloses(dist, g, p, x, groupSize, diameter); }
    assert h.open[|h.open| - 1] == x;
  }

  /** Every far point but the last point is a cluster of its own that is closed and charged. */
  lemma {:induction false} FarPointsCost(dist: Dist, n: nat, s: nat, groupSize: nat, diameter: real, order: seq<nat>, k: nat)
    requires Split(dist, n, s, diameter) && Different(order, n) && 0 < k <= |order|
    ensures var g := Greedy(Sizes(groupSize, diameter), dist, order, k);
            JustPlaced(g, order[k - 1], s) && g.cost >= FarCost(order, s, diameter, k - 1)
  {
    var l := Sizes(groupSize, diameter);
    if k == 1 {
      FirstPlaced(l, dist, order);
    } else {
      FarPointsCost(dist, n, s, groupSize, diameter, order, k - 1);
      GreedyCost(l, dist, order, k - 1);
      PlaceNext(dist, Greedy(l, dist, order, k - 1), order[k - 2], order[k - 1], s, groupSize, diameter);
    }
  }

  lemma {:induction false} FirstPlaced(l: Limits, dist: Dist, order: seq<nat>)
    requires l.Sizes? && l.diameter > 0.0 && order != []
    ensures var g := Greedy(l, dist, order, 1); g.open == [order[0]] && g.diameter == 0.0 && g.cost >= 0.0
  {
    assert Greedy(l, dist, order, 0) == Solution([], [], 0.0, 0.0);
    assert [] + [order[0]] == [order[0]];
  }

  // ----- in the given order -----

  /** A point of the tight group joins those before it. */
  lemma {:induction false} TightStep(dist: Dist, n: nat, s: nat, groupSize: nat, diameter: real, k: nat, g: Solution)
    requires Split(dist, n, s, diameter) && 0 < k < s <= groupSize && g.open == FirstTo(k) && 0.0 <= g.diameter < diameter
    ensures var h := Place(Sizes(groupSize, diameter), dist, g, k);
            h.closed == g.closed && h.open == FirstTo(k + 1) && h.cost == g.cost && 0.0 < h.diameter < diameter
  {
    FarthestIsMax(dist, g.open, k, k);
    assert g.open[0] == 0;
    assert FirstTo(k) + [k] == FirstTo(k + 1);
  }

  /** The tight group is one cluster, if it is not larger than the group size. */
  lemma {:induction false} TightGroup(dist: Dist, n: nat, s: nat, groupSize: nat, diameter: real, k: nat)
    requires Split(dist, n, s, diameter) && 0 < k <= s <= groupSize
    ensures var g := Greedy(Sizes(groupSize, diameter), dist, FirstTo(n), k);
            g.closed == [] && g.open == FirstTo(k) && g.cost == 0.0 && 0.0 <= g.diameter < diameter && (k > 1 ==> g.diameter > 0.0)
  {
    var l, order := Sizes(groupSize, diameter), FirstTo(n);
    if k > 1 {
      TightGroup(dist, n, s, groupSize, diameter, k - 1);
      TightStep(dist, n, s, groupSize, diameter, k - 1, Greedy(l, dist, order, k - 1));
    } else {
      assert Greedy(l, dist, order, 0) == Solution([], [], 0.0, 0.0);
    }
  }

  /** The first far point closes the group, and from then on each point closes the one before. */
  lemma {:induction false} InOrderCost(dist: Dist, n: nat, s: nat, groupSize: nat, diameter: real, k: nat)
    requires Split(dist, n, s, diameter) && s <= groupSize && s < k <= n
    ensures var g := Greedy(Sizes(groupSize, diameter), dist, FirstTo(n), k);
            g.open == [k - 1] && g.diameter == 0.0 && g.cost < FarCost(FirstTo(n), s, diameter, k - 1) + diameter
  {
    var l, order := Sizes(groupSize, diameter), FirstTo(n);
    var g := Greedy(l, dist, order, k - 1);
    if k == s + 1 {
      TightGroup(dist, n, s, groupSize, diameter, s);
      NoneFar(n, s, diameter, s);
      assert g.open[0] == 0;
      FarCloses(dist, g, 0, s, groupSize, diameter);
    } else {
      InOrderCost(dist, n, s, groupSize, diameter, k - 1);
      FarCloses(dist, g, k - 2, k - 1, groupSize, diameter);
    }
  }

  lemma {:induction false} NoneFar(n: nat, s: nat, diameter: real, k: nat)
    requires k <= s <= n
    ensures FarCost(FirstTo(n), s, diameter, k) == 0.0
  {
    if k > 0 { NoneFar(n, s, diameter, k - 1); }
  }

  // ----- turned -----

  lemma {:induction false} FarCostPrefix(a: seq<nat>, b: seq<nat>, s: nat, diameter: real, n: nat)
    requires n <= |a| && a <= b
    ensures FarCost(a, s, diameter, n) == FarCost(b, s, diameter, n)
  {
    if n > 0 { FarCostPrefix(a, b, s, diameter, n - 1); }
  }

  lemma {:induction false} FarCostJoin(a: seq<nat>, b: seq<nat>, s: nat, diameter: real, n: nat)
    requires n <= |b|
    ensures FarCost(a + b, s, diameter, |a| + n) == FarCost(a, s, diameter, |a|) + FarCost(b, s, diameter, n)
  {
    if n > 0 { FarCostJoin(a, b, s, diameter, n - 1); } else { FarCostPrefix(a, a + b, s, diameter, |a|); }
  }

  /** Turning an order changes nothing about what its far points cost. */
  lemma {:induction false} TurnedCost(n: nat, s: nat, diameter: real, j: nat)
    requires j <= n
    ensures FarCost(From(FirstTo(n), j), s, diameter, n) == FarCost(FirstTo(n), s, diameter, n)
  {
    var a, b := FirstTo(n)[..j], FirstTo(n)[j..];
    assert a + b == FirstTo(n);
    FarCostJoin(a, b, s, diameter, |b|);
    FarCostJoin(b, a, s, diameter, |a|);
  }

  /** With such a group and far points, every place from 1 to s costs more than place 0. */
  lemma {:induction false} FirstCheaper(dist: Dist, n: nat, s: nat, groupSize: nat, diameter: real, j: nat)
    requires Split(dist, n, s, diameter) && s <= groupSize && 1 <= j <= s
    ensures TryAt(Sizes(groupSize, diameter), dist, FirstTo(n), groupSize, 0).cost
            < TryAt(Sizes(groupSize, diameter), dist, FirstTo(n), groupSize, j).cost
  {
    var order := From(FirstTo(n), j);
    assert From(FirstTo(n), 0) == FirstTo(n);
    assert order[n - 1] == j - 1;
    InOrderCost(dist, n, s, groupSize, diameter, n);
    FarPointsCost(dist, n, s, groupSize, diameter, order, n);
    TurnedCost(n, s, diameter, j);
  }

  // ----- points that lie like this -----

  /** How high point i of n lies on the left edge: each point but the first two at four times the
      height of the one before, and the last one at the top. */
  function Height(n: nat, i: nat): (y: real)
    requires i < n
    ensures 0.0 <= y <= 1.0 && (i > 0 ==> y > 0.0) && (0 < i == n - 1 ==> y == 1.0)
  {
    if i == 0 then 0.0 else LeftEdge.Part(2 * (n - 1 - i))
  }

  function Heights(n: nat): (unit: seq<Point>)
    ensures |unit| == n
  {
    seq(n, i requires 0 <= i < n => Point(0.0, Height(n, i)))
  }

  lemma {:induction false} HeightNext(n: nat, i: nat)
    requires 0 < i < i + 1 < n
    ensures Height(n, i + 1) == 4.0 * Height(n, i)
  {
    var k := 2 * (n - 2 - i);
    assert LeftEdge.Part(k + 2) == LeftEdge.Part(k + 1) / 2.0 && LeftEdge.Part(k + 1) == LeftEdge.Part(k) / 2.0;
  }

  /** Every point is at least four times as high as those before it. */
  lemma {:induction false} HeightRises(n: nat, a: nat, b: nat)
    requires a < b < n
    ensures Height(n, b) >= 4.0 * Height(n, a) && Height(n, b) > 0.0
  {
    if a > 0 {
      HeightNext(n, b - 1);
      if a < b - 1 { HeightRises(n, a, b - 1); }
    }
  }

  /** Twice the height of the highest point of the tight group. */
  function Wide(n: nat, s: nat): real
    requires 2 <= s < n
  {
    2.0 * Height(n, s - 1)
  }

  lemma {:induction false} HeightsApart(n: nat, s: nat, a: nat, b: nat)
    requires 2 <= s < n && a < b < n
    ensures var d := Height(n, b) - Height(n, a); if b < s then 0.0 < d < Wide(n, s) else d > Wide(n, s)
  {
    HeightRises(n, a, b);
    if b < s - 1 { HeightRises(n, b, s - 1); }
    if b > s - 1 {
      HeightRises(n, s - 1, b);
    }
  }

  lemma {:induction false} HeightsPair(n: nat, s: nat, a: nat, b: nat)
    requires 2 <= s < n && a < n && b < n && a != b
    ensures var d := Manhattan(Heights(n)[a], Heights(n)[b]);
            if a < s && b < s then 0.0 < d < Wide(n, s) else d > Wide(n, s)
  {
    if a < b { HeightsApart(n, s, a, b); } else { HeightsApart(n, s, b, a); }
  }

  lemma {:induction false} HeightsSplit(n: nat, s: nat)
    requires 2 <= s < n
    ensures Split(DistOf(Heights(n)), n, s, Wide(n, s))
  {
    var dist := DistOf(Heights(n));
    HeightRises(n, 0, s - 1);
    forall a: nat, b: nat | a < n && b < n && a != b
      ensures if a < s && b < s then 0.0 < dist(a, b) < Wide(n, s) else dist(a, b) > Wide(n, s)
    {
      HeightsPair(n, s, a, b);
    }
  }

  // ----- their order along the curve -----

  lemma {:induction false} HeightOnGrid(n: nat, i: nat)
    requires i < n
    ensures OnGrid(Point(0.0, Height(n, i)), 2 * n)
  {
    LeftEdge.PartOnGrid(0, 2 * n);
    if i > 0 { LeftEdge.PartOnGrid(2 * (n - 1 - i), 2 * n); }
  }

  lemma {:induction false} HeightsOnGrid(n: nat)
    ensures AllOnGrid(Heights(n), 2 * n)
  {
    forall i | 0 <= i < n ensures OnGrid(Heights(n)[i], 2 * n) {
      HeightOnGrid(n, i);
    }
  }

  lemma {:induction false} HeightTheta(n: nat, a: nat, b: nat)
    requires a < b < n && AllOnGrid(Heights(n), 2 * n)
    ensures Theta(Heights(n)[a], 2 * n) <= Theta(Heights(n)[b], 2 * n)
  {
    var j := 2 * (n - 1 - b);
    LeftEdge.LeftTheta(j, 2 * n);
    if a == 0 {
      LeftEdge.OriginTheta(2 * n);
    } else {
      LeftEdge.LeftTheta(2 * (n - 1 - a), 2 * n);
      LeftEdge.LeftFalls(j, 2 * (n - 1 - a));
    }
  }

  /** They are in order. */
  lemma {:induction false} HeightsInOrder(n: nat)
    requires AllOnGrid(Heights(n), 2 * n)
    ensures Sorted(Heights(n), 2 * n, n) == FirstTo(n)
  {
    var unit, order := Heights(n), FirstTo(n);
    forall i: nat, k: nat | i < k < n ensures Before(unit, 2 * n, order[i], order[k]) {
      HeightTheta(n, i, k);
    }
    forall i | 0 <= i < n ensures i in order {
      assert order[i] == i;
    }
    SortedAlongCurve(unit, 2 * n);
    OneOrder(unit, 2 * n, Sorted(unit, 2 * n, n), order);
  }

  /** The points on a line of the given length. */
  function Stretched(n: nat, length: real): (points: seq<Point>)
    ensures |points| == n
  {
    seq(n, i requires 0 <= i < n => Point(0.0, Height(n, i) * length))
  }

  lemma {:induction false} Product(a: real, b: real)
    requires 0.0 <= a <= 1.0 && b > 0.0
    ensures 0.0 <= a * b <= b && a * b / b == a
  {
    assert (1.0 - a) * b >= 0.0;
    var q := a * b / b;
    assert q * b == a * b;
    assert (q - a) * b == 0.0;
  }

  lemma {:induction false} NoWidth(n: nat, length: real)
    requires n > 0
    ensures Span(Xs(Stretched(n, length))) == 0.0
  {
    ExtremesAre(Xs(Stretched(n, length)), n);
  }

  lemma {:induction false} StretchedAt(n: nat, length: real, i: nat)
    requires i < n && length > 0.0
    ensures var y := Ys(Stretched(n, length))[i]; 0.0 <= y <= length && y / length == Height(n, i)
    ensures i == 0 ==> Ys(Stretched(n, length))[i] == 0.0
    ensures 0 < i == n - 1 ==> Ys(Stretched(n, length))[i] == length
  {
    Product(Height(n, i), length);
  }

  lemma {:induction false} SpanFromZero(s: seq<real>, length: real)
    requires |s| >= 2 && s[0] == 0.0 && s[|s| - 1] == length && forall i :: 0 <= i < |s| ==> 0.0 <= s[i] <= length
    ensures Least(s, |s|) == 0.0 && Span(s) == length
  {
    ExtremesAre(s, |s|);
  }

  lemma {:induction false} FullHeight(n: nat, length: real)
    requires n >= 2 && length > 0.0
    ensures var ys := Ys(Stretched(n, length)); Least(ys, n) == 0.0 && Span(ys) == length
  {
    forall i | 0 <= i < n ensures 0.0 <= Ys(Stretched(n, length))[i] <= length {
      StretchedAt(n, length, i);
    }
    StretchedAt(n, length, 0);
    StretchedAt(n, length, n - 1);
    SpanFromZero(Ys(Stretched(n, length)), length);
  }

  /** Brought into the unit square, they lie on its left edge. */
  lemma {:induction false} StretchedNormalized(n: nat, length: real)
    requires n >= 2 && length > 0.0
    ensures Normalized(Stretched(n, length)) == Heights(n) && Unit(Stretched(n, length)) == length
  {
    NoWidth(n, length);
    FullHeight(n, length);
    forall i | 0 <= i < n ensures Normalized(Stretched(n, length))[i] == Heights(n)[i] {
      StretchedAt(n, length, i);
    }
  }

  // ----- two points -----

  lemma {:induction false} TwoPlaced(l: Limits, dist: Dist, x: nat, y: nat)
    requires l.Sizes? && l.diameter > 0.0 && l.groupSize >= 2
    ensures Greedy(l, dist, [x, y], 2).cost == if dist(y, x) > l.diameter then l.diameter else 0.0
  {
    FirstPlaced(l, dist, [x, y]);
    var g := Greedy(l, dist, [x, y], 1);
    assert g == Solution([], [x], 0.0, 0.0);
    assert Farthest(dist, [x], 0, y) == 0.0;
  }

  lemma {:induction false} TwoAreEqual(dist: Dist, order: seq<nat>, diameter: real)
    requires |order| == 2 && diameter > 0.0 && dist(order[0], order[1]) == dist(order[1], order[0])
    ensures TryAt(Sizes(2, diameter), dist, order, 2, 0).cost == TryAt(Sizes(2, diameter), dist, order, 2, 1).cost
  {
    assert From(order, 0) == [order[0], order[1]] && From(order, 1) == [order[1], order[0]];
    TwoPlaced(Sizes(2, diameter), dist, order[0], order[1]);
    TwoPlaced(Sizes(2, diameter), dist, order[1], order[0]);
  }

  // ----- when it matters -----

  /** All points are within the diameter of each other and no more than the group size. */
  ghost predicate OneCluster(dist: Dist, order: seq<nat>, groupSize: nat, diameter: real) {
    && |order| <= groupSize
    && forall a, b :: 0 <= a < |order| && 0 <= b < |order| && a != b ==> dist(order[a], order[b]) <= diameter
  }

  /** The cost does not fall, and is above 0 as soon as a cluster is closed. */
  lemma {:induction false} CostRises(dist: Dist, order: seq<nat>, k: nat, groupSize: nat, diameter: real)
    requires k <= |order| && diameter > 0.0
    ensures var g := Greedy(Sizes(groupSize, diameter), dist, order, k);
            g.diameter >= 0.0 && g.cost >= 0.0 && (g.closed == [] <==> g.cost == 0.0)
  {
    if k > 0 { CostRises(dist, order, k - 1, groupSize, diameter); }
  }

  lemma {:induction false} OpenSoFar(dist: Dist, order: seq<nat>, k: nat, groupSize: nat, diameter: real)
    requires k <= |order| && OneCluster(dist, order, groupSize, diameter) && diameter > 0.0
    ensures var g := Greedy(Sizes(groupSize, diameter), dist, order, k); g.closed == [] && g.open == order[..k]
  {
    if k > 0 {
      OpenSoFar(dist, order, k - 1, groupSize, diameter);
      FarthestIsMax(dist, order[..k - 1], k - 1, order[k - 1]);
      assert order[..k] == order[..k - 1] + [order[k - 1]];
    }
  }

  ghost predicate Symmetric(dist: Dist) {
    forall a, b :: dist(a, b) == dist(b, a)
  }

  lemma {:induction false} FitsTogether(dist: Dist, order: seq<nat>, groupSize: nat, diameter: real)
    requires Fits(dist, order, groupSize, diameter) && Symmetric(dist)
    ensures OneCluster(dist, order, groupSize, diameter)
  {
    forall a, b | 0 <= a < |order| && 0 <= b < |order| && a != b ensures dist(order[a], order[b]) <= diameter {
      assert dist(order[a], order[b]) == dist(order[b], order[a]);
    }
  }

  lemma {:induction false} FreeFits(dist: Dist, order: seq<nat>, groupSize: nat, diameter: real)
    requires order != [] && groupSize > 0 && diameter > 0.0 && Symmetric(dist)
    requires Greedy(Sizes(groupSize, diameter), dist, order, |order|).closed == []
    ensures OneCluster(dist, order, groupSize, diameter)
  {
    var g := Greedy(Sizes(groupSize, diameter), dist, order, |order|);
    GreedySplits(Sizes(groupSize, diameter), dist, order, |order|);
    GreedyFits(dist, order, |order|, groupSize, diameter);
    assert Flat(g.closed, 0) == [] && order[..|order|] == order;
    assert g.open == order && g.Clusters()[0] == order;
    FitsTogether(dist, order, groupSize, diameter);
  }

  /** A clustering costs nothing exactly if all points are one cluster. */
  lemma {:induction false} FreeIff(dist: Dist, order: seq<nat>, groupSize: nat, diameter: real)
    requires order != [] && groupSize > 0 && diameter > 0.0 && Symmetric(dist)
    ensures Greedy(Sizes(groupSize, diameter), dist, order, |order|).cost == 0.0
            <==> OneCluster(dist, order, groupSize, diameter)
  {
    CostRises(dist, order, |order|, groupSize, diameter);
    if OneCluster(dist, order, groupSize, diameter) {
      OpenSoFar(dist, order, |order|, groupSize, diameter);
    } else if Greedy(Sizes(groupSize, diameter), dist, order, |order|).closed == [] {
      FreeFits(dist, order, groupSize, diameter);
    }
  }

  lemma {:induction false} TurnedOneCluster(dist: Dist, order: seq<nat>, groupSize: nat, diameter: real, j: nat)
    requires j <= |order|
    ensures OneCluster(dist, order, groupSize, diameter) <==> OneCluster(dist, From(order, j), groupSize, diameter)
  {
    var turned, n := From(order, j), |order|;
    if OneCluster(dist, turned, groupSize, diameter) {
      forall a, b | 0 <= a < n && 0 <= b < n && a != b ensures dist(order[a], order[b]) <= diameter {
        var a', b' := if a < j then a + n - j else a - j, if b < j then b + n - j else b - j;
        assert turned[a'] == order[a] && turned[b'] == order[b];
      }
    }
  }

  /** The clustering from any place costs nothing exactly if all points are one cluster: then, and
      with no other points, the first place is as cheap as can be, and so is every place tried. */
  lemma {:induction false} FreeFromAnyPlace(dist: Dist, theta: seq<nat>, groupSize: nat, diameter: real, j: nat)
    requires j < |theta| && groupSize > 0 && diameter > 0.0 && Symmetric(dist)
    ensures TryAt(Sizes(groupSize, diameter), dist, theta, groupSize, j).cost == 0.0
            <==> OneCluster(dist, theta, groupSize, diameter)
  {
    FreeIff(dist, From(theta, j), groupSize, diameter);
    TurnedOneCluster(dist, theta, groupSize, diameter, j);
  }

  lemma {:induction false} CheapestOnEdge(n: nat, groupSize: nat, s: nat)
    requires 2 <= s < n && s <= groupSize <= n && groupSize <= s + 1
    ensures FirstIsCheapest(DistOf(Heights(n)), FirstTo(n), groupSize, Wide(n, s))
  {
    HeightsSplit(n, s);
    forall j | 1 <= j < groupSize
      ensures TryAt(Sizes(groupSize, Wide(n, s)), DistOf(Heights(n)), FirstTo(n), groupSize, 0).cost
              < TryAt(Sizes(groupSize, Wide(n, s)), DistOf(Heights(n)), FirstTo(n), groupSize, j).cost
    {
      FirstCheaper(DistOf(Heights(n)), n, s, groupSize, Wide(n, s), j);
    }
  }

  lemma {:induction false} LengthFor(wide: real, maxDiameter: real) returns (length: real)
    requires wide > 0.0 && maxDiameter > 0.0
    ensures length > 0.0 && maxDiameter / length == wide
  {
    length := maxDiameter / wide;
    assert length * wide == maxDiameter;
  }

  /** Three points or more can lie such that the clustering that is never tried is the cheapest: for
      every number of points, group size and diameter there are such points. */
  lemma {:induction false} FirstIsMissed(n: nat, groupSize: nat, maxDiameter: real) returns (points: seq<Point>, m: nat)
    requires 2 <= groupSize <= n && n >= 3 && maxDiameter > 0.0
    ensures |points| == n && AllOnGrid(Normalized(points), m) && FirstMissed(points, m, groupSize, maxDiameter)
  {
    var s := if groupSize < n then groupSize else n - 1;
    HeightsSplit(n, s);
    var length := LengthFor(Wide(n, s), maxDiameter);
    points, m := Stretched(n, length), 2 * n;
    StretchedNormalized(n, length);
    HeightsOnGrid(n);
    HeightsInOrder(n);
    CheapestOnEdge(n, groupSize, s);
    MissedIf(points, Heights(n), m, FirstTo(n), groupSize, maxDiameter, Wide(n, s));
  }

  lemma {:induction false} MissedIf(points: seq<Point>, unit: seq<Point>, m: nat, order: seq<nat>, groupSize: nat,
                                    maxDiameter: real, diameter: real)
    requires points != [] && groupSize <= |points| == |order| && Normalized(points) == unit && AllOnGrid(unit, m)
    requires order == Sorted(unit, m, |unit|) && maxDiameter / Unit(points) == diameter
    requires FirstIsCheapest(DistOf(unit), order, groupSize, diameter)
    ensures FirstMissed(points, m, groupSize, maxDiameter)
  {
  }

  /** Two points cost the same from either place. */
  lemma {:induction false} TwoNeverMissed(points: seq<Point>, m: nat, maxDiameter: real)
    requires |points| == 2 && AllOnGrid(Normalized(points), m) && maxDiameter > 0.0
    ensures !FirstMissed(points, m, 2, maxDiameter)
  {
    var unit := Normalized(points);
    InSquare(Xs(points));
    InSquare(Ys(points));
    Positive(maxDiameter, Unit(points));
    TwoAreEqual(DistOf(unit), Sorted(unit, m, 2), maxDiameter / Unit(points));
  }

  lemma {:induction false} Positive(a: real, b: real)
    requires a > 0.0 && b > 0.0
    ensures a / b > 0.0
  {
  }

  /** The clustering that is never tried can be cheaper than all that are tried exactly if there are
      at least three points. */
  lemma {:induction false} FirstIsMissedIff(n: nat, groupSize: nat, maxDiameter: real)
    requires 2 <= groupSize <= n && maxDiameter > 0.0
    ensures (exists points, m :: |points| == n && AllOnGrid(Normalized(points), m) && FirstMissed(points, m, groupSize, maxDiameter))
            <==> n >= 3
  {
    if n >= 3 {
      var points, m := FirstIsMissed(n, groupSize, maxDiameter);
    } else {
      forall points, m: nat | |points| == n && AllOnGrid(Normalized(points), m)
        ensures !FirstMissed(points, m, groupSize, maxDiameter)
      {
        TwoNeverMissed(points, m, maxDiameter);
      }
    }
  }
}
