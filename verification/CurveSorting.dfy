/** The order in which the sinks are clustered: their points are brought into the unit square and
    sorted along the curve. */
module CurveSorting {
  import opened Branching
  import opened CurveOrder

  // ----- into the unit square -----

  function Xs(points: seq<Point>): (xs: seq<real>)
    ensures |xs| == |points|
  {
    seq(|points|, i requires 0 <= i < |points| => points[i].x)
  }

  function Ys(points: seq<Point>): (ys: seq<real>)
    ensures |ys| == |points|
  {
    seq(|points|, i requires 0 <= i < |points| => points[i].y)
  }

  /** The least and the greatest of the first n numbers. */
  function Least(s: seq<real>, n: nat): real
    requires 0 < n <= |s|
  {
    if n == 1 || s[n - 1] < Least(s, n - 1) then s[n - 1] else Least(s, n - 1)
  }

  function Greatest(s: seq<real>, n: nat): real
    requires 0 < n <= |s|
  {
    if n == 1 || s[n - 1] > Greatest(s, n - 1) then s[n - 1] else Greatest(s, n - 1)
  }

  lemma {:induction false} ExtremesAre(s: seq<real>, n: nat)
    requires 0 < n <= |s|
    ensures forall i :: 0 <= i < n ==> Least(s, n) <= s[i] <= Greatest(s, n)
    ensures Least(s, n) in s && Greatest(s, n) in s
  {
    if n > 1 { ExtremesAre(s, n - 1); }
  }

  function Span(s: seq<real>): real
    requires s != []
  {
    Greatest(s, |s|) - Least(s, |s|)
  }

  /** A coordinate within its span, and 0 if there is no span. */
  function Within(s: seq<real>, i: nat): real
    requires i < |s|
  {
    if Span(s) != 0.0 then (s[i] - Least(s, |s|)) / Span(s) else 0.0
  }

  function Normalized(points: seq<Point>): (unit: seq<Point>)
    ensures |unit| == |points|
  {
    seq(|points|, i requires 0 <= i < |points| => Point(Within(Xs(points), i), Within(Ys(points), i)))
  }

  /** What distances are divided by: the smaller span, the only one there is, or 1. */
  function Unit(points: seq<Point>): real
    requires points != []
  {
    var x, y := Span(Xs(points)), Span(Ys(points));
    if x == 0.0 && y == 0.0 then 1.0
    else if x == 0.0 then y
    else if y == 0.0 then x
    else if y < x then y else x
  }

  /** It is positive; with any span it is one, and there is no smaller one. */
  lemma {:induction false} UnitIs(points: seq<Point>)
    requires points != []
    ensures var x, y, unit := Span(Xs(points)), Span(Ys(points)), Unit(points);
            && unit > 0.0 && (x > 0.0 ==> unit <= x) && (y > 0.0 ==> unit <= y)
            && (if x > 0.0 || y > 0.0 then unit == x || unit == y else unit == 1.0)
  {
    ExtremesAre(Xs(points), |points|);
    ExtremesAre(Ys(points), |points|);
  }

  /** All points come to lie in the unit square, touching all sides of it that there is a span for. */
  lemma {:induction false} InSquare(s: seq<real>)
    requires s != []
    ensures forall i :: 0 <= i < |s| ==> 0.0 <= Within(s, i) <= 1.0
    ensures Span(s) >= 0.0
    ensures Span(s) != 0.0 ==>
              (exists i :: 0 <= i < |s| && Within(s, i) == 0.0) && (exists i :: 0 <= i < |s| && Within(s, i) == 1.0)
  {
    ExtremesAre(s, |s|);
    var low :| 0 <= low < |s| && s[low] == Least(s, |s|);
    var high :| 0 <= high < |s| && s[high] == Greatest(s, |s|);
    if Span(s) != 0.0 {
      Quotients(Span(s));
      assert Within(s, low) == 0.0 && Within(s, high) == 1.0;
      forall i | 0 <= i < |s| ensures 0.0 <= Within(s, i) <= 1.0 {
        PartOf(s[i] - Least(s, |s|), Span(s));
      }
    }
  }

  lemma {:induction false} Quotients(b: real)
    requires b != 0.0
    ensures 0.0 / b == 0.0 && b / b == 1.0
  {
  }

  lemma {:induction false} PartOf(a: real, b: real)
    requires 0.0 <= a <= b && b > 0.0
    ensures 0.0 <= a / b <= 1.0
  {
  }

  /** Bring all points into the unit square, and the diameter with them. */
  method NormalizePoints(points: seq<Point>, maxDiameter: real) returns (unit: seq<Point>, diameter: real)
    requires points != []
    ensures unit == Normalized(points) && diameter == maxDiameter / Unit(points)
  {
    var xMax, xMin, yMax, yMin := points[0].x, points[0].x, points[0].y, points[0].y;
    for i := 1 to |points|
      invariant xMax == Greatest(Xs(points), i) && xMin == Least(Xs(points), i)
      invariant yMax == Greatest(Ys(points), i) && yMin == Least(Ys(points), i)
    {
      var p := points[i];
      if p.x > xMax { xMax := p.x; }
      if p.x < xMin { xMin := p.x; }
      if p.y > yMax { yMax := p.y; }
      if p.y < yMin { yMin := p.y; }
    }
    var xSpan, ySpan := xMax - xMin, yMax - yMin;
    InSquare(Xs(points));
    InSquare(Ys(points));
    unit := [];
    for i := 0 to |points|
      invariant |unit| == i && forall k :: 0 <= k < i ==> unit[k] == Normalized(points)[k]
    {
      var p := points[i];
      assert Normalized(points)[i] == Point(Within(Xs(points), i), Within(Ys(points), i));
      unit := unit + [Point(if xSpan != 0.0 then (p.x - xMin) / xSpan else 0.0, if ySpan != 0.0 then (p.y - yMin) / ySpan else 0.0)];
    }
    var span := if xSpan == 0.0 && ySpan == 0.0 then 1.0
                else if xSpan == 0.0 then ySpan
                else if ySpan == 0.0 then xSpan
                else if ySpan < xSpan then ySpan else xSpan;
    diameter := maxDiameter / span;
  }

  // ----- along the curve -----

  /** Both coordinates are multiples of 1/2^m. */
  ghost predicate OnGrid(p: Point, m: nat) {
    Dyadic(p.x, m) && Dyadic(p.y, m)
  }

  ghost predicate AllOnGrid(unit: seq<Point>, m: nat) {
    forall i :: 0 <= i < |unit| ==> OnGrid(unit[i], m)
  }

  function Theta(p: Point, ghost m: nat): (t: real)
    requires OnGrid(p, m)
    ensures 0.0 <= t < 1.0
  {
    ComputeTheta(p.x, p.y, m)
  }

  /** The position does not depend on how fine a grid is taken. */
  lemma {:induction false} AnyGrid(x: real, y: real, m: nat, m': nat)
    requires Dyadic(x, m) && Dyadic(y, m) && Dyadic(x, m') && Dyadic(y, m')
    ensures ComputeTheta(x, y, m) == ComputeTheta(x, y, m')
    decreases StepsLeft(x, y, m)
  {
    if !(IsOne(x) && IsOne(y)) {
      OneIsOne(x, y);
      ThetaFolds(x, y, m);
      ThetaFolds(x, y, m');
      FoldDyadic(x, m);
      FoldDyadic(y, m);
      AnyGrid(Fold(x), Fold(y), Coarser(m), Coarser(m'));
    }
  }

  /** Points are compared by their positions along the curve, and by their indices if these are equal. */
  predicate Before(unit: seq<Point>, ghost m: nat, i: nat, k: nat)
    requires AllOnGrid(unit, m) && i < |unit| && k < |unit|
  {
    var a, b := Theta(unit[i], m), Theta(unit[k], m);
    a < b || (a == b && i < k)
  }

  ghost predicate Indices(order: seq<nat>, n: nat) {
    forall i :: 0 <= i < |order| ==> order[i] < n
  }

  ghost predicate Rising(unit: seq<Point>, m: nat, order: seq<nat>)
    requires AllOnGrid(unit, m) && Indices(order, |unit|)
  {
    forall i, k :: 0 <= i < k < |order| ==> Before(unit, m, order[i], order[k])
  }

  /** The order along the curve: every index once, by position. */
  ghost predicate AlongCurve(unit: seq<Point>, m: nat, order: seq<nat>)
    requires AllOnGrid(unit, m)
  {
    && |order| == |unit| && Indices(order, |unit|) && Rising(unit, m, order)
    && forall i :: 0 <= i < |unit| ==> i in order
  }

  lemma {:induction false} SamePrefix(unit: seq<Point>, m: nat, a: seq<nat>, b: seq<nat>, k: nat)
    requires AllOnGrid(unit, m) && AlongCurve(unit, m, a) && AlongCurve(unit, m, b) && k <= |unit|
    ensures a[..k] == b[..k]
  {
    if k > 0 {
      SamePrefix(unit, m, a, b, k - 1);
      NotEarlier(unit, m, a, b, k - 1);
      NotEarlier(unit, m, b, a, k - 1);
      assert a[..k] == a[..k - 1] + [a[k - 1]] && b[..k] == b[..k - 1] + [b[k - 1]];
    }
  }

  lemma {:induction false} NotEarlier(unit: seq<Point>, m: nat, a: seq<nat>, b: seq<nat>, k: nat)
    requires AllOnGrid(unit, m) && AlongCurve(unit, m, a) && AlongCurve(unit, m, b) && k < |unit| && a[..k] == b[..k]
    ensures a[k] == b[k] || Before(unit, m, b[k], a[k])
  {
    assert a[k] in b;
    var p :| 0 <= p < |b| && b[p] == a[k];
    assert forall q :: 0 <= q < k ==> a[q] == a[..k][q] == b[..k][q] == b[q];
    assert forall q :: 0 <= q < k ==> Before(unit, m, a[q], a[k]);
  }

  /** There is only one order along the curve. */
  lemma {:induction false} OneOrder(unit: seq<Point>, m: nat, a: seq<nat>, b: seq<nat>)
    requires AllOnGrid(unit, m) && AlongCurve(unit, m, a) && AlongCurve(unit, m, b)
    ensures a == b
  {
    SamePrefix(unit, m, a, b, |unit|);
    assert a == a[..|unit|] && b == b[..|unit|];
  }

  function Inserted(unit: seq<Point>, ghost m: nat, order: seq<nat>, x: nat): (r: seq<nat>)
    requires AllOnGrid(unit, m) && Indices(order, |unit|) && x < |unit|
    ensures |r| == |order| + 1 && Indices(r, |unit|) && multiset(r) == multiset(order) + multiset{x}
  {
    if order == [] || Before(unit, m, order[|order| - 1], x) then order + [x]
    else
      assert order == order[..|order| - 1] + [order[|order| - 1]];
      Inserted(unit, m, order[..|order| - 1], x) + [order[|order| - 1]]
  }

  lemma {:induction false} InsertedRises(unit: seq<Point>, m: nat, order: seq<nat>, x: nat)
    requires AllOnGrid(unit, m) && Indices(order, |unit|) && x < |unit| && Rising(unit, m, order) && x !in order
    ensures Rising(unit, m, Inserted(unit, m, order, x))
  {
    if order != [] && !Before(unit, m, order[|order| - 1], x) {
      var p, last, r := order[..|order| - 1], order[|order| - 1], Inserted(unit, m, order[..|order| - 1], x);
      InsertedRises(unit, m, p, x);
      forall i | 0 <= i < |r| ensures Before(unit, m, r[i], last) {
        InsertedIn(unit, m, p, x, i);
      }
    }
  }

  lemma {:induction false} InsertedIn(unit: seq<Point>, m: nat, order: seq<nat>, x: nat, i: nat)
    requires AllOnGrid(unit, m) && Indices(order, |unit|) && x < |unit| && i <= |order|
    ensures var r := Inserted(unit, m, order, x); r[i] == x || r[i] in order
  {
    var r := Inserted(unit, m, order, x);
    assert r[i] in multiset(r);
    assert r[i] in multiset(order) || r[i] == x;
  }

  ghost predicate HoldsTo(order: seq<nat>, n: nat) {
    forall x :: x in order <==> 0 <= x < n
  }

  lemma {:induction false} InsertedHolds(unit: seq<Point>, m: nat, order: seq<nat>, x: nat)
    requires AllOnGrid(unit, m) && Indices(order, |unit|) && x < |unit| && HoldsTo(order, x)
    ensures HoldsTo(Inserted(unit, m, order, x), x + 1)
  {
    var r := Inserted(unit, m, order, x);
    assert forall y :: y in r <==> y in multiset(r);
    assert forall y :: y in order <==> y in multiset(order);
  }

  /** The first n points, sorted. */
  function Sorted(unit: seq<Point>, ghost m: nat, n: nat): (order: seq<nat>)
    requires AllOnGrid(unit, m) && n <= |unit|
    ensures |order| == n && Indices(order, |unit|)
  {
    if n == 0 then [] else Inserted(unit, m, Sorted(unit, m, n - 1), n - 1)
  }

  lemma {:induction false} SortedHolds(unit: seq<Point>, m: nat, n: nat)
    requires AllOnGrid(unit, m) && n <= |unit|
    ensures HoldsTo(Sorted(unit, m, n), n)
  {
    if n > 0 {
      SortedHolds(unit, m, n - 1);
      InsertedHolds(unit, m, Sorted(unit, m, n - 1), n - 1);
    }
  }

  lemma {:induction false} NotYet(unit: seq<Point>, m: nat, n: nat)
    requires AllOnGrid(unit, m) && n <= |unit|
    ensures n !in Sorted(unit, m, n)
  {
    SortedHolds(unit, m, n);
  }

  lemma {:induction false} SortedRises(unit: seq<Point>, m: nat, n: nat)
    requires AllOnGrid(unit, m) && n <= |unit|
    ensures Rising(unit, m, Sorted(unit, m, n))
  {
    if n > 0 {
      SortedRises(unit, m, n - 1);
      NotYet(unit, m, n - 1);
      var order := Sorted(unit, m, n - 1);
      InsertedRises(unit, m, order, n - 1);
      assert Sorted(unit, m, n) == Inserted(unit, m, order, n - 1);
    }
  }

  /** Sorting finds it. */
  lemma {:induction false} SortedAlongCurve(unit: seq<Point>, m: nat)
    requires AllOnGrid(unit, m)
    ensures AlongCurve(unit, m, Sorted(unit, m, |unit|))
  {
    SortedRises(unit, m, |unit|);
    SortedHolds(unit, m, |unit|);
  }

  /** Nor does the order. */
  lemma {:induction false} AnyGridOrder(unit: seq<Point>, m: nat, m': nat)
    requires AllOnGrid(unit, m) && AllOnGrid(unit, m')
    ensures Sorted(unit, m, |unit|) == Sorted(unit, m', |unit|)
  {
    var order := Sorted(unit, m, |unit|);
    SortedAlongCurve(unit, m);
    SortedAlongCurve(unit, m');
    forall i, k | 0 <= i < k < |order| ensures Before(unit, m', order[i], order[k]) {
      assert Before(unit, m, order[i], order[k]);
      SamePosition(unit[order[i]], m, m');
      SamePosition(unit[order[k]], m, m');
    }
    OneOrder(unit, m', order, Sorted(unit, m', |unit|));
  }

  lemma {:induction false} SamePosition(p: Point, m: nat, m': nat)
    requires OnGrid(p, m) && OnGrid(p, m')
    ensures Theta(p, m) == Theta(p, m')
  {
    AnyGrid(p.x, p.y, m, m');
  }
}
