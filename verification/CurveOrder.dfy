/** The position of a point of the unit square along the curve by which sinks are sorted. */
module CurveOrder {

  /** The smallest number by which 1 and the next representable number differ. */
  const EPSILON: real := 1.0 / Pow2(52)

  function Pow2(k: nat): (p: real)
    ensures p >= 1.0
  {
    if k == 0 then 1.0 else 2.0 * Pow2(k - 1)
  }

  predicate IsOne(pos: real) {
    1.0 - pos < EPSILON
  }

  /** A coordinate in the unit interval that is a multiple of 1/2^m, as all floating-point numbers
      are for some m. */
  ghost predicate Dyadic(x: real, m: nat) {
    exists a: nat :: DyadicBy(x, m, a)
  }

  ghost predicate DyadicBy(x: real, m: nat, a: nat) {
    a as real <= Pow2(m) && x * Pow2(m) == a as real
  }

  /** Unfold the square around its centre. */
  function Fold(x: real): real {
    2.0 * if x < 0.5 then 0.5 - x else x - 0.5
  }

  lemma {:induction false} InUnit(x: real, m: nat)
    requires Dyadic(x, m)
    ensures 0.0 <= x <= 1.0
  {
    var a: nat :| DyadicBy(x, m, a);
    Bound(x, Pow2(m), a as real);
  }

  lemma {:induction false} Bound(x: real, p: real, a: real)
    requires p >= 1.0 && x * p == a && 0.0 <= a <= p
    ensures 0.0 <= x <= 1.0
  {
    assert x < 0.0 ==> x * p < 0.0;
    assert x > 1.0 ==> (x - 1.0) * p > 0.0;
  }

  /** Folding halves the denominator, until only 0 and 1 are left, and these become 1. */
  lemma {:induction false} FoldDyadic(x: real, m: nat)
    requires Dyadic(x, m)
    ensures if m > 0 then Dyadic(Fold(x), m - 1) else Fold(x) == 1.0 && Dyadic(Fold(x), 0)
  {
    var a: nat :| DyadicBy(x, m, a);
    if m == 0 {
      assert x == a as real;
      assert a == 0 || a == 1;
      assert DyadicBy(Fold(x), 0, 1);
    } else {
      var h := Pow2(m - 1);
      PowIsWhole(m - 1);
      var n := h.Floor;
      var b: nat := if a < n then n - a else a - n;
      FoldScaled(x, h, a as real);
      assert DyadicBy(Fold(x), m - 1, b);
    }
  }

  lemma {:induction false} PowIsWhole(k: nat)
    ensures Pow2(k).Floor as real == Pow2(k)
  {
    if k > 0 {
      PowIsWhole(k - 1);
      var n := Pow2(k - 1).Floor;
      assert Pow2(k) == (2 * n) as real;
    }
  }

  lemma {:induction false} FoldScaled(x: real, h: real, a: real)
    requires h >= 1.0 && x * (2.0 * h) == a
    ensures Fold(x) * h == if a < h then h - a else a - h
  {
    assert a - h == (2.0 * x - 1.0) * h;
    if x < 0.5 {
      assert (1.0 - 2.0 * x) * h > 0.0;
    } else {
      assert (2.0 * x - 1.0) * h >= 0.0;
    }
  }

  datatype Vertex = Vertex(quad: nat) | Invalid

  /** The quarter of the square a point is in. */
  function NumVertex(x: nat, y: nat): Vertex {
    if x == 0 && y == 0 then Vertex(0)
    else if x == 0 && y == 1 then Vertex(1)
    else if x == 1 && y == 1 then Vertex(2)
    else if x == 1 && y == 0 then Vertex(3)
    else Invalid
  }

  /** Which half of the interval, as a whole number, and at most 1. */
  function Half(x: real): nat
    requires x >= 0.0
  {
    var h := (2.0 * x).Floor;
    if h > 1 then 1 else h
  }

  function Fraction(v: real): real {
    v - v.Floor as real
  }

  /** Steps that are left before both coordinates have become 1. */
  ghost function StepsLeft(x: real, y: real, m: nat): nat {
    m + if x == 1.0 && y == 1.0 then 0 else 1
  }

  /** The position along the curve.  The recursion ends for all multiples of 1/2^m, the quarter is
      always a valid one, and the position is at least 0 and less than 1. */
  function ComputeTheta(x: real, y: real, ghost m: nat): (t: real)
    requires Dyadic(x, m) && Dyadic(y, m)
    ensures 0.0 <= t < 1.0
    decreases StepsLeft(x, y, m)
  {
    InUnit(x, m);
    InUnit(y, m);
    if IsOne(x) && IsOne(y) then 0.5
    else
      var quad := match NumVertex(Half(x), Half(y))
                  case Vertex(q) => q
                  case Invalid => assert false; 4;
      FoldDyadic(x, m);
      FoldDyadic(y, m);
      OneIsOne(x, y);
      InQuarter(quad, ComputeTheta(Fold(x), Fold(y), Coarser(m)))
  }

  /** The grid that is left after folding. */
  ghost function Coarser(m: nat): nat {
    if m > 0 then m - 1 else 0
  }

  /** The position along the curve from the quarter and the position within it. */
  function InQuarter(quad: nat, t: real): (r: real)
    ensures 0.0 <= r < 1.0
  {
    Fraction((quad as real + if quad % 2 == 1 then 1.0 - t else t) / 4.0 + 7.0 / 8.0)
  }

  /** The quarter of a point of the square. */
  function Quarter(x: real, y: real): nat
    requires x >= 0.0 && y >= 0.0
  {
    match NumVertex(Half(x), Half(y))
    case Vertex(q) => q
    case Invalid => 4
  }

  /** The position of a point from the position of the folded one. */
  lemma {:induction false} ThetaFolds(x: real, y: real, m: nat)
    requires Dyadic(x, m) && Dyadic(y, m) && !(IsOne(x) && IsOne(y))
    ensures x >= 0.0 && y >= 0.0 && Dyadic(Fold(x), Coarser(m)) && Dyadic(Fold(y), Coarser(m))
    ensures ComputeTheta(x, y, m) == InQuarter(Quarter(x, y), ComputeTheta(Fold(x), Fold(y), Coarser(m)))
  {
    InUnit(x, m);
    InUnit(y, m);
    FoldDyadic(x, m);
    FoldDyadic(y, m);
  }

  lemma {:induction false} OneIsOne(x: real, y: real)
    requires !(IsOne(x) && IsOne(y))
    ensures !(x == 1.0 && y == 1.0)
  {
  }

  // ----- the mirror images of a point -----

  predicate Whole(r: real) {
    r == r.Floor as real
  }

  lemma {:induction false} Mirrored(x: real, m: nat)
    requires Dyadic(x, m)
    ensures Dyadic(1.0 - x, m) && Fold(1.0 - x) == Fold(x)
    ensures 0.0 <= x <= 1.0 && (x != 0.5 ==> Half(1.0 - x) == 1 - Half(x))
  {
    InUnit(x, m);
    var a: nat :| DyadicBy(x, m, a);
    PowIsWhole(m);
    var b: nat := Pow2(m).Floor - a;
    Complement(x, Pow2(m), a as real);
    assert DyadicBy(1.0 - x, m, b);
  }

  lemma {:induction false} Complement(x: real, p: real, a: real)
    requires x * p == a
    ensures (1.0 - x) * p == p - a
  {
  }

  lemma {:induction false} QuarterAcross(x: real, y: real)
    requires 0.0 <= x <= 1.0 && 0.0 <= y <= 1.0 && Half(1.0 - x) == 1 - Half(x)
    ensures var q, q' := Quarter(x, y), Quarter(1.0 - x, y); q < 4 && q' < 4 && q % 2 != q' % 2 && q + q' == 3
  {
  }

  lemma {:induction false} QuarterAbove(x: real, y: real)
    requires 0.0 <= x <= 1.0 && 0.0 <= y <= 1.0 && Half(1.0 - y) == 1 - Half(y)
    ensures var q, q' := Quarter(x, y), Quarter(x, 1.0 - y); q < 4 && q' < 4 && q % 2 != q' % 2 && (q + q' == 1 || q + q' == 5)
  {
  }

  lemma {:induction false} OneMoreRound(r: real)
    requires Whole(r)
    ensures Whole(r + 1.0)
  {
  }

  /** Two quarters next to each other are passed in opposite directions. */
  lemma {:induction false} QuartersMirror(q: nat, q': nat, t: real)
    requires q < 4 && q' < 4 && 0.0 <= t < 1.0 && q % 2 != q' % 2
    ensures Whole(InQuarter(q, t) + InQuarter(q', t) - (q + q') as real / 4.0)
  {
    var v := (q as real + if q % 2 == 1 then 1.0 - t else t) / 4.0 + 7.0 / 8.0;
    var w := (q' as real + if q' % 2 == 1 then 1.0 - t else t) / 4.0 + 7.0 / 8.0;
    var z := 2 - v.Floor - w.Floor;
    assert InQuarter(q, t) + InQuarter(q', t) - (q + q') as real / 4.0 == z as real;
  }

  /** The order is symmetric: a point and its mirror image at the vertical middle line have positions
      that add up to 3/4, on the closed curve. */
  lemma {:induction false} MirrorX(x: real, y: real, m: nat)
    requires Dyadic(x, m) && Dyadic(y, m) && x != 0.5
    requires !(IsOne(x) && IsOne(y)) && !(IsOne(1.0 - x) && IsOne(y))
    ensures Dyadic(1.0 - x, m) && Whole(ComputeTheta(x, y, m) + ComputeTheta(1.0 - x, y, m) - 0.75)
  {
    Mirrored(x, m);
    ThetaFolds(x, y, m);
    ThetaFolds(1.0 - x, y, m);
    InUnit(y, m);
    QuarterAcross(x, y);
    QuartersMirror(Quarter(x, y), Quarter(1.0 - x, y), ComputeTheta(Fold(x), Fold(y), Coarser(m)));
  }

  /** And at the horizontal middle line to 1/4. */
  lemma {:induction false} MirrorY(x: real, y: real, m: nat)
    requires Dyadic(x, m) && Dyadic(y, m) && y != 0.5
    requires !(IsOne(x) && IsOne(y)) && !(IsOne(x) && IsOne(1.0 - y))
    ensures Dyadic(1.0 - y, m) && Whole(ComputeTheta(x, y, m) + ComputeTheta(x, 1.0 - y, m) - 0.25)
  {
    Mirrored(y, m);
    ThetaFolds(x, y, m);
    ThetaFolds(x, 1.0 - y, m);
    InUnit(x, m);
    QuarterAbove(x, y);
    QuartersMirror(Quarter(x, y), Quarter(x, 1.0 - y), ComputeTheta(Fold(x), Fold(y), Coarser(m)));
    if Quarter(x, y) + Quarter(x, 1.0 - y) == 5 {
      OneMoreRound(ComputeTheta(x, y, m) + ComputeTheta(x, 1.0 - y, m) - 1.25);
    }
  }

  // ----- coordinates that are no such multiples -----

  /** A coordinate after k foldings. */
  function Folded(x: real, k: nat): real {
    if k == 0 then x else Fold(Folded(x, k - 1))
  }

  /** For exact thirds the recursion would never end: the coordinate never comes near 1. */
  lemma {:induction false} ThirdsNeverEnd(k: nat)
    ensures Folded(1.0 / 3.0, k) == 1.0 / 3.0 && !IsOne(Folded(1.0 / 3.0, k))
  {
    PowAtLeastTwo(52);
    assert EPSILON <= 0.5;
    if k > 0 { ThirdsNeverEnd(k - 1); }
  }

  lemma {:induction false} PowAtLeastTwo(k: nat)
    requires k > 0
    ensures Pow2(k) >= 2.0
  {
  }

  /** Multiples of 1/2^m have become 1 after m + 1 foldings. */
  lemma {:induction false} DyadicEnds(x: real, m: nat)
    requires Dyadic(x, m)
    ensures Folded(x, m + 1) == 1.0
    decreases m
  {
    FoldDyadic(x, m);
    if m == 0 {
      assert Folded(x, 1) == Fold(Folded(x, 0));
    } else {
      DyadicEnds(Fold(x), m - 1);
      FoldedShift(x, m);
    }
  }

  lemma {:induction false} FoldedShift(x: real, k: nat)
    ensures Folded(Fold(x), k) == Folded(x, k + 1)
  {
    if k > 0 { FoldedShift(x, k - 1); } else { assert Folded(x, 1) == Fold(Folded(x, 0)); }
  }
}
