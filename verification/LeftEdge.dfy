/** Along the left edge of the unit square, points at halved heights are passed from the bottom to the
    top. */
module LeftEdge {
  import opened CurveOrder

  /** 1 halved k times. */
  function Part(k: nat): (p: real)
    ensures 0.0 < p <= 1.0
  {
    if k == 0 then 1.0 else Part(k - 1) / 2.0
  }

  lemma {:induction false} PartFalls(k: nat, j: nat)
    requires k <= j
    ensures Part(j) <= Part(k) && (k < j ==> Part(j) <= Part(k) / 2.0)
  {
    if k < j { PartFalls(k, j - 1); }
  }

  // ----- such points lie on the grid -----

  lemma {:induction false} FinerBy(x: real, m: nat, a: nat)
    requires DyadicBy(x, m, a)
    ensures DyadicBy(x, m + 1, 2 * a)
  {
    Doubled(x, Pow2(m), a as real);
  }

  lemma {:induction false} Doubled(x: real, p: real, a: real)
    requires x * p == a
    ensures x * (2.0 * p) == 2.0 * a
  {
  }

  lemma {:induction false} Finer(x: real, m: nat, m': nat)
    requires Dyadic(x, m) && m <= m'
    ensures Dyadic(x, m')
  {
    if m < m' {
      Finer(x, m, m' - 1);
      var a: nat :| DyadicBy(x, m' - 1, a);
      FinerBy(x, m' - 1, a);
    }
  }

  lemma {:induction false} PartTimes(k: nat)
    ensures Part(k) * Pow2(k) == 1.0
  {
    if k > 0 {
      PartTimes(k - 1);
      Halved(Part(k - 1), Pow2(k - 1));
    }
  }

  lemma {:induction false} Halved(a: real, b: real)
    requires a * b == 1.0
    ensures a / 2.0 * (2.0 * b) == 1.0
  {
    assert a / 2.0 * (2.0 * b) == a * b;
  }

  lemma {:induction false} LessOne(a: real, b: real)
    requires a * b == 1.0
    ensures (1.0 - a) * b == b - 1.0
  {
  }

  lemma {:induction false} PartOnGrid(k: nat, m: nat)
    requires k <= m
    ensures Dyadic(Part(k), m) && Dyadic(1.0 - Part(k), m) && Dyadic(0.0, m) && Dyadic(1.0, m)
  {
    PartTimes(k);
    PowIsWhole(k);
    LessOne(Part(k), Pow2(k));
    assert DyadicBy(Part(k), k, 1);
    var a: nat := Pow2(k).Floor - 1;
    assert DyadicBy(1.0 - Part(k), k, a);
    assert DyadicBy(0.0, 0, 0) && DyadicBy(1.0, 0, 1);
    Finer(Part(k), k, m);
    Finer(1.0 - Part(k), k, m);
    Finer(0.0, 0, m);
    Finer(1.0, 0, m);
  }

  // ----- the right edge, from the top down -----

  /** The position of the point that is Part(k) below the upper right corner. */
  function Right(k: nat): (t: real)
    ensures 0.5 <= t <= 0.75
  {
    if Part(k) < EPSILON then 0.5
    else if k == 0 then 0.75
    else 3.0 / 8.0 + Right(k - 1) / 4.0
  }

  lemma {:induction false} EpsilonSmall()
    ensures EPSILON <= 0.5
  {
    PowAtLeastTwo(52);
  }

  lemma {:induction false} RightFalls(k: nat)
    ensures Right(k + 1) <= Right(k)
  {
  }

  lemma {:induction false} FoldOfPart(k: nat)
    ensures Fold(0.0) == 1.0 && Fold(1.0) == 1.0
    ensures k > 0 ==> Fold(1.0 - Part(k)) == 1.0 - Part(k - 1)
    ensures k > 0 ==> Fold(Part(k)) == 1.0 - Part(k - 1)
  {
    if k > 0 { PartFalls(0, k - 1); }
    if k > 1 { PartFalls(1, k - 1); }
  }

  lemma {:induction false} CornerTheta(m: nat)
    ensures Dyadic(1.0, m) && ComputeTheta(1.0, 1.0, m) == 0.5
  {
    PartOnGrid(0, m);
    EpsilonPositive();
  }

  lemma {:induction false} EpsilonPositive()
    ensures EPSILON > 0.0
  {
  }

  lemma {:induction false} RightQuarter(k: nat)
    ensures Quarter(1.0, 1.0 - Part(k)) == if k == 0 then 3 else 2
  {
    if k > 0 { PartFalls(1, k); }
  }

  lemma {:induction false} InQuarters(t: real)
    requires 0.5 <= t <= 0.75
    ensures InQuarter(2, t) == 3.0 / 8.0 + t / 4.0 && InQuarter(0, t) == t / 4.0 - 0.125
    ensures InQuarter(3, 0.5) == 0.75 && InQuarter(1, 0.5) == 0.25 && InQuarter(1, 0.75) == 0.1875
  {
  }

  lemma {:induction false} RightTheta(k: nat, m: nat)
    requires k <= m
    ensures Dyadic(1.0, m) && Dyadic(1.0 - Part(k), m) && ComputeTheta(1.0, 1.0 - Part(k), m) == Right(k)
    decreases k, 1
  {
    PartOnGrid(k, m);
    if Part(k) < EPSILON {
      EpsilonPositive();
    } else {
      RightFolds(k, m);
    }
  }

  lemma {:induction false} RightFolds(k: nat, m: nat)
    requires k <= m && Dyadic(1.0, m) && Dyadic(1.0 - Part(k), m) && Part(k) >= EPSILON
    ensures ComputeTheta(1.0, 1.0 - Part(k), m) == Right(k)
    decreases k, 0
  {
    ThetaFolds(1.0, 1.0 - Part(k), m);
    FoldOfPart(k);
    RightQuarter(k);
    if k == 0 {
      CornerTheta(Coarser(m));
      InQuarters(0.5);
    } else {
      RightTheta(k - 1, Coarser(m));
      InQuarters(Right(k - 1));
    }
  }

  // ----- the left edge, from the top down -----

  /** The position of the point at height Part(k) on the left edge. */
  function Left(k: nat): (t: real)
    ensures t >= 0.0
  {
    if k == 0 then 0.25 else if k == 1 then 0.1875 else Right(k - 1) / 4.0 - 0.125
  }

  lemma {:induction false} LeftFalls(k: nat, j: nat)
    requires k <= j
    ensures Left(j) <= Left(k)
  {
    if k < j {
      LeftFalls(k, j - 1);
      if j > 2 { RightFalls(j - 2); }
    }
  }

  lemma {:induction false} LeftQuarter(k: nat)
    ensures Quarter(0.0, Part(k)) == if k <= 1 then 1 else 0
  {
    if k > 1 { PartFalls(2, k); }
  }

  lemma {:induction false} LeftTheta(k: nat, m: nat)
    requires k <= m && m > 0
    ensures Dyadic(0.0, m) && Dyadic(Part(k), m) && ComputeTheta(0.0, Part(k), m) == Left(k)
  {
    PartOnGrid(k, m);
    EpsilonSmall();
    ThetaFolds(0.0, Part(k), m);
    FoldOfPart(k);
    LeftQuarter(k);
    if k == 0 {
      CornerTheta(Coarser(m));
      InQuarters(0.5);
    } else {
      RightTheta(k - 1, Coarser(m));
      InQuarters(Right(k - 1));
    }
  }

  lemma {:induction false} OriginTheta(m: nat)
    ensures Dyadic(0.0, m) && ComputeTheta(0.0, 0.0, m) == 0.0
  {
    PartOnGrid(0, m);
    EpsilonSmall();
    ThetaFolds(0.0, 0.0, m);
    FoldOfPart(0);
    CornerTheta(Coarser(m));
    assert Quarter(0.0, 0.0) == 0;
  }
}
