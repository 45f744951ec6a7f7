/** The slew and load axes of the characterization: sorting out close values, and thinning or
    filling up to a given number. */
module AxisValues {

  /** The smallest positive normal number of the source's format, and its largest number. */
  const TINY: real := 1.0 / 85070591730234615865843651857942052864.0
  const HUGE: real := 340282346638528859811704183484516925440.0

  predicate Rising(s: seq<real>) {
    forall i, j :: 0 <= i < j < |s| ==> s[i] < s[j]
  }

  predicate InRange(s: seq<real>) {
    forall i :: 0 <= i < |s| ==> 0.0 < s[i] <= HUGE
  }

  function Abs(x: real): (r: real)
    ensures r >= 0.0 && (r == x || r == -x)
  {
    if x < 0.0 then -x else x
  }

  /** The distance of value i from the one before it. */
  function Gap(s: seq<real>, i: nat): real
    requires 1 <= i < |s|
  {
    Abs(s[i] - s[i - 1])
  }

  // ----- sorting out close values -----

  /** The values are sorted, perhaps with equal ones. */
  predicate Ordered(s: seq<real>) {
    forall i, j :: 0 <= i < j < |s| ==> s[i] <= s[j]
  }

  function Insert(s: seq<real>, x: real): (r: seq<real>)
    ensures |r| == |s| + 1 && multiset(r) == multiset(s) + multiset{x}
  {
    if s == [] || x >= s[|s| - 1] then s + [x]
    else
      assert s == s[..|s| - 1] + [s[|s| - 1]];
      Insert(s[..|s| - 1], x) + [s[|s| - 1]]
  }

  lemma {:induction false} InsertOrdered(s: seq<real>, x: real)
    requires Ordered(s)
    ensures Ordered(Insert(s, x))
  {
    if s != [] && x < s[|s| - 1] {
      var p, r := s[..|s| - 1], Insert(s[..|s| - 1], x);
      InsertOrdered(p, x);
      forall i | 0 <= i < |r|
        ensures r[i] <= s[|s| - 1]
      {
        assert r[i] in multiset(r);
        assert r[i] in multiset(p) || r[i] == x;
        assert r[i] in p || r[i] == x;
      }
    }
  }

  /** The values in order. */
  function Sort(s: seq<real>, n: nat): (r: seq<real>)
    requires n <= |s|
    ensures multiset(r) == multiset(s[..n])
  {
    if n == 0 then []
    else
      assert s[..n] == s[..n - 1] + [s[n - 1]];
      Insert(Sort(s, n - 1), s[n - 1])
  }

  lemma {:induction false} SortOrdered(s: seq<real>, n: nat)
    requires n <= |s|
    ensures Ordered(Sort(s, n))
  {
    if n > 0 {
      SortOrdered(s, n - 1);
      InsertOrdered(Sort(s, n - 1), s[n - 1]);
    }
  }

  /** Of the first n values, those that differ from the one before. */
  function Unique(s: seq<real>, n: nat): seq<real>
    requires n <= |s|
  {
    if n == 0 then []
    else if n > 1 && s[n - 1] == s[n - 2] then Unique(s, n - 1)
    else Unique(s, n - 1) + [s[n - 1]]
  }

  lemma {:induction false} UniqueRises(s: seq<real>, n: nat)
    requires n <= |s| && Ordered(s)
    ensures Rising(Unique(s, n)) && (n > 0 ==> Unique(s, n) != [] && Unique(s, n)[|Unique(s, n)| - 1] == s[n - 1])
    ensures forall x :: x in Unique(s, n) <==> x in s[..n]
  {
    if n > 0 {
      UniqueRises(s, n - 1);
      assert s[..n] == s[..n - 1] + [s[n - 1]];
      if n > 1 && s[n - 1] == s[n - 2] {
        assert s[n - 2] in s[..n - 1];
      }
    }
  }

  predicate Close(prev: real, curr: real)
    requires curr != 0.0
  {
    Abs(prev - curr) / curr < 0.01
  }

  /** Which means less than 1% below. */
  lemma {:induction false} CloseIs(prev: real, curr: real)
    requires 0.0 < prev <= curr
    ensures Close(prev, curr) <==> 100.0 * (curr - prev) < curr
  {
    var d := curr - prev;
    assert Abs(prev - curr) == d;
    Hundredth(d, curr);
  }

  lemma {:induction false} Hundredth(d: real, x: real)
    requires x > 0.0
    ensures d / x < 0.01 <==> 100.0 * d < x
  {
    var q := d / x;
    assert q * x == d;
    assert q < 0.01 ==> (0.01 - q) * x > 0.0;
    assert q >= 0.01 ==> (q - 0.01) * x >= 0.0;
  }

  /** A kept value that is at most 1% below x. */
  predicate Represented(kept: seq<real>, x: real)
    requires x > 0.0
  {
    exists k :: 0 <= k < |kept| && kept[k] <= x && (kept[k] == x || Close(kept[k], x))
  }

  predicate Spread(s: seq<real>)
    requires InRange(s)
  {
    forall i :: 1 <= i < |s| ==> !Close(s[i - 1], s[i])
  }

  /** Of the first n values, the first one and those not close to the last one kept before. */
  function Thin(s: seq<real>, n: nat): (r: seq<real>)
    requires n <= |s| && InRange(s)
    ensures |r| <= n && (n > 0 ==> r != [])
  {
    if n == 0 then []
    else
      var kept := Thin(s, n - 1);
      if kept != [] && Close(kept[|kept| - 1], s[n - 1]) then kept else kept + [s[n - 1]]
  }

  lemma {:induction false} ThinStep(s: seq<real>, n: nat)
    requires 0 < n < |s| && InRange(s)
    ensures var kept := Thin(s, n);
            kept != [] && Thin(s, n + 1) == if Close(kept[|kept| - 1], s[n]) then kept else kept + [s[n]]
  {
  }

  lemma {:induction false} SpreadSnoc(kept: seq<real>, x: real)
    requires InRange(kept) && Rising(kept) && Spread(kept) && 0.0 < x <= HUGE
    requires kept != [] ==> kept[|kept| - 1] < x && !Close(kept[|kept| - 1], x)
    ensures InRange(kept + [x]) && Rising(kept + [x]) && Spread(kept + [x])
  {
  }

  /** What is kept rises in steps of at least 1%. */
  lemma {:induction false} ThinSpreads(s: seq<real>, n: nat)
    requires n <= |s| && InRange(s) && Rising(s)
    ensures var r := Thin(s, n);
            && InRange(r) && Rising(r) && Spread(r)
            && (forall x :: x in r ==> x in s[..n])
            && (r != [] ==> n > 0 && r[0] == s[0] && r[|r| - 1] <= s[n - 1])
  {
    if n > 0 {
      ThinSpreads(s, n - 1);
      assert s[..n] == s[..n - 1] + [s[n - 1]];
      var kept := Thin(s, n - 1);
      if !(kept != [] && Close(kept[|kept| - 1], s[n - 1])) {
        SpreadSnoc(kept, s[n - 1]);
      }
    }
  }

  /** Everything dropped is represented by a kept value. */
  lemma {:induction false} ThinRepresents(s: seq<real>, n: nat, k: nat)
    requires k < n <= |s| && InRange(s) && Rising(s)
    ensures Represented(Thin(s, n), s[k])
  {
    var kept, r := Thin(s, n - 1), Thin(s, n);
    ThinSpreads(s, n - 1);
    if k < n - 1 {
      ThinRepresents(s, n - 1, k);
      var m :| 0 <= m < |kept| && kept[m] <= s[k] && (kept[m] == s[k] || Close(kept[m], s[k]));
      assert r[m] == kept[m];
    } else if kept != [] && Close(kept[|kept| - 1], s[n - 1]) {
      assert r[|kept| - 1] == kept[|kept| - 1];
    } else {
      assert r[|kept|] == s[n - 1];
    }
  }

  lemma {:induction false} OneFurther<T>(kept: seq<T>, s: seq<T>, i: nat)
    requires i < |s|
    ensures var r := kept + s[i..];
            && r[|kept|] == s[i] && r[..|kept|] + r[|kept| + 1..] == kept + s[i + 1..]
            && r == kept + [s[i]] + s[i + 1..]
  {
  }

  /** Drop the values less than 1% above the last one kept. */
  method DropClose(values: seq<real>) returns (r: seq<real>)
    requires values != [] && InRange(values)
    ensures r == Thin(values, |values|)
  {
    r := values;
    var prev := r[0];
    var iter: nat := 1;
    ghost var seen: nat := 1;
    assert Thin(values, 1) == [values[0]];
    while iter < |r|
      invariant 1 <= seen <= |values| && iter == |Thin(values, seen)|
      invariant r == Thin(values, seen) + values[seen..] && prev == r[iter - 1]
      decreases |values| - seen
    {
      OneFurther(Thin(values, seen), values, seen);
      ThinStep(values, seen);
      var curr := r[iter];
      if Close(prev, curr) {
        r := r[..iter] + r[iter + 1..];
      } else {
        iter := iter + 1;
        prev := curr;
      }
      seen := seen + 1;
    }
  }

  /** Sort the values, and drop equal and close ones. */
  method SortAndUniquify(values: seq<real>) returns (r: seq<real>)
    requires values != [] && InRange(values)
    ensures InRange(r) && Rising(r) && r != []
    ensures forall i :: 1 <= i < |r| ==> 100.0 * (r[i] - r[i - 1]) >= r[i]
    ensures forall x :: x in r ==> x in values
    ensures forall i :: 0 <= i < |values| ==> r[0] <= values[i] && Below(r, values[i])
  {
    var sorted := Sort(values, |values|);
    var unique := Unique(sorted, |sorted|);
    UniqueValues(values);
    r := DropClose(unique);
    ThinSpreads(unique, |unique|);
    assert unique[..|unique|] == unique;
    forall i | 0 <= i < |values|
      ensures r[0] <= values[i] && Below(r, values[i])
    {
      assert values[i] in unique;
      var k :| 0 <= k < |unique| && unique[k] == values[i];
      ThinRepresents(unique, |unique|, k);
      RepresentedBelow(r, values[i]);
    }
    SpreadBy(r);
  }

  /** A value that is less than 1% below x, or x itself. */
  predicate Below(s: seq<real>, x: real) {
    exists k :: 0 <= k < |s| && s[k] <= x && 100.0 * (x - s[k]) < x
  }

  lemma {:induction false} RepresentedBelow(r: seq<real>, x: real)
    requires InRange(r) && x > 0.0 && Represented(r, x)
    ensures Below(r, x)
  {
    var k :| 0 <= k < |r| && r[k] <= x && (r[k] == x || Close(r[k], x));
    CloseIs(r[k], x);
  }

  lemma {:induction false} SpreadBy(r: seq<real>)
    requires InRange(r) && Rising(r) && Spread(r)
    ensures forall i :: 1 <= i < |r| ==> 100.0 * (r[i] - r[i - 1]) >= r[i]
  {
    forall i | 1 <= i < |r| ensures 100.0 * (r[i] - r[i - 1]) >= r[i] {
      CloseIs(r[i - 1], r[i]);
    }
  }

  lemma {:induction false} UniqueValues(values: seq<real>)
    requires values != [] && InRange(values)
    ensures var unique := Unique(Sort(values, |values|), |Sort(values, |values|)|);
            |Sort(values, |values|)| == |values| && InRange(unique) && Rising(unique) && unique != []
            && forall x :: x in unique <==> x in values
  {
    var sorted := Sort(values, |values|);
    assert values[..|values|] == values;
    assert |multiset(sorted)| == |sorted| && |multiset(values)| == |values|;
    SortOrdered(values, |values|);
    UniqueRises(sorted, |sorted|);
    assert sorted[..|sorted|] == sorted;
    SameValues(values, sorted, Unique(sorted, |sorted|));
  }

  lemma {:induction false} SameValues(values: seq<real>, sorted: seq<real>, r: seq<real>)
    requires multiset(sorted) == multiset(values) && InRange(values) && values != []
    requires forall x :: x in r <==> x in sorted
    ensures InRange(r) && r != [] && forall x :: x in r <==> x in values
  {
    assert forall x :: x in sorted <==> x in multiset(sorted);
    assert forall x :: x in values <==> x in multiset(values);
    assert values[0] in multiset(values);
    assert forall x :: x in r <==> x in values;
    forall i | 0 <= i < |r|
      ensures 0.0 < r[i] <= HUGE
    {
      assert r[i] in r;
    }
  }

  // ----- thinning and filling up -----

  /** The place of the first of the smallest gaps before place n, or 0 if there is none. */
  function SmallestGap(s: seq<real>, n: nat): (i: nat)
    requires 0 < n <= |s|
    ensures i < n
  {
    if n == 1 then 0
    else
      var i := SmallestGap(s, n - 1);
      if Gap(s, n - 1) < (if i == 0 then HUGE else Gap(s, i)) then n - 1 else i
  }

  /** With values in range, it is a smallest gap indeed, and the first of these. */
  lemma {:induction false} SmallestGapIs(s: seq<real>, n: nat)
    requires 2 <= n <= |s| && InRange(s)
    ensures var i := SmallestGap(s, n);
            && 1 <= i && (forall k :: 1 <= k < n ==> Gap(s, i) <= Gap(s, k))
            && forall k :: 1 <= k < i ==> Gap(s, i) < Gap(s, k)
  {
    if n > 2 { SmallestGapIs(s, n - 1); }
  }

  method SmallestDiffIter(values: seq<real>) returns (smallestIter: nat)
    requires values != []
    ensures smallestIter == SmallestGap(values, |values|)
  {
    var minDiff := HUGE;
    smallestIter := 0;
    var prev, iter := values[0], 1;
    while iter < |values|
      invariant 1 <= iter <= |values| && prev == values[iter - 1]
      invariant smallestIter == SmallestGap(values, iter)
      invariant minDiff == if smallestIter == 0 then HUGE else Gap(values, smallestIter)
    {
      var curr := values[iter];
      var diff := Abs(curr - prev);
      if diff < minDiff {
        minDiff, smallestIter := diff, iter;
      }
      iter := iter + 1;
      prev := curr;
    }
  }

  /** The place before the first of the largest gaps before place n, or 0 if there is none. */
  function LargestGap(s: seq<real>, n: nat): (i: nat)
    requires 0 < n <= |s|
    ensures n > 1 ==> i < n - 1
  {
    if n == 1 then 0
    else
      var i := LargestGap(s, n - 1);
      if Gap(s, n - 1) > LargestSoFar(s, n - 1) then n - 2 else i
  }

  /** The largest gap before place n, if it is not tiny. */
  function LargestSoFar(s: seq<real>, n: nat): real
    requires 0 < n <= |s|
  {
    if n == 1 then TINY
    else if Gap(s, n - 1) > LargestSoFar(s, n - 1) then Gap(s, n - 1) else LargestSoFar(s, n - 1)
  }

  /** It is a largest gap indeed, and the first of these, unless all gaps are tiny. */
  lemma {:induction false} LargestGapIs(s: seq<real>, n: nat)
    requires 2 <= n <= |s|
    ensures forall k :: 1 <= k < n ==> Gap(s, k) <= LargestSoFar(s, n)
    ensures LargestSoFar(s, n) == TINY
            || (LargestSoFar(s, n) == Gap(s, LargestGap(s, n) + 1)
                && forall k :: 1 <= k <= LargestGap(s, n) ==> Gap(s, k) < Gap(s, LargestGap(s, n) + 1))
  {
    if n > 2 { LargestGapIs(s, n - 1); }
  }

  method LargestDiffIter(values: seq<real>) returns (largestIter: nat)
    requires values != []
    ensures largestIter == LargestGap(values, |values|)
  {
    var maxDiff := TINY;
    largestIter := 0;
    var prev, iter := values[0], 1;
    while iter < |values|
      invariant 1 <= iter <= |values| && prev == values[iter - 1]
      invariant largestIter == LargestGap(values, iter) && maxDiff == LargestSoFar(values, iter)
    {
      var curr := values[iter];
      var diff := Abs(curr - prev);
      if diff > maxDiff {
        maxDiff, largestIter := diff, iter - 1;
      }
      iter := iter + 1;
      prev := curr;
    }
  }

  /** s keeps some of the values of t, in order, and the first one among them. */
  ghost predicate KeepsFirst(s: seq<real>, t: seq<real>) {
    exists idx :: Keeps(s, t, idx)
  }

  ghost predicate Keeps(s: seq<real>, t: seq<real>, idx: seq<nat>) {
    && |idx| == |s| && (forall i :: 0 <= i < |s| ==> idx[i] < |t| && s[i] == t[idx[i]])
    && (forall i, j :: 0 <= i < j < |idx| ==> idx[i] < idx[j])
    && (t != [] ==> s != [] && idx[0] == 0)
  }

  lemma {:induction false} KeepsAll(s: seq<real>)
    ensures KeepsFirst(s, s)
  {
    assert Keeps(s, s, seq(|s|, i => i));
  }

  lemma {:induction false} KeepsLess(s: seq<real>, t: seq<real>, i: nat)
    requires KeepsFirst(s, t) && 1 <= i < |s|
    ensures KeepsFirst(s[..i] + s[i + 1..], t)
  {
    var idx :| Keeps(s, t, idx);
    assert Keeps(s[..i] + s[i + 1..], t, idx[..i] + idx[i + 1..]);
  }

  lemma {:induction false} RisingKept(s: seq<real>, t: seq<real>)
    requires KeepsFirst(s, t) && Rising(t) && InRange(t)
    ensures Rising(s) && InRange(s)
  {
    var idx :| Keeps(s, t, idx);
  }

  function Removed(s: seq<real>, i: nat): (r: seq<real>)
    requires i < |s|
    ensures |r| == |s| - 1
  {
    s[..i] + s[i + 1..]
  }

  /** The value above the first of the smallest gaps goes, again and again. */
  function Thinned(s: seq<real>, limit: nat): seq<real> {
    if |s| <= limit then s else Thinned(Removed(s, SmallestGap(s, |s|)), limit)
  }

  /** Thinning keeps some of the values, the first one among them. */
  lemma {:induction false} ThinnedKeeps(s: seq<real>, t: seq<real>, limit: nat)
    requires KeepsFirst(s, t) && Rising(t) && InRange(t) && 1 <= limit
    ensures var r := Thinned(s, limit);
            Rising(r) && InRange(r) && KeepsFirst(r, t) && (limit <= |s| ==> |r| == limit)
    decreases |s|
  {
    RisingKept(s, t);
    if |s| > limit {
      var i := SmallestGap(s, |s|);
      SmallestGapIs(s, |s|);
      KeepsLess(s, t, i);
      ThinnedKeeps(Removed(s, i), t, limit);
    }
  }

  /** Place i is above a smallest gap, the first of these. */
  predicate AboveSmallest(s: seq<real>, i: nat) {
    && 1 <= i < |s| && (forall k :: 1 <= k < |s| ==> Gap(s, i) <= Gap(s, k))
    && forall k :: 1 <= k < i ==> Gap(s, i) < Gap(s, k)
  }

  /** The lists in between: from each to the next, the value above the first of the smallest gaps goes. */
  ghost predicate Thins(lists: seq<seq<real>>, s: seq<real>, r: seq<real>) {
    && lists != [] && lists[0] == s && lists[|lists| - 1] == r
    && forall k: nat :: k + 1 < |lists| ==> ThinsOnce(lists[k], lists[k + 1])
  }

  ghost predicate ThinsOnce(s: seq<real>, r: seq<real>) {
    exists i: nat :: AboveSmallest(s, i) && r == s[..i] + s[i + 1..]
  }

  ghost predicate ThinsTo(s: seq<real>, r: seq<real>) {
    exists lists :: Thins(lists, s, r)
  }

  lemma {:induction false} OneMoreThinned(lists: seq<seq<real>>, s: seq<real>, t: seq<real>, r: seq<real>)
    requires ThinsOnce(s, t) && Thins(lists, t, r)
    ensures Thins([s] + lists, s, r)
  {
  }

  lemma {:induction false} ThinnedSteps(s: seq<real>, limit: nat)
    requires Rising(s) && InRange(s) && 1 <= limit
    ensures ThinsTo(s, Thinned(s, limit))
    decreases |s|
  {
    var r := Thinned(s, limit);
    if |s| <= limit {
      assert Thins([s], s, r);
    } else {
      var i := SmallestGap(s, |s|);
      SmallestGapIs(s, |s|);
      assert AboveSmallest(s, i);
      ThinnedSteps(Removed(s, i), limit);
      var lists :| Thins(lists, Removed(s, i), r);
      assert ThinsOnce(s, Removed(s, i));
      OneMoreThinned(lists, s, Removed(s, i), r);
    }
  }

  /** Drop values next to the smallest gaps until the limit is met. */
  method Reduce(values: seq<real>, limit: nat) returns (r: seq<real>)
    requires limit < |values|
    ensures r == Thinned(values, limit)
  {
    r := values;
    while true
      invariant |r| > limit && Thinned(r, limit) == Thinned(values, limit)
      decreases |r|
    {
      var curr := SmallestDiffIter(r);
      r := Removed(r, curr);
      if |r| == limit {
        break;
      }
    }
  }

  /** Values in between have been added to s. */
  ghost predicate Refines(r: seq<real>, s: seq<real>) {
    && s != [] && r != [] && r[0] == s[0] && r[|r| - 1] == s[|s| - 1]
    && forall x :: x in s ==> x in r
  }

  lemma {:induction false} MidpointRises(s: seq<real>, i: nat)
    requires Rising(s) && InRange(s) && i + 1 < |s|
    ensures var r := Halved(s, i); Rising(r) && InRange(r) && Refines(r, s)
  {
    var m := (s[i] + s[i + 1]) / 2.0;
    var r := Halved(s, i);
    assert s[i] < m < s[i + 1];
    forall a, b | 0 <= a < b < |r|
      ensures r[a] < r[b]
    {
      assert r[a] == if a <= i then s[a] else if a == i + 1 then m else s[a - 1];
      assert r[b] == if b <= i then s[b] else if b == i + 1 then m else s[b - 1];
    }
    forall x | x in s
      ensures x in r
    {
      var k :| 0 <= k < |s| && s[k] == x;
      assert r[if k <= i then k else k + 1] == x;
    }
  }

  function Halved(s: seq<real>, i: nat): (r: seq<real>)
    requires i + 1 < |s|
    ensures |r| == |s| + 1
  {
    s[..i + 1] + [(s[i] + s[i + 1]) / 2.0] + s[i + 1..]
  }

  /** The first of the largest gaps is halved, again and again. */
  function Filled(s: seq<real>, limit: nat): seq<real>
    requires |s| >= 2
    decreases limit - |s|
  {
    if |s| >= limit then s else Filled(Halved(s, LargestGap(s, |s|)), limit)
  }

  lemma {:induction false} RefinesOn(a: seq<real>, b: seq<real>, c: seq<real>)
    requires Refines(a, b) && Refines(b, c)
    ensures Refines(a, c)
  {
  }

  /** Filling up keeps all values, with the same ends. */
  lemma {:induction false} FilledRefines(s: seq<real>, limit: nat)
    requires |s| >= 2 && Rising(s) && InRange(s)
    ensures var r := Filled(s, limit);
            Rising(r) && InRange(r) && Refines(r, s) && (|s| <= limit ==> |r| == limit)
    decreases limit - |s|
  {
    if |s| < limit {
      var i := LargestGap(s, |s|);
      MidpointRises(s, i);
      FilledRefines(Halved(s, i), limit);
      RefinesOn(Filled(s, limit), Halved(s, i), s);
    }
  }

  /** Place i is below a largest gap, the first of these, if not all gaps are tiny. */
  predicate BelowLargest(s: seq<real>, i: nat) {
    && i + 1 < |s|
    && ((exists k :: 1 <= k < |s| && Gap(s, k) > TINY) ==>
          && (forall k :: 1 <= k < |s| ==> Gap(s, k) <= Gap(s, i + 1))
          && forall k :: 1 <= k <= i ==> Gap(s, k) < Gap(s, i + 1))
  }

  /** The lists in between: from each to the next, the middle of the first of the largest gaps is added. */
  ghost predicate Fills(lists: seq<seq<real>>, s: seq<real>, r: seq<real>) {
    && lists != [] && lists[0] == s && lists[|lists| - 1] == r
    && forall k: nat :: k + 1 < |lists| ==> FillsOnce(lists[k], lists[k + 1])
  }

  ghost predicate FillsOnce(s: seq<real>, r: seq<real>) {
    exists i: nat :: BelowLargest(s, i) && r == s[..i + 1] + [(s[i] + s[i + 1]) / 2.0] + s[i + 1..]
  }

  ghost predicate FillsTo(s: seq<real>, r: seq<real>) {
    exists lists :: Fills(lists, s, r)
  }

  lemma {:induction false} HalvedFills(s: seq<real>)
    requires |s| >= 2
    ensures FillsOnce(s, Halved(s, LargestGap(s, |s|)))
  {
    LargestGapIs(s, |s|);
    assert BelowLargest(s, LargestGap(s, |s|));
  }

  lemma {:induction false} OneMoreFilled(lists: seq<seq<real>>, s: seq<real>, t: seq<real>, r: seq<real>)
    requires FillsOnce(s, t) && Fills(lists, t, r)
    ensures FillsTo(s, r)
  {
    assert Fills([s] + lists, s, r);
  }

  lemma {:induction false} NoneFilled(s: seq<real>)
    ensures FillsTo(s, s)
  {
    assert Fills([s], s, s);
  }

  lemma {:induction false} FilledSteps(s: seq<real>, limit: nat)
    requires |s| >= 2
    ensures FillsTo(s, Filled(s, limit))
    decreases limit - |s|
  {
    if |s| >= limit {
      NoneFilled(s);
    } else {
      var t := Halved(s, LargestGap(s, |s|));
      FilledSteps(t, limit);
      var lists :| Fills(lists, t, Filled(s, limit));
      HalvedFills(s);
      OneMoreFilled(lists, s, t, Filled(s, limit));
    }
  }

  /** Halve the largest gaps until the limit is met. */
  method Expand(values: seq<real>, limit: nat) returns (r: seq<real>)
    requires 2 <= |values| < limit
    ensures r == Filled(values, limit)
  {
    r := values;
    while true
      invariant 2 <= |r| < limit && Filled(r, limit) == Filled(values, limit)
      decreases limit - |r|
    {
      var curr := LargestDiffIter(r);
      var next := curr + 1;
      var newVal := (r[curr] + r[next]) / 2.0;
      assert r[..next] + [newVal] + r[next..] == Halved(r, curr);
      r := r[..next] + [newVal] + r[next..];
      if |r| == limit {
        break;
      }
    }
  }

  /** Bring the number of values to the limit. */
  method ReduceOrExpand(values: seq<real>, limit: nat) returns (r: seq<real>)
    requires Rising(values) && InRange(values) && |values| >= 2 && limit >= 1
    ensures |r| == limit && Rising(r) && InRange(r)
    ensures limit <= |values| ==> ThinsTo(values, r) && KeepsFirst(r, values)
    ensures limit >= |values| ==> FillsTo(values, r) && Refines(r, values)
  {
    ThinnedSteps(values, limit);
    FilledSteps(values, limit);
    KeepsAll(values);
    ThinnedKeeps(values, values, limit);
    FilledRefines(values, limit);
    r := values;
    if |values| > limit {
      r := Reduce(values, limit);
    } else if |values| < limit {
      r := Expand(values, limit);
    }
  }
}
