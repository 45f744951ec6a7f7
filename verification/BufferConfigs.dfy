/** Drive-strength configurations of a buffered wire topology.

    A configuration gives, node by node, the index of the buffer master used there.
    The characterization walks the monotone (non-decreasing) configurations with a
    base-n counter whose least significant digit is node 0, and it relies on a separate
    count of the monotone ones to know when the walk is complete. */
module BufferConfigs {
  import Arithmetic

  type Config = seq<nat>

  function Pow(b: nat, e: nat): nat {
    if e == 0 then 1 else b * Pow(b, e - 1)
  }

  /** The number whose base-n digits, node 0 first, are c. */
  function Code(n: nat, c: Config): nat {
    if c == [] then 0 else c[0] + n * Code(n, c[1..])
  }

  /** The k lowest base-n digits of v, node 0 first. */
  function Digits(n: nat, k: nat, v: nat): (c: Config)
    requires k == 0 || n > 0
    ensures |c| == k && Below(c, n)
    decreases k
  {
    if k == 0 then [] else [v % n] + Digits(n, k - 1, v / n)
  }

  predicate Below(c: Config, n: nat) {
    forall i :: 0 <= i < |c| ==> c[i] < n
  }

  /** A larger driver never drives a smaller one. */
  predicate Monotone(c: Config) {
    forall i :: 1 <= i < |c| ==> c[i - 1] <= c[i]
  }

  predicate MonotoneCode(n: nat, k: nat, v: nat)
    requires k == 0 || n > 0
  {
    Monotone(Digits(n, k, v))
  }

  /** The monotone configurations with code below m, in increasing order of code. */
  function MonotoneBelow(n: nat, k: nat, m: nat): seq<Config>
    requires k == 0 || n > 0 || m == 0
  {
    if m == 0 then []
    else if MonotoneCode(n, k, m - 1) then MonotoneBelow(n, k, m - 1) + [Digits(n, k, m - 1)]
    else MonotoneBelow(n, k, m - 1)
  }

  /** All the monotone configurations of k nodes over n masters, in increasing order of code. */
  function AllMonotone(n: nat, k: nat): seq<Config> {
    PowZero(k);
    MonotoneBelow(n, k, Pow(n, k))
  }

  /** Binomial coefficients, by Pascal's rule. */
  function Binomial(n: nat, k: nat): nat {
    if k == 0 then 1
    else if n == 0 then 0
    else Binomial(n - 1, k - 1) + Binomial(n - 1, k)
  }

  lemma {:induction false} PowZero(k: nat)
    ensures k > 0 ==> Pow(0, k) == 0
  {
  }

  lemma {:induction false} PowPositive(n: nat, k: nat)
    requires n > 0
    ensures Pow(n, k) > 0
  {
    if k > 0 { PowPositive(n, k - 1); }
  }

  // ----- digits and codes are inverse to each other -----

  lemma {:induction false} DigitBound(n: nat, d: nat, q: nat, p: nat)
    requires d < n && q < p
    ensures d + n * q < n * p
  {
    assert n * p == n * (q + 1) + n * (p - q - 1);
  }

  lemma {:induction false} QuotientBound(n: nat, v: nat, p: nat)
    requires n > 0 && v < n * p
    ensures v / n < p && v == v % n + n * (v / n)
  {
    var z := v / n - p;
    assert n * (v / n) == n * p + n * z;
  }

  lemma {:induction false} CodeBound(n: nat, c: Config)
    requires Below(c, n)
    ensures Code(n, c) < Pow(n, |c|)
  {
    if c != [] {
      CodeBound(n, c[1..]);
      DigitBound(n, c[0], Code(n, c[1..]), Pow(n, |c| - 1));
    }
  }

  lemma {:induction false} DigitsOfCode(n: nat, c: Config)
    requires Below(c, n) && (c == [] || n > 0)
    ensures Digits(n, |c|, Code(n, c)) == c
  {
    if c != [] {
      Arithmetic.DivModUnique(n, c[0], Code(n, c[1..]));
      DigitsOfCode(n, c[1..]);
    }
  }

  lemma {:induction false} CodeOfDigits(n: nat, k: nat, v: nat)
    requires (k == 0 || n > 0) && v < Pow(n, k)
    ensures Code(n, Digits(n, k, v)) == v
  {
    if k > 0 {
      QuotientBound(n, v, Pow(n, k - 1));
      CodeOfDigits(n, k - 1, v / n);
      assert Digits(n, k, v)[1..] == Digits(n, k - 1, v / n);
    }
  }

  /** Multiples of n^k have only zero digits, so the counter always meets a monotone code. */
  lemma {:induction false} DigitsOfMultiple(n: nat, k: nat, q: nat)
    requires n > 0
    ensures Digits(n, k, q * Pow(n, k)) == seq(k, _ => 0)
    ensures MonotoneCode(n, k, q * Pow(n, k))
  {
    if k > 0 {
      var p := Pow(n, k - 1);
      assert q * (n * p) == 0 + n * (q * p);
      Arithmetic.DivModUnique(n, 0, q * p);
      DigitsOfMultiple(n, k - 1, q);
    }
  }

  // ----- the ordered list of monotone configurations -----

  lemma {:induction false} BelowPrefix(n: nat, k: nat, a: nat, b: nat)
    requires (k == 0 || n > 0) && a <= b
    ensures MonotoneBelow(n, k, a) <= MonotoneBelow(n, k, b)
  {
    if a < b { BelowPrefix(n, k, a, b - 1); }
  }

  lemma {:induction false} BelowGap(n: nat, k: nat, a: nat, b: nat)
    requires (k == 0 || n > 0) && a <= b
    requires forall u :: a <= u < b ==> !MonotoneCode(n, k, u)
    ensures MonotoneBelow(n, k, a) == MonotoneBelow(n, k, b)
  {
    if a < b { BelowGap(n, k, a, b - 1); }
  }

  /** Position i of the list below m holds a monotone configuration with a code below m,
      and exactly i list entries lie below that code. */
  lemma {:induction false} EntryAt(n: nat, k: nat, m: nat, i: nat)
    requires k == 0 || n > 0
    requires m <= Pow(n, k) && i < |MonotoneBelow(n, k, m)|
    ensures var c := MonotoneBelow(n, k, m)[i];
            |c| == k && Below(c, n) && Monotone(c) && Code(n, c) < m
            && |MonotoneBelow(n, k, Code(n, c))| == i
            && Digits(n, k, Code(n, c)) == c
  {
    CodeOfDigits(n, k, m - 1);
    if i < |MonotoneBelow(n, k, m - 1)| {
      EntryAt(n, k, m - 1, i);
    }
  }

  /** The list holds exactly the monotone in-range configurations, each at one position only. */
  lemma {:induction false} AllMonotoneExact(n: nat, k: nat, c: Config)
    requires k == 0 || n > 0
    ensures c in AllMonotone(n, k) <==> |c| == k && Below(c, n) && Monotone(c)
    ensures forall i, j :: 0 <= i < j < |AllMonotone(n, k)| ==> AllMonotone(n, k)[i] != AllMonotone(n, k)[j]
  {
    var all := AllMonotone(n, k);
    forall i | 0 <= i < |all|
      ensures |all[i]| == k && Below(all[i], n) && Monotone(all[i])
              && |MonotoneBelow(n, k, Code(n, all[i]))| == i
    {
      EntryAt(n, k, Pow(n, k), i);
    }
    if |c| == k && Below(c, n) && Monotone(c) {
      PositionOf(n, c);
    }
  }

  /** Where a monotone configuration stands in the list. */
  lemma {:induction false} PositionOf(n: nat, c: Config)
    requires (c == [] || n > 0) && Below(c, n) && Monotone(c)
    ensures var i := |MonotoneBelow(n, |c|, Code(n, c))|;
            i < |AllMonotone(n, |c|)| && AllMonotone(n, |c|)[i] == c
  {
    CodeBound(n, c);
    DigitsOfCode(n, c);
    BelowPrefix(n, |c|, Code(n, c) + 1, Pow(n, |c|));
    var v := Code(n, c);
    assert MonotoneBelow(n, |c|, v + 1) == MonotoneBelow(n, |c|, v) + [c];
  }

  // ----- how many there are -----

  ghost function ConfigSet(n: nat, k: nat): set<Config> {
    set c | c in AllMonotone(n, k)
  }

  lemma {:induction false} DistinctSize<T>(s: seq<T>)
    requires forall i, j :: 0 <= i < j < |s| ==> s[i] != s[j]
    ensures |set x | x in s| == |s|
  {
    if s != [] {
      var t := s[..|s| - 1];
      DistinctSize(t);
      assert s == t + [s[|s| - 1]];
      assert (set x | x in s) == (set x | x in t) + {s[|s| - 1]};
    }
  }

  lemma {:induction false} InConfigSet(n: nat, k: nat, c: Config)
    requires k == 0 || n > 0
    ensures c in ConfigSet(n, k) <==> |c| == k && Below(c, n) && Monotone(c)
  {
    AllMonotoneExact(n, k, c);
  }

  lemma {:induction false} SizeOfConfigSet(n: nat, k: nat)
    requires k == 0 || n > 0
    ensures |ConfigSet(n, k)| == |AllMonotone(n, k)|
  {
    AllMonotoneExact(n, k, []);
    DistinctSize(AllMonotone(n, k));
  }

  /** Monotone configurations split by whether their last node uses the largest master. */
  lemma {:induction false} SplitByLast(n: nat, k: nat)
    requires n > 1 && k > 0
    ensures |ConfigSet(n, k)| == |ConfigSet(n - 1, k)| + |ConfigSet(n, k - 1)|
  {
    var m := n - 1;
    var shorter := ConfigSet(n, k - 1);
    var top := set c | c in shorter :: Snoc(c, m);
    AppendSize(shorter, m, top);
    forall c
      ensures c in ConfigSet(n, k) <==> c in ConfigSet(n - 1, k) || c in top
      ensures !(c in ConfigSet(n - 1, k) && c in top)
    {
      SplitOne(n, k, c);
      if c in top {
        var p :| p in ConfigSet(n, k - 1) && c == Snoc(p, n - 1);
        assert c[..k - 1] == p by { InConfigSet(n, k - 1, p); }
      }
    }
    assert ConfigSet(n, k) == ConfigSet(n - 1, k) + top;
    assert ConfigSet(n - 1, k) !! top;
  }

  lemma {:induction false} SplitOne(n: nat, k: nat, c: Config)
    requires n > 1 && k > 0
    ensures c in ConfigSet(n, k) <==>
            c in ConfigSet(n - 1, k) || (|c| == k && c[k - 1] == n - 1 && c[..k - 1] in ConfigSet(n, k - 1))
    ensures |c| == k && c[k - 1] == n - 1 ==> c !in ConfigSet(n - 1, k)
    ensures c in ConfigSet(n, k - 1) ==> |c| == k - 1
    ensures |c| == k && c[k - 1] == n - 1 ==> c == Snoc(c[..k - 1], n - 1)
  {
    InConfigSet(n, k, c);
    InConfigSet(n - 1, k, c);
    InConfigSet(n, k - 1, c);
    if |c| == k {
      InConfigSet(n, k - 1, c[..k - 1]);
      PrefixMonotone(n, c);
      assert c == c[..k - 1] + [c[k - 1]];
    }
  }

  lemma {:induction false} PrefixMonotone(n: nat, c: Config)
    requires n > 1 && c != []
    ensures Below(c, n) && Monotone(c) && c[|c| - 1] < n - 1 ==> Below(c, n - 1)
    ensures c[|c| - 1] == n - 1 ==>
            ((Below(c, n) && Monotone(c)) <==> (Below(c[..|c| - 1], n) && Monotone(c[..|c| - 1])))
  {
    var p, k := c[..|c| - 1], |c|;
    assert forall i :: 0 <= i < k - 1 ==> c[i] == p[i];
    if Below(c, n) && Monotone(c) {
      LastIsLargest(c);
    }
    if c[k - 1] == n - 1 && Below(p, n) && Monotone(p) {
      assert Monotone(c);
    }
  }

  lemma {:induction false} LastIsLargest(c: Config)
    requires Monotone(c) && c != []
    ensures forall i :: 0 <= i < |c| ==> c[i] <= c[|c| - 1]
  {
    if |c| > 1 {
      var d := c[..|c| - 1];
      LastIsLargest(d);
      assert forall i :: 0 <= i < |d| ==> c[i] == d[i];
    }
  }

  function Snoc(c: Config, x: nat): Config {
    c + [x]
  }

  lemma {:induction false} AppendSize(s: set<Config>, x: nat, t: set<Config>)
    requires t == set c | c in s :: Snoc(c, x)
    ensures |t| == |s|
  {
    if s != {} {
      var e :| e in s;
      var t' := set c | c in s - {e} :: Snoc(c, x);
      AppendSize(s - {e}, x, t');
      assert Snoc(e, x) !in t' by {
        forall c | c in s - {e} ensures Snoc(c, x) != Snoc(e, x) {
          assert c == Snoc(c, x)[..|c|] && e == Snoc(e, x)[..|e|];
        }
      }
      assert t == t' + {Snoc(e, x)} by {
        assert Snoc(e, x) in t;
        forall y | y in t ensures y in t' + {Snoc(e, x)} {
          var c :| c in s && y == Snoc(c, x);
        }
      }
    }
  }

  /** Over one master, and over no node, there is exactly one configuration. */
  lemma {:induction false} OneMasterOrNoNode(n: nat, k: nat)
    requires n == 1 || k == 0
    ensures |AllMonotone(n, k)| == 1
  {
    if k == 0 {
      assert MonotoneBelow(n, k, 1) == MonotoneBelow(n, k, 0) + [Digits(n, k, 0)];
    } else {
      PowOne(k);
      DigitsOfMultiple(1, k, 0);
      assert MonotoneBelow(1, k, 1) == MonotoneBelow(1, k, 0) + [Digits(1, k, 0)];
    }
  }

  lemma {:induction false} PowOne(k: nat)
    ensures Pow(1, k) == 1
  {
    if k > 0 { PowOne(k - 1); }
  }

  lemma {:induction false} BinomialDiagonal(k: nat, n: nat)
    requires n <= k
    ensures Binomial(n, k) == if n == k then 1 else 0
    decreases n
  {
    if n > 0 {
      BinomialDiagonal(k - 1, n - 1);
      BinomialDiagonal(k, n - 1);
    }
  }

  /** The number of monotone configurations is the number of multisets of size k over n. */
  lemma {:induction false} CountIsBinomial(n: nat, k: nat)
    requires n > 0
    ensures |AllMonotone(n, k)| == Binomial(n + k - 1, k)
    decreases n + k
  {
    if n == 1 || k == 0 {
      OneMasterOrNoNode(n, k);
      BinomialDiagonal(k, k);
    } else {
      SplitByLast(n, k);
      SizeOfConfigSet(n, k);
      SizeOfConfigSet(n - 1, k);
      SizeOfConfigSet(n, k - 1);
      CountIsBinomial(n - 1, k);
      CountIsBinomial(n, k - 1);
      assert Binomial(n + k - 1, k) == Binomial(n + k - 2, k - 1) + Binomial(n + k - 2, k);
    }
  }

  lemma {:induction false} BinomialOne(n: nat)
    ensures Binomial(n, 1) == n
  {
    if n > 0 { BinomialOne(n - 1); }
  }

  /** A single node has one configuration per master, so a count for one node is 1 exactly if
      there is a single master. */
  lemma {:induction false} CountForOneNode(n: nat)
    requires n > 0
    ensures |AllMonotone(n, 1)| == n && (|AllMonotone(n, 1)| == 1 <==> n == 1)
  {
    CountIsBinomial(n, 1);
    BinomialOne(n);
  }

  // ----- one step of the walk -----

  /** w is the first code after v whose digits are monotone. */
  ghost predicate FirstMonotoneAfter(n: nat, k: nat, v: nat, w: nat)
    requires k == 0 || n > 0
  {
    v < w && MonotoneCode(n, k, w) && forall u :: v < u < w ==> !MonotoneCode(n, k, u)
  }

  /** The configuration d belongs to the first monotone code after that of c. */
  ghost predicate Follows(n: nat, c: Config, d: Config)
    requires n > 0
  {
    exists w: nat :: FirstMonotoneAfter(n, |c|, Code(n, c), w) && d == Digits(n, |c|, w)
  }

  function CyclicNext(i: nat, size: nat): (j: nat)
    requires i < size
    ensures j < size
  {
    if i + 1 == size then 0 else i + 1
  }

  lemma {:induction false} NextBelow(n: nat, k: nat, v: nat)
    requires n > 0 && MonotoneCode(n, k, v)
    ensures MonotoneBelow(n, k, v + 1) == MonotoneBelow(n, k, v) + [Digits(n, k, v)]
  {
  }

  lemma {:induction false} FirstOf<T>(x: T, all: seq<T>)
    requires [x] <= all
    ensures |all| > 0 && all[0] == x
  {
    assert [x][0] == x;
  }

  lemma {:induction false} FirstEntry(n: nat, k: nat)
    requires n > 0
    ensures |AllMonotone(n, k)| > 0 && AllMonotone(n, k)[0] == Digits(n, k, Pow(n, k)) == Digits(n, k, 0)
  {
    DigitsOfMultiple(n, k, 1);
    DigitsOfMultiple(n, k, 0);
    PowPositive(n, k);
    BelowPrefix(n, k, 1, Pow(n, k));
    NextBelow(n, k, 0);
    FirstOf(Digits(n, k, 0), AllMonotone(n, k));
  }

  lemma {:induction false} NextEntry(n: nat, k: nat, v: nat, w: nat)
    requires n > 0 && MonotoneCode(n, k, v) && FirstMonotoneAfter(n, k, v, w) && w < Pow(n, k)
    ensures var i := |MonotoneBelow(n, k, v)|;
            i + 1 < |AllMonotone(n, k)| && AllMonotone(n, k)[i + 1] == Digits(n, k, w)
  {
    BelowGap(n, k, v + 1, w);
    BelowPrefix(n, k, w + 1, Pow(n, k));
    NextBelow(n, k, v);
    NextBelow(n, k, w);
    SecondAfter(MonotoneBelow(n, k, v), Digits(n, k, v), Digits(n, k, w), AllMonotone(n, k));
  }

  lemma {:induction false} SecondAfter<T>(p: seq<T>, x: T, y: T, all: seq<T>)
    requires p + [x] + [y] <= all
    ensures |p| + 1 < |all| && all[|p| + 1] == y
  {
    assert (p + [x] + [y])[|p| + 1] == y;
  }

  /** After the last entry the counter reaches n^k, whose digits are all zero. */
  lemma {:induction false} WrapEntry(n: nat, k: nat, v: nat, w: nat)
    requires n > 0 && MonotoneCode(n, k, v) && FirstMonotoneAfter(n, k, v, w) && v < Pow(n, k) <= w
    ensures |MonotoneBelow(n, k, v)| + 1 == |AllMonotone(n, k)| && AllMonotone(n, k)[0] == Digits(n, k, w)
  {
    assert w == Pow(n, k) by { DigitsOfMultiple(n, k, 1); }
    BelowGap(n, k, v + 1, w);
    assert MonotoneBelow(n, k, v + 1) == MonotoneBelow(n, k, v) + [Digits(n, k, v)];
    FirstEntry(n, k);
  }

  /** Stepping from position i of the list leads to position i + 1, cyclically. */
  lemma {:induction false} StepIsCyclicSuccessor(n: nat, k: nat, i: nat, next: Config)
    requires n > 0 && i < |AllMonotone(n, k)| && Follows(n, AllMonotone(n, k)[i], next)
    ensures next == AllMonotone(n, k)[CyclicNext(i, |AllMonotone(n, k)|)]
  {
    var v := Code(n, AllMonotone(n, k)[i]);
    EntryAt(n, k, Pow(n, k), i);
    var w: nat :| FirstMonotoneAfter(n, k, v, w) && next == Digits(n, k, w);
    if w < Pow(n, k) {
      NextEntry(n, k, v, w);
    } else {
      WrapEntry(n, k, v, w);
    }
  }

  /** Taking |s| steps from position i reads s off from i to the end and then from the start,
      and so every entry exactly once. */
  function Rotation<T>(s: seq<T>, i: nat): (r: seq<T>)
    requires i <= |s|
    ensures |r| == |s| && multiset(r) == multiset(s)
  {
    assert s == s[..i] + s[i..];
    s[i..] + s[..i]
  }

  /** A rotation of the list meets every monotone in-range configuration exactly once and
      nothing else. */
  lemma {:induction false} RotationCoversOnce(n: nat, k: nat, i: nat, c: Config)
    requires (k == 0 || n > 0) && i <= |AllMonotone(n, k)|
    ensures multiset(Rotation(AllMonotone(n, k), i))[c]
            == if |c| == k && Below(c, n) && Monotone(c) then 1 else 0
  {
    AllMonotoneExact(n, k, c);
    OccursOnce(AllMonotone(n, k), c);
  }

  lemma {:induction false} OccursOnce<T>(s: seq<T>, x: T)
    requires forall i, j :: 0 <= i < j < |s| ==> s[i] != s[j]
    ensures multiset(s)[x] == if x in s then 1 else 0
  {
    if s != [] {
      var t := s[..|s| - 1];
      OccursOnce(t, x);
      assert s == t + [s[|s| - 1]];
    }
  }
}
