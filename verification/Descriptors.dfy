/** Topology descriptors: the list of wires and buffer masters that spells out where the
    buffers of one characterization pattern sit.  A wire is held as its number of nodes;
    its length is that number times the wire segment unit. */
module Descriptors {
  import Arithmetic

  datatype Entry = Wire(nodes: nat) | Master(name: string)

  type Descriptor = seq<Entry>

  function Pow2(i: nat): (p: nat)
    ensures p > 0
  {
    if i == 0 then 1 else 2 * Pow2(i - 1)
  }

  /** Bit i of a pattern number, as a set of 5 bits holds it. */
  predicate Bit(counter: nat, i: nat) {
    i < 5 && (counter / Pow2(i)) % 2 == 1
  }

  /** Which nodes of pattern `counter` hold a buffer. */
  function Mask(counter: nat, nodes: nat): seq<bool> {
    seq(nodes, i requires i >= 0 => Bit(counter, i))
  }

  /** A run of nodes without a buffer. */
  function Clear(k: nat): (c: seq<bool>)
    ensures |c| == k && forall i :: 0 <= i < k ==> !c[i]
  {
    seq(k, _ => false)
  }

  // Of the first n nodes of a mask: how many hold a buffer, how many follow the last buffer,
  // where the buffers sit (as nodes counted from the input), and the descriptor part that
  // ends in the last buffer.

  function CountSet(mask: seq<bool>, n: nat): nat
    requires n <= |mask|
  {
    if n == 0 then 0 else CountSet(mask, n - 1) + if mask[n - 1] then 1 else 0
  }

  function Trailing(mask: seq<bool>, n: nat): (t: nat)
    requires n <= |mask|
    ensures t <= n
  {
    if n == 0 || mask[n - 1] then 0 else 1 + Trailing(mask, n - 1)
  }

  function Taps(mask: seq<bool>, n: nat): seq<nat>
    requires n <= |mask|
  {
    if n == 0 then [] else Taps(mask, n - 1) + if mask[n - 1] then [n] else []
  }

  function Buffered(mask: seq<bool>, n: nat, buf: string): Descriptor
    requires n <= |mask|
  {
    if n == 0 then []
    else if mask[n - 1]
    then Buffered(mask, n - 1, buf) + [Wire(Trailing(mask, n - 1) + 1), Master(buf)]
    else Buffered(mask, n - 1, buf)
  }

  /** The whole descriptor: the buffered part and, unless a buffer ends it, the last wire. */
  function Describe(mask: seq<bool>, buf: string): Descriptor {
    var t := Trailing(mask, |mask|);
    Buffered(mask, |mask|, buf) + if t == 0 then [] else [Wire(t)]
  }

  // ----- reading a descriptor back -----

  function Masters(d: Descriptor): seq<string> {
    if d == [] then []
    else Masters(d[..|d| - 1]) + if d[|d| - 1].Master? then [d[|d| - 1].name] else []
  }

  /** The mask read off a descriptor: each wire stands for its nodes, and a buffer sets the
      last node of the wire before it. */
  function Recover(d: Descriptor): seq<bool> {
    if d == [] then []
    else
      var before := Recover(d[..|d| - 1]);
      match d[|d| - 1]
      case Wire(k) => before + Clear(k)
      case Master(_) => if before == [] then [] else before[..|before| - 1] + [true]
  }

  /** The shape of every pattern descriptor: wires of at least one node, each followed by a
      buffer except possibly the last one. */
  predicate WellFormed(d: Descriptor, buf: string) {
    && (forall i :: 0 <= i < |d| ==> (d[i].Wire? <==> i % 2 == 0))
    && (forall i :: 0 <= i < |d| && d[i].Wire? ==> d[i].nodes > 0)
    && (forall i :: 0 <= i < |d| && d[i].Master? ==> d[i].name == buf)
  }

  /** The wire lengths, in nodes, of the wires that a buffer follows. */
  function Hops(d: Descriptor): seq<nat> {
    if d == [] then []
    else
      Hops(d[..|d| - 1]) +
      if d[|d| - 1].Master? && |d| > 1 && d[|d| - 2].Wire? then [d[|d| - 2].nodes] else []
  }

  function PrefixSums(s: seq<nat>): (p: seq<nat>)
    ensures |p| == |s|
  {
    if s == [] then []
    else
      var p := PrefixSums(s[..|s| - 1]);
      p + [(if p == [] then 0 else p[|p| - 1]) + s[|s| - 1]]
  }

  /** Total number of nodes spelled out by the wires. */
  function WireNodes(d: Descriptor): nat {
    if d == [] then 0
    else WireNodes(d[..|d| - 1]) + if d[|d| - 1].Wire? then d[|d| - 1].nodes else 0
  }

  lemma {:induction false} TrailingClear(mask: seq<bool>, n: nat)
    requires n <= |mask|
    ensures forall i :: n - Trailing(mask, n) <= i < n ==> !mask[i]
    ensures Trailing(mask, n) < n ==> mask[n - Trailing(mask, n) - 1]
  {
    if n > 0 && !mask[n - 1] {
      TrailingClear(mask, n - 1);
    }
  }

  lemma {:induction false} SamePrefix(a: seq<bool>, b: seq<bool>, n: nat, buf: string)
    requires n <= |a| && n <= |b| && forall i :: 0 <= i < n ==> a[i] == b[i]
    ensures Trailing(a, n) == Trailing(b, n) && Buffered(a, n, buf) == Buffered(b, n, buf)
  {
    if n > 0 {
      SamePrefix(a, b, n - 1, buf);
    }
  }

  // One more entry, one more node: what each function does at the end of its argument.

  lemma {:induction false} EntrySnoc(d: Descriptor, e: Entry)
    ensures e.Wire? ==> Recover(d + [e]) == Recover(d) + Clear(e.nodes)
    ensures e.Master? && Recover(d) != [] ==> Recover(d + [e]) == Recover(d)[..|Recover(d)| - 1] + [true]
    ensures Masters(d + [e]) == Masters(d) + if e.Master? then [e.name] else []
    ensures WireNodes(d + [e]) == WireNodes(d) + if e.Wire? then e.nodes else 0
    ensures e.Wire? ==> Hops(d + [e]) == Hops(d)
  {
    assert (d + [e])[..|d|] == d;
  }

  lemma {:induction false} WireMasterSnoc(d: Descriptor, k: nat, b: string)
    requires k > 0
    ensures var d' := d + [Wire(k), Master(b)];
            && Recover(d') == Recover(d) + Clear(k - 1) + [true]
            && Masters(d') == Masters(d) + [b]
            && WireNodes(d') == WireNodes(d) + k
            && Hops(d') == Hops(d) + [k]
  {
    var e := d + [Wire(k)];
    EntrySnoc(d, Wire(k));
    EntrySnoc(e, Master(b));
    assert d + [Wire(k), Master(b)] == e + [Master(b)];
    assert (e + [Master(b)])[..|e|] == e;
    assert (Recover(d) + Clear(k))[..|Recover(d)| + k - 1] == Recover(d) + Clear(k - 1);
  }

  lemma {:induction false} PrefixSumsSnoc(s: seq<nat>, x: nat)
    ensures PrefixSums(s + [x]) == PrefixSums(s) + [x + if s == [] then 0 else PrefixSums(s)[|s| - 1]]
  {
    assert (s + [x])[..|s|] == s;
  }

  /** The buffered part reads back as the mask up to its last buffer. */
  lemma {:induction false} ReadBuffered(m: seq<bool>, n: nat, buf: string)
    requires n <= |m|
    ensures Recover(Buffered(m, n, buf)) == m[..n - Trailing(m, n)]
  {
    if n > 0 {
      ReadBuffered(m, n - 1, buf);
      if m[n - 1] {
        var t := Trailing(m, n - 1);
        WireMasterSnoc(Buffered(m, n - 1, buf), t + 1, buf);
        RunThenBuffer(m, n);
      }
    }
  }

  lemma {:induction false} RunThenBuffer(m: seq<bool>, n: nat)
    requires 0 < n <= |m| && m[n - 1]
    ensures var t := Trailing(m, n - 1); m[..n] == m[..n - 1 - t] + Clear(t) + [true]
  {
    TrailingClear(m, n - 1);
  }

  /** The wires of the buffered part cover the nodes up to its last buffer, and all its
      buffers are the given one. */
  lemma {:induction false} BufferedNodes(m: seq<bool>, n: nat, buf: string)
    requires n <= |m|
    ensures WireNodes(Buffered(m, n, buf)) == n - Trailing(m, n)
    ensures |Masters(Buffered(m, n, buf))| == CountSet(m, n)
    ensures forall b :: b in Masters(Buffered(m, n, buf)) ==> b == buf
  {
    if n > 0 {
      BufferedNodes(m, n - 1, buf);
      if m[n - 1] {
        WireMasterSnoc(Buffered(m, n - 1, buf), Trailing(m, n - 1) + 1, buf);
      }
    }
  }

  lemma {:induction false} TapsShape(m: seq<bool>, n: nat)
    requires n <= |m|
    ensures |Taps(m, n)| == CountSet(m, n)
    ensures n - Trailing(m, n) == if Taps(m, n) == [] then 0 else Taps(m, n)[|Taps(m, n)| - 1]
  {
    if n > 0 {
      TapsShape(m, n - 1);
    }
  }

  ghost predicate SumsAre(d: Descriptor, taps: seq<nat>) {
    PrefixSums(Hops(d)) == taps
  }

  /** What one more wire and buffer add to the sums. */
  lemma {:induction false} OneMoreHop(d: Descriptor, k: nat, b: string, taps: seq<nat>)
    requires k > 0 && SumsAre(d, taps)
    ensures SumsAre(d + [Wire(k), Master(b)], taps + [k + if taps == [] then 0 else taps[|taps| - 1]])
  {
    WireMasterSnoc(d, k, b);
    PrefixSumsSnoc(Hops(d), k);
  }

  lemma {:induction false} SumsAreTaps(m: seq<bool>, n: nat, buf: string)
    requires n <= |m|
    ensures SumsAre(Buffered(m, n, buf), Taps(m, n))
  {
    if n > 0 {
      SumsAreTaps(m, n - 1, buf);
      if m[n - 1] {
        TapsShape(m, n - 1);
        OneMoreHop(Buffered(m, n - 1, buf), Trailing(m, n - 1) + 1, buf, Taps(m, n - 1));
      }
    }
  }

  /** The wires in front of the buffers, summed up, are the positions of the set bits. */
  lemma {:induction false} HopsAreTaps(m: seq<bool>, n: nat, buf: string)
    requires n <= |m|
    ensures PrefixSums(Hops(Buffered(m, n, buf))) == Taps(m, n)
  {
    SumsAreTaps(m, n, buf);
  }

  lemma {:induction false} BufferedWellFormed(m: seq<bool>, n: nat, buf: string)
    requires n <= |m|
    ensures WellFormed(Buffered(m, n, buf), buf) && |Buffered(m, n, buf)| == 2 * CountSet(m, n)
  {
    if n > 0 {
      BufferedWellFormed(m, n - 1, buf);
    }
  }

  /** Round trip: the descriptor of a mask reads back as that mask, and its wires cover the
      tested length exactly. */
  lemma {:induction false} RecoverDescribe(m: seq<bool>, buf: string)
    ensures Recover(Describe(m, buf)) == m
    ensures WireNodes(Describe(m, buf)) == |m|
  {
    var n := |m|;
    var t, d := Trailing(m, n), Buffered(m, n, buf);
    ReadBuffered(m, n, buf);
    BufferedNodes(m, n, buf);
    if t > 0 {
      EntrySnoc(d, Wire(t));
      assert m == m[..n - t] + Clear(t) by { TrailingClear(m, n); }
    } else {
      assert Describe(m, buf) == d;
      assert m[..n] == m;
    }
  }

  /** A pattern descriptor is well-formed and names the given buffer once for every set bit. */
  lemma {:induction false} DescribeWellFormed(m: seq<bool>, buf: string)
    ensures WellFormed(Describe(m, buf), buf)
    ensures |Masters(Describe(m, buf))| == CountSet(m, |m|)
    ensures forall b :: b in Masters(Describe(m, buf)) ==> b == buf
  {
    var t, d := Trailing(m, |m|), Buffered(m, |m|, buf);
    BufferedNodes(m, |m|, buf);
    BufferedWellFormed(m, |m|, buf);
    if t > 0 {
      LastWire(d, t, buf);
    } else {
      assert Describe(m, buf) == d;
    }
  }

  lemma {:induction false} LastWire(d: Descriptor, t: nat, buf: string)
    requires WellFormed(d, buf) && |d| % 2 == 0 && t > 0
    ensures WellFormed(d + [Wire(t)], buf) && Masters(d + [Wire(t)]) == Masters(d)
  {
    assert Masters(d + [Wire(t)]) == Masters(d) by { EntrySnoc(d, Wire(t)); }
  }

  lemma {:induction false} ClearTail(m: seq<bool>, k: nat, n: nat, buf: string)
    requires |m| <= n <= |m| + k
    ensures var m' := m + Clear(k);
            && Trailing(m', n) == Trailing(m, |m|) + n - |m|
            && Buffered(m', n, buf) == Buffered(m, |m|, buf)
  {
    var m' := m + Clear(k);
    if n == |m| {
      SamePrefix(m, m', n, buf);
    } else {
      ClearTail(m, k, n - 1, buf);
    }
  }

  lemma {:induction false} ClearThenBuffer(m: seq<bool>, k: nat, buf: string)
    ensures var m' := m + Clear(k) + [true];
            && Trailing(m', |m'|) == 0
            && Describe(m', buf)
               == Buffered(m, |m|, buf) + [Wire(Trailing(m, |m|) + k + 1), Master(buf)]
  {
    var c := m + Clear(k);
    ClearTail(m, k, |c|, buf);
    SamePrefix(c, c + [true], |c|, buf);
  }

  lemma {:induction false} ClearAtEnd(m: seq<bool>, k: nat, buf: string)
    requires k > 0 && Trailing(m, |m|) == 0
    ensures Describe(m + Clear(k), buf) == Describe(m, buf) + [Wire(k)]
  {
    var m' := m + Clear(k);
    var n' := |m'|;
    assert Trailing(m', n') == k && Buffered(m', n', buf) == Buffered(m, |m|, buf) by {
      ClearTail(m, k, n', buf);
    }
    assert Describe(m, buf) == Buffered(m, |m|, buf) + [];
  }

  /** m is the mask that d describes, with no node after the last buffer when d ends in one. */
  ghost predicate Describes(m: seq<bool>, d: Descriptor, buf: string) {
    Describe(m, buf) == d && (|d| % 2 == 0 ==> Trailing(m, |m|) == 0)
  }

  /** The other way round: every well-formed descriptor is the descriptor of the mask it reads as. */
  lemma {:induction false} DescribeRecover(d: Descriptor, buf: string)
    requires WellFormed(d, buf)
    ensures Describe(Recover(d), buf) == d
    ensures Describes(Recover(d), d, buf)
    decreases |d|
  {
    if d == [] {
    } else if d[|d| - 1].Wire? {
      WireEnds(d, buf);
      DescribeRecover(d[..|d| - 1], buf);
      AddWire(Recover(d[..|d| - 1]), d[..|d| - 1], d[|d| - 1].nodes, buf);
    } else {
      MasterEnds(d, buf);
      DescribeRecover(d[..|d| - 2], buf);
      AddBuffer(Recover(d[..|d| - 2]), d[..|d| - 2], d[|d| - 2].nodes, buf);
    }
  }

  lemma {:induction false} AddWire(m: seq<bool>, e: Descriptor, k: nat, buf: string)
    requires Describes(m, e, buf) && |e| % 2 == 0 && k > 0
    ensures Describes(m + Clear(k), e + [Wire(k)], buf)
  {
    ClearAtEnd(m, k, buf);
  }

  lemma {:induction false} AddBuffer(m: seq<bool>, f: Descriptor, k: nat, buf: string)
    requires Describes(m, f, buf) && |f| % 2 == 0 && k > 0
    ensures Describes(m + Clear(k - 1) + [true], f + [Wire(k), Master(buf)], buf)
  {
    ClearThenBuffer(m, k - 1, buf);
    assert Describe(m, buf) == Buffered(m, |m|, buf) + [];
  }

  lemma {:induction false} WireEnds(d: Descriptor, buf: string)
    requires WellFormed(d, buf) && d != [] && d[|d| - 1].Wire?
    ensures var e, k := d[..|d| - 1], d[|d| - 1].nodes;
            && WellFormed(e, buf) && |e| % 2 == 0 && |d| % 2 == 1 && k > 0
            && d == e + [Wire(k)] && Recover(d) == Recover(e) + Clear(k)
  {
    var e, k := d[..|d| - 1], d[|d| - 1].nodes;
    assert d == e + [Wire(k)];
    EntrySnoc(e, Wire(k));
  }

  lemma {:induction false} MasterEnds(d: Descriptor, buf: string)
    requires WellFormed(d, buf) && d != [] && d[|d| - 1].Master?
    ensures |d| >= 2 && d[|d| - 2].Wire?
    ensures var f, k := d[..|d| - 2], d[|d| - 2].nodes;
            && WellFormed(f, buf) && |f| % 2 == 0 && k > 0
            && d == f + [Wire(k), Master(buf)] && Recover(d) == Recover(f) + Clear(k - 1) + [true]
  {
    var f, k := d[..|d| - 2], d[|d| - 2].nodes;
    assert d[|d| - 2].Wire? && d[|d| - 1] == Master(buf);
    assert d == f + [Wire(k), Master(buf)];
    WireMasterSnoc(f, k, buf);
  }

  // ----- pattern numbers and masks -----

  lemma {:induction false} BitsDetermine(a: nat, b: nat, nodes: nat)
    requires a < Pow2(nodes) && b < Pow2(nodes)
    requires forall i :: 0 <= i < nodes ==> (a / Pow2(i)) % 2 == (b / Pow2(i)) % 2
    ensures a == b
  {
    if nodes > 0 {
      assert a % 2 == b % 2 by { assert (a / Pow2(0)) % 2 == (b / Pow2(0)) % 2; }
      forall i | 0 <= i < nodes - 1
        ensures (a / 2 / Pow2(i)) % 2 == (b / 2 / Pow2(i)) % 2
      {
        HalveThenShift(a, i);
        HalveThenShift(b, i);
        assert (a / Pow2(i + 1)) % 2 == (b / Pow2(i + 1)) % 2;
      }
      BitsDetermine(a / 2, b / 2, nodes - 1);
    }
  }

  lemma {:induction false} HalveThenShift(a: nat, i: nat)
    ensures a / 2 / Pow2(i) == a / Pow2(i + 1)
  {
    Arithmetic.DivDiv(a, Pow2(i));
  }

  /** The number that a mask spells, each node standing for a power of two. */
  function Spelled(mask: seq<bool>, n: nat): nat
    requires n <= |mask|
  {
    if n == 0 then 0 else Spelled(mask, n - 1) + if mask[n - 1] then Pow2(n - 1) else 0
  }

  lemma {:induction false} Regroup(p: nat, h: nat, b: nat)
    requires b <= 1
    ensures p * (2 * h + b) == (if b == 1 then p else 0) + 2 * p * h
  {
  }

  lemma {:induction false} ModTwice(a: nat, p: nat)
    requires p > 0
    ensures a % (2 * p) == a % p + if (a / p) % 2 == 1 then p else 0
  {
    var q, r := a / p, a % p;
    Regroup(p, q / 2, q % 2);
    assert a == r + p * q;
    assert q == 2 * (q / 2) + q % 2;
    Arithmetic.DivModUnique(2 * p, r + if q % 2 == 1 then p else 0, q / 2);
  }

  /** The mask of a pattern spells the pattern's number, up to the bits there are. */
  lemma {:induction false} MaskSpells(counter: nat, nodes: nat, n: nat)
    requires n <= nodes
    ensures Spelled(Mask(counter, nodes), n) == counter % Pow2(if n <= 5 then n else 5)
  {
    if n > 0 {
      MaskSpells(counter, nodes, n - 1);
      if n <= 5 { ModTwice(counter, Pow2(n - 1)); }
    }
  }

  /** Different pattern numbers give different masks exactly when there are at most five nodes:
      a sixth node has no bit of its own. */
  lemma {:induction false} MasksDifferIff(nodes: nat)
    ensures (forall a, b :: 0 <= a < b < Pow2(nodes) ==> Mask(a, nodes) != Mask(b, nodes)) <==> nodes <= 5
  {
    if nodes <= 5 {
      forall a, b | 0 <= a < b < Pow2(nodes)
        ensures Mask(a, nodes) != Mask(b, nodes)
      {
        if Mask(a, nodes) == Mask(b, nodes) {
          forall i | 0 <= i < nodes
            ensures (a / Pow2(i)) % 2 == (b / Pow2(i)) % 2
          {
            assert Mask(a, nodes)[i] == Mask(b, nodes)[i];
          }
          BitsDetermine(a, b, nodes);
        }
      }
    } else {
      Pow2Grows(6, nodes);
      assert Pow2(5) == 32;
      forall i | 0 <= i < 5
        ensures Bit(0, i) == Bit(32, i)
      {
        assert i == 0 || i == 1 || i == 2 || i == 3 || i == 4;
        assert Pow2(0) == 1 && Pow2(1) == 2 && Pow2(2) == 4 && Pow2(3) == 8 && Pow2(4) == 16;
      }
      assert Mask(0, nodes) == Mask(32, nodes);
    }
  }

  lemma {:induction false} Pow2Grows(i: nat, j: nat)
    requires i <= j
    ensures Pow2(i) <= Pow2(j)
  {
    if i < j { Pow2Grows(i, j - 1); }
  }
}
