/** Netlists as values: a list of nets, each a list of instances with the driver first. */
module Netlists {

  type Netlist<T> = seq<seq<T>>

  ghost predicate Driven<T>(nets: Netlist<T>) {
    forall j :: 0 <= j < |nets| ==> nets[j] != []
  }

  /** Net i drives net j: the driver of j is a sink of i. */
  ghost predicate Feeds<T>(nets: Netlist<T>, i: nat, j: nat) {
    i < |nets| && j < |nets| && nets[i] != [] && nets[j] != [] && nets[j][0] in nets[i][1..]
  }

  /** The net that the next buffer of a chain hangs on, once the chain below net k has i buffers
      and the chain began with n nets. */
  function Tail(n: nat, k: nat, i: nat): (t: nat)
    requires k < n
    ensures t < n + i
  {
    if i == 0 then k else n + i - 1
  }

  /** Add buffer b as a sink of net k and as the driver of a new net. */
  ghost function OneLink<T>(nets: Netlist<T>, k: nat, b: T): (r: Netlist<T>)
    requires k < |nets|
    ensures |r| == |nets| + 1 && r[|nets|] == [b]
  {
    nets[k := nets[k] + [b]] + [[b]]
  }

  /** Hang the first i of the buffers below net k, each on the net the one before it drives. */
  ghost function Links<T>(nets: Netlist<T>, k: nat, bufs: seq<T>, i: nat): (r: Netlist<T>)
    requires k < |nets| && i <= |bufs|
    ensures |r| == |nets| + i
  {
    if i == 0 then nets
    else OneLink(Links(nets, k, bufs, i - 1), Tail(|nets|, k, i - 1), bufs[i - 1])
  }

  /** Hang a chain of buffers below net k and put the cluster on its last net. */
  ghost function WithChain<T>(nets: Netlist<T>, k: nat, cluster: seq<T>, bufs: seq<T>): (r: Netlist<T>)
    requires k < |nets|
    ensures |r| == |nets| + |bufs|
  {
    Attach(Links(nets, k, bufs, |bufs|), Tail(|nets|, k, |bufs|), cluster)
  }

  ghost function Attach<T>(nets: Netlist<T>, k: nat, more: seq<T>): (r: Netlist<T>)
    requires k < |nets|
    ensures |r| == |nets|
  {
    nets[k := nets[k] + more]
  }

  lemma {:induction false} AttachTwice<T>(nets: Netlist<T>, k: nat, a: seq<T>, b: seq<T>)
    requires k < |nets|
    ensures Attach(Attach(nets, k, a), k, b) == Attach(nets, k, a + b) && Attach(nets, k, []) == nets
  {
    assert nets[k] + a + b == nets[k] + (a + b) && nets[k] + [] == nets[k];
  }

  /** All sinks of all nets, counted with multiplicity. */
  ghost function AllSinks<T>(nets: Netlist<T>): multiset<T> {
    if nets == [] then multiset{}
    else AllSinks(nets[..|nets| - 1]) + SinksOf(nets[|nets| - 1])
  }

  ghost function SinksOf<T>(net: seq<T>): multiset<T> {
    if net == [] then multiset{} else multiset(net[1..])
  }

  ghost function Drivers<T>(nets: Netlist<T>): seq<T>
    requires Driven(nets)
  {
    seq(|nets|, j requires 0 <= j < |nets| => nets[j][0])
  }

  // ----- how single updates change the sinks -----

  lemma {:induction false} AllSinksSnoc<T>(nets: Netlist<T>, net: seq<T>)
    ensures AllSinks(nets + [net]) == AllSinks(nets) + SinksOf(net)
  {
    assert (nets + [net])[..|nets|] == nets;
  }

  lemma {:induction false} AllSinksUpdate<T>(nets: Netlist<T>, k: nat, net: seq<T>)
    requires k < |nets|
    ensures AllSinks(nets[k := net]) + SinksOf(nets[k]) == AllSinks(nets) + SinksOf(net)
  {
    var n := |nets| - 1;
    var p, last := nets[..n], nets[n];
    assert nets == p + [last];
    AllSinksSnoc(p, last);
    if k == n {
      assert nets[k := net] == p + [net];
      AllSinksSnoc(p, net);
    } else {
      assert nets[k := net] == p[k := net] + [last];
      AllSinksSnoc(p[k := net], last);
      AllSinksUpdate(p, k, net);
    }
  }

  lemma {:induction false} SinksOfAppend<T>(net: seq<T>, more: seq<T>)
    requires net != []
    ensures SinksOf(net + more) == SinksOf(net) + multiset(more)
  {
    assert (net + more)[1..] == net[1..] + more;
  }

  lemma {:induction false} AllSinksAttach<T>(nets: Netlist<T>, k: nat, more: seq<T>)
    requires k < |nets| && nets[k] != []
    ensures AllSinks(nets[k := nets[k] + more]) == AllSinks(nets) + multiset(more)
  {
    AllSinksUpdate(nets, k, nets[k] + more);
    SinksOfAppend(nets[k], more);
    Cancel(AllSinks(nets[k := nets[k] + more]), AllSinks(nets) + multiset(more), SinksOf(nets[k]));
  }

  lemma {:induction false} Cancel<T>(a: multiset<T>, b: multiset<T>, c: multiset<T>)
    requires a + c == b + c
    ensures a == b
  {
    assert forall x :: (a + c)[x] == a[x] + c[x] && (b + c)[x] == b[x] + c[x];
  }

  lemma {:induction false} SinkInAll<T>(nets: Netlist<T>, j: nat, p: nat)
    requires j < |nets| && 1 <= p < |nets[j]|
    ensures nets[j][p] in AllSinks(nets)
  {
    var n := |nets| - 1;
    if j == n {
      assert nets[j][1..][p - 1] == nets[j][p];
    } else {
      SinkInAll(nets[..n], j, p);
    }
  }

  lemma {:induction false} FindSink<T>(nets: Netlist<T>, x: T) returns (j: nat, p: nat)
    requires x in AllSinks(nets)
    ensures j < |nets| && 1 <= p < |nets[j]| && nets[j][p] == x
  {
    var n := |nets| - 1;
    if x in SinksOf(nets[n]) {
      assert x in nets[n][1..];
      var q :| 0 <= q < |nets[n][1..]| && nets[n][1..][q] == x;
      j, p := n, q + 1;
    } else {
      j, p := FindSink(nets[..n], x);
    }
  }

  /** The instance is on none of the nets. */
  predicate Absent<T(==)>(nets: Netlist<T>, x: T) {
    forall j :: 0 <= j < |nets| ==> x !in nets[j]
  }

  lemma {:induction false} NoSink<T>(nets: Netlist<T>, x: T)
    requires Absent(nets, x)
    ensures x !in AllSinks(nets)
  {
    if x in AllSinks(nets) {
      var j, p := FindSink(nets, x);
      assert false;
    }
  }

  // ----- chains -----

  /** Links change no net but k, only append to k, and add their own nets at the end. */
  lemma {:induction false} LinksFrame<T>(nets: Netlist<T>, k: nat, bufs: seq<T>, i: nat)
    requires k < |nets| && i <= |bufs|
    ensures var r := Links(nets, k, bufs, i);
            && (forall j :: 0 <= j < |nets| && j != k ==> r[j] == nets[j])
            && nets[k] <= r[k]
  {
    if i > 0 { LinksFrame(nets, k, bufs, i - 1); }
  }

  lemma {:induction false} ChainFrame<T>(nets: Netlist<T>, k: nat, cluster: seq<T>, bufs: seq<T>)
    requires k < |nets|
    ensures var r := WithChain(nets, k, cluster, bufs);
            && (forall j :: 0 <= j < |nets| && j != k ==> r[j] == nets[j])
            && nets[k] <= r[k]
  {
    LinksFrame(nets, k, bufs, |bufs|);
  }

  lemma {:induction false} LinkSinks<T>(nets: Netlist<T>, k: nat, b: T)
    requires k < |nets| && Driven(nets)
    ensures AllSinks(OneLink(nets, k, b)) == AllSinks(nets) + multiset([b])
  {
    var hung := nets[k := nets[k] + [b]];
    AllSinksAttach(nets, k, [b]);
    AllSinksSnoc(hung, [b]);
    assert SinksOf([b]) == multiset{};
  }

  lemma {:induction false} LinksDrivers<T>(nets: Netlist<T>, k: nat, bufs: seq<T>, i: nat)
    requires k < |nets| && Driven(nets) && i <= |bufs|
    ensures Driven(Links(nets, k, bufs, i))
    ensures Drivers(Links(nets, k, bufs, i)) == Drivers(nets) + bufs[..i]
  {
    if i > 0 {
      LinksDrivers(nets, k, bufs, i - 1);
      LinkDrivers(Links(nets, k, bufs, i - 1), Tail(|nets|, k, i - 1), bufs[i - 1]);
      assert bufs[..i] == bufs[..i - 1] + [bufs[i - 1]];
    }
  }

  lemma {:induction false} LinkDrivers<T>(nets: Netlist<T>, k: nat, b: T)
    requires k < |nets| && Driven(nets)
    ensures Driven(OneLink(nets, k, b)) && Drivers(OneLink(nets, k, b)) == Drivers(nets) + [b]
  {
  }

  lemma {:induction false} LinksSinks<T>(nets: Netlist<T>, k: nat, bufs: seq<T>, i: nat)
    requires k < |nets| && Driven(nets) && i <= |bufs|
    ensures AllSinks(Links(nets, k, bufs, i)) == AllSinks(nets) + multiset(bufs[..i])
  {
    if i > 0 {
      LinksSinks(nets, k, bufs, i - 1);
      NextLinkSinks(nets, k, bufs, i);
      MultisetSnoc(AllSinks(nets), bufs, i, AllSinks(Links(nets, k, bufs, i - 1)), AllSinks(Links(nets, k, bufs, i)));
    } else {
      assert bufs[..0] == [];
    }
  }

  lemma {:induction false} NextLinkSinks<T>(nets: Netlist<T>, k: nat, bufs: seq<T>, i: nat)
    requires k < |nets| && Driven(nets) && 0 < i <= |bufs|
    ensures AllSinks(Links(nets, k, bufs, i)) == AllSinks(Links(nets, k, bufs, i - 1)) + multiset([bufs[i - 1]])
  {
    LinksDrivers(nets, k, bufs, i - 1);
    LinkSinks(Links(nets, k, bufs, i - 1), Tail(|nets|, k, i - 1), bufs[i - 1]);
  }

  lemma {:induction false} MultisetSnoc<T>(a: multiset<T>, s: seq<T>, i: nat, b: multiset<T>, c: multiset<T>)
    requires 0 < i <= |s|
    requires b == a + multiset(s[..i - 1]) && c == b + multiset([s[i - 1]])
    ensures c == a + multiset(s[..i])
  {
    assert s[..i] == s[..i - 1] + [s[i - 1]];
  }

  /** Every net keeps its driver, and the buffers of a chain drive the nets it adds. */
  lemma {:induction false} ChainDrivers<T>(nets: Netlist<T>, k: nat, cluster: seq<T>, bufs: seq<T>)
    requires k < |nets| && Driven(nets)
    ensures Driven(WithChain(nets, k, cluster, bufs))
    ensures Drivers(WithChain(nets, k, cluster, bufs)) == Drivers(nets) + bufs
  {
    var l := Links(nets, k, bufs, |bufs|);
    LinksDrivers(nets, k, bufs, |bufs|);
    assert bufs[..|bufs|] == bufs;
    assert Drivers(Attach(l, Tail(|nets|, k, |bufs|), cluster)) == Drivers(l);
  }

  /** A chain adds its buffers and the cluster to the sinks. */
  lemma {:induction false} ChainSinks<T>(nets: Netlist<T>, k: nat, cluster: seq<T>, bufs: seq<T>)
    requires k < |nets| && Driven(nets)
    ensures AllSinks(WithChain(nets, k, cluster, bufs)) == AllSinks(nets) + multiset(bufs) + multiset(cluster)
  {
    LinksDrivers(nets, k, bufs, |bufs|);
    LinksSinks(nets, k, bufs, |bufs|);
    assert bufs[..|bufs|] == bufs;
    AllSinksAttach(Links(nets, k, bufs, |bufs|), Tail(|nets|, k, |bufs|), cluster);
  }

  lemma {:induction false} LinksPrefix<T>(nets: Netlist<T>, k: nat, a: seq<T>, b: seq<T>, i: nat)
    requires k < |nets| && i <= |a| && a <= b
    ensures Links(nets, k, a, i) == Links(nets, k, b, i)
  {
    if i > 0 { LinksPrefix(nets, k, a, b, i - 1); }
  }

  lemma {:induction false} LinksSnoc<T>(nets: Netlist<T>, k: nat, bufs: seq<T>, b: T)
    requires k < |nets|
    ensures Links(nets, k, bufs + [b], |bufs| + 1)
            == OneLink(Links(nets, k, bufs, |bufs|), Tail(|nets|, k, |bufs|), b)
  {
    LinksPrefix(nets, k, bufs, bufs + [b], |bufs|);
  }

  lemma {:induction false} TwoConnections<T>(nets: Netlist<T>, t: nat, b: T)
    requires t < |nets|
    ensures Attach(Attach(nets + [[]], t, [b]), |nets|, [b]) == OneLink(nets, t, b)
  {
    assert [] + [b] == [b];
    assert Attach(Attach(nets + [[]], t, [b]), |nets|, [b]) == nets[t := nets[t] + [b]] + [[b]];
  }

  /** Net j hangs below one of the first `done` nets by d nets that were added at or after `base`. */
  ghost predicate AtDepth<T>(nets: Netlist<T>, done: nat, base: nat, j: nat, d: nat)
    decreases d
  {
    if d == 0 then j < done && j < |nets|
    else base <= j < |nets| && exists i: nat :: AtDepth(nets, done, base, i, d - 1) && Feeds(nets, i, j)
  }

  /** The sink x sits on a net that hangs d added nets below one of the first `done` nets. */
  ghost predicate Placed<T>(nets: Netlist<T>, done: nat, base: nat, x: T, d: nat) {
    exists j: nat :: AtDepth(nets, done, base, j, d) && SinkOn(nets, j, x)
  }

  ghost predicate AllPlaced<T>(nets: Netlist<T>, done: nat, base: nat, cluster: seq<T>, d: nat) {
    forall x :: x in cluster ==> Placed(nets, done, base, x, d)
  }

  ghost predicate SinkOn<T>(nets: Netlist<T>, j: nat, x: T) {
    j < |nets| && nets[j] != [] && x in nets[j][1..]
  }

  /** The nets that are finished: before `done`, or added at or after `base`. */
  ghost predicate Keeps<T>(a: Netlist<T>, b: Netlist<T>, done: nat, base: nat) {
    |a| <= |b| && forall i :: 0 <= i < |a| && (i < done || base <= i) ==> a[i] != [] && a[i] <= b[i]
  }

  lemma {:induction false} PrefixSinks<T>(a: seq<T>, b: seq<T>, x: T)
    requires a != [] && a <= b && x in a[1..]
    ensures x in b[1..] && b[0] == a[0]
  {
    var q :| 0 <= q < |a[1..]| && a[1..][q] == x;
    assert b[1..][q] == x;
  }

  /** Depths survive when finished nets only grow. */
  lemma {:induction false} DepthKept<T>(a: Netlist<T>, b: Netlist<T>, done: nat, done': nat, base: nat, j: nat, d: nat)
    requires AtDepth(a, done, base, j, d) && Keeps(a, b, done, base) && done <= done' <= base
    ensures AtDepth(b, done', base, j, d)
    decreases d
  {
    if d > 0 {
      var i: nat :| AtDepth(a, done, base, i, d - 1) && Feeds(a, i, j);
      DepthKept(a, b, done, done', base, i, d - 1);
      Finished(a, done, base, i, d - 1);
      PrefixSinks(a[i], b[i], a[j][0]);
      assert Feeds(b, i, j);
    }
  }

  lemma {:induction false} Finished<T>(nets: Netlist<T>, done: nat, base: nat, j: nat, d: nat)
    requires AtDepth(nets, done, base, j, d)
    ensures j < |nets| && (j < done || base <= j)
  {
  }

  lemma {:induction false} PlacedKept<T>(a: Netlist<T>, b: Netlist<T>, done: nat, done': nat, base: nat, x: T, d: nat)
    requires Placed(a, done, base, x, d) && Keeps(a, b, done, base) && done <= done' <= base
    ensures Placed(b, done', base, x, d)
  {
    var j: nat :| AtDepth(a, done, base, j, d) && SinkOn(a, j, x);
    DepthKept(a, b, done, done', base, j, d);
    Finished(a, done, base, j, d);
    PrefixSinks(a[j], b[j], x);
    assert SinkOn(b, j, x);
  }

  lemma {:induction false} LinkDeeper<T>(nets: Netlist<T>, done: nat, base: nat, k: nat, d: nat, b: T)
    requires Driven(nets) && done <= base <= |nets| && AtDepth(nets, done, base, k, d) && k < |nets|
    ensures Driven(OneLink(nets, k, b)) && AtDepth(OneLink(nets, k, b), done, base, |nets|, d + 1)
  {
    var one := OneLink(nets, k, b);
    DepthKept(nets, one, done, done, base, k, d);
    assert one[k][1..] == nets[k][1..] + [b];
    assert Feeds(one, k, |nets|);
  }

  lemma {:induction false} LinksDeeper<T>(nets: Netlist<T>, done: nat, base: nat, k: nat, bufs: seq<T>, i: nat)
    requires Driven(nets) && k < done <= base <= |nets| && i <= |bufs|
    ensures Driven(Links(nets, k, bufs, i))
    ensures AtDepth(Links(nets, k, bufs, i), done, base, Tail(|nets|, k, i), i)
  {
    if i > 0 {
      LinksDeeper(nets, done, base, k, bufs, i - 1);
      LinkDeeper(Links(nets, k, bufs, i - 1), done, base, Tail(|nets|, k, i - 1), i - 1, bufs[i - 1]);
    }
  }

  /** A chain of n buffers below a finished net places its cluster at depth n. */
  lemma {:induction false} ChainPlaces<T>(nets: Netlist<T>, done: nat, base: nat, k: nat, cluster: seq<T>, bufs: seq<T>, x: T)
    requires Driven(nets) && k < done <= base <= |nets| && x in cluster
    ensures Placed(WithChain(nets, k, cluster, bufs), done, base, x, |bufs|)
  {
    var l, t := Links(nets, k, bufs, |bufs|), Tail(|nets|, k, |bufs|);
    LinksDeeper(nets, done, base, k, bufs, |bufs|);
    var r := Attach(l, t, cluster);
    DepthKept(l, r, done, done, base, t, |bufs|);
    assert r[t][1..] == l[t][1..] + cluster;
    assert SinkOn(r, t, x);
  }

  lemma {:induction false} ChainPlacesAll<T>(nets: Netlist<T>, done: nat, base: nat, k: nat, cluster: seq<T>, bufs: seq<T>)
    requires Driven(nets) && k < done <= base <= |nets|
    ensures AllPlaced(WithChain(nets, k, cluster, bufs), done, base, cluster, |bufs|)
  {
    forall x | x in cluster ensures Placed(WithChain(nets, k, cluster, bufs), done, base, x, |bufs|) {
      ChainPlaces(nets, done, base, k, cluster, bufs, x);
    }
  }

  lemma {:induction false} SinkTwice<T>(nets: Netlist<T>, i: nat, k: nat, x: T)
    requires i < k && SinkOn(nets, i, x) && SinkOn(nets, k, x)
    ensures AllSinks(nets)[x] >= 2
  {
    var n := |nets| - 1;
    if k == n {
      var p :| 0 <= p < |nets[i][1..]| && nets[i][1..][p] == x;
      SinkInAll(nets[..n], i, p + 1);
    } else {
      SinkTwice(nets[..n], i, k, x);
    }
  }
}
