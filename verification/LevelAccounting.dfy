/** Book-keeping for one clock while its sinks are moved behind level buffers. */
module LevelAccounting {
  import opened Netlists
  import opened ClockNets
  import opened BuilderTrees

  // ----- grouping the sinks of a net by level -----

  function LevelOf(m: Gaters, currLevel: nat, x: ClockInst): nat {
    Extra(m, x) + currLevel
  }

  /** Of the first n sinks, the real ones whose level is among the keys, in order.  Instances
      without an input pin are tree buffers and stay where they are. */
  function Group(m: Gaters, currLevel: nat, sinks: seq<ClockInst>, n: nat, keys: set<nat>): (r: seq<ClockInst>)
    requires n <= |sinks|
    ensures forall x :: x in r ==> x in sinks[..n] && x.gate.Some? && LevelOf(m, currLevel, x) in keys
    ensures forall x :: x in sinks[..n] && x.gate.Some? && LevelOf(m, currLevel, x) in keys ==> x in r
  {
    if n == 0 then []
    else
      assert sinks[..n] == sinks[..n - 1] + [sinks[n - 1]];
      var r, x := Group(m, currLevel, sinks, n - 1, keys), sinks[n - 1];
      if x.gate.Some? && LevelOf(m, currLevel, x) in keys then r + [x] else r
  }

  function RealSet(sinks: seq<ClockInst>): set<ClockInst> {
    set x | x in sinks && x.gate.Some?
  }

  function Levels(m: Gaters, currLevel: nat, sinks: seq<ClockInst>): set<nat> {
    set x | x in sinks && x.gate.Some? :: LevelOf(m, currLevel, x)
  }

  /** The first n sinks have been sorted by level. */
  ghost predicate Sorted(m: Gaters, currLevel: nat, sinks: seq<ClockInst>, n: nat,
                         clusters: map<nat, seq<ClockInst>>, gated: set<ClockInst>) {
    && n <= |sinks| && gated == RealSet(sinks[..n])
    && clusters.Keys == Levels(m, currLevel, sinks[..n])
    && forall l: nat :: Filed(clusters, l) == Group(m, currLevel, sinks, n, {l})
  }

  function Filed(clusters: map<nat, seq<ClockInst>>, l: nat): seq<ClockInst> {
    if l in clusters then clusters[l] else []
  }

  lemma {:induction false} SortedStep(m: Gaters, currLevel: nat, sinks: seq<ClockInst>, n: nat,
                   clusters: map<nat, seq<ClockInst>>, gated: set<ClockInst>)
    requires Sorted(m, currLevel, sinks, n, clusters, gated) && n < |sinks|
    ensures var x, l := sinks[n], LevelOf(m, currLevel, sinks[n]);
            if x.gate.Some?
            then Sorted(m, currLevel, sinks, n + 1, clusters[l := Filed(clusters, l) + [x]], gated + {x})
            else Sorted(m, currLevel, sinks, n + 1, clusters, gated)
  {
    var x, l := sinks[n], LevelOf(m, currLevel, sinks[n]);
    assert sinks[..n + 1] == sinks[..n] + [x];
    if x.gate.Some? {
      var clusters' := clusters[l := Filed(clusters, l) + [x]];
      assert Levels(m, currLevel, sinks[..n + 1]) == Levels(m, currLevel, sinks[..n]) + {l};
      assert RealSet(sinks[..n + 1]) == RealSet(sinks[..n]) + {x};
      forall k: nat
        ensures Filed(clusters', k) == Group(m, currLevel, sinks, n + 1, {k})
      {
        assert Filed(clusters, k) == Group(m, currLevel, sinks, n, {k});
      }
    } else {
      assert Levels(m, currLevel, sinks[..n + 1]) == Levels(m, currLevel, sinks[..n]);
      assert RealSet(sinks[..n + 1]) == RealSet(sinks[..n]);
      forall k: nat
        ensures Filed(clusters, k) == Group(m, currLevel, sinks, n + 1, {k})
      {
        assert Filed(clusters, k) == Group(m, currLevel, sinks, n, {k});
      }
    }
  }

  lemma {:induction false} GroupDistinct(m: Gaters, currLevel: nat, sinks: seq<ClockInst>, n: nat, keys: set<nat>)
    requires n <= |sinks| && Distinct(sinks)
    ensures Distinct(Group(m, currLevel, sinks, n, keys))
  {
    if n > 0 {
      GroupDistinct(m, currLevel, sinks, n - 1, keys);
      var r := Group(m, currLevel, sinks, n - 1, keys);
      assert forall p :: 0 <= p < |r| ==> r[p] in r;
      assert sinks[n - 1] !in sinks[..n - 1];
    }
  }

  lemma {:induction false} CountOne<T>(s: seq<T>, y: T, x: T)
    ensures multiset(s + [y])[x] == multiset(s)[x] + if y == x then 1 else 0
  {
  }

  /** How often x is in the group. */
  lemma {:induction false} GroupCount(m: Gaters, currLevel: nat, sinks: seq<ClockInst>, n: nat, keys: set<nat>, x: ClockInst)
    requires n <= |sinks|
    ensures multiset(Group(m, currLevel, sinks, n, keys))[x]
            == if x.gate.Some? && LevelOf(m, currLevel, x) in keys then multiset(sinks[..n])[x] else 0
  {
    if n > 0 {
      GroupCount(m, currLevel, sinks, n - 1, keys, x);
      assert sinks[..n] == sinks[..n - 1] + [sinks[n - 1]];
      CountOne(Group(m, currLevel, sinks, n - 1, keys), sinks[n - 1], x);
      CountOne(sinks[..n - 1], sinks[n - 1], x);
    }
  }

  /** Taking one level out of the group. */
  lemma {:induction false} GroupSplit(m: Gaters, currLevel: nat, sinks: seq<ClockInst>, n: nat, keys: set<nat>, l: nat)
    requires n <= |sinks| && l in keys
    ensures multiset(Group(m, currLevel, sinks, n, keys))
            == multiset(Group(m, currLevel, sinks, n, {l})) + multiset(Group(m, currLevel, sinks, n, keys - {l}))
  {
    var whole, one, rest := Group(m, currLevel, sinks, n, keys), Group(m, currLevel, sinks, n, {l}),
                            Group(m, currLevel, sinks, n, keys - {l});
    forall x | x in multiset(whole) + (multiset(one) + multiset(rest))
      ensures multiset(whole)[x] == (multiset(one) + multiset(rest))[x]
    {
      GroupCount(m, currLevel, sinks, n, keys, x);
      GroupCount(m, currLevel, sinks, n, {l}, x);
      GroupCount(m, currLevel, sinks, n, keys - {l}, x);
    }
  }

  /** The real sinks and the rest make up the whole. */
  lemma {:induction false} RealAndRest(m: Gaters, currLevel: nat, sinks: seq<ClockInst>, n: nat, keys: set<nat>,
                                       gone: set<ClockInst>)
    requires n <= |sinks|
    requires forall x :: x in sinks[..n] && x.gate.Some? ==> LevelOf(m, currLevel, x) in keys
    requires forall x :: x in sinks[..n] ==> (x in gone <==> x.gate.Some?)
    ensures multiset(Without(sinks, n, gone)) + multiset(Group(m, currLevel, sinks, n, keys)) == multiset(sinks[..n])
  {
    if n > 0 {
      assert sinks[..n] == sinks[..n - 1] + [sinks[n - 1]];
      RealAndRest(m, currLevel, sinks, n - 1, keys, gone);
    }
  }

  // ----- what balancing keeps -----

  /** The tree buffers of a net stay on it, below the same driver. */
  ghost predicate TreeKept(n0: Netlist<ClockInst>, n: Netlist<ClockInst>) {
    |n0| <= |n| && forall j :: 0 <= j < |n0| ==> NetTreeKept(n0[j], n[j])
  }

  ghost predicate NetTreeKept(a: seq<ClockInst>, z: seq<ClockInst>) {
    a != [] ==>
      && z != [] && z[0] == a[0]
      && forall x :: x in a[1..] && x.gate == None ==> x in z[1..]
  }

  /** From a to z no sink is lost or doubled except that the `pending` ones are still to be put
      back; each buffer added since a is the driver of one added net and a sink of one net; drivers
      stay; tree buffers stay; and the nets from `done` on are as they were. */
  ghost predicate Accounted(a: Shot, z: Shot, done: nat, pending: multiset<ClockInst>) {
    && Driven(a.nets) && Driven(z.nets) && done <= |a.nets| <= |z.nets| && a.bufs <= z.bufs
    && Drivers(z.nets) == Drivers(a.nets) + Added(a, z)
    && AllSinks(z.nets) + pending == AllSinks(a.nets) + multiset(Added(a, z))
    && TreeKept(a.nets, z.nets)
    && forall j :: done <= j < |a.nets| ==> z.nets[j] == a.nets[j]
  }

  ghost function Added(a: Shot, z: Shot): seq<ClockInst>
    requires a.bufs <= z.bufs
  {
    z.bufs[|a.bufs|..]
  }

  /** The buffers have no input pin in the database, and none of them was on a net before. */
  ghost predicate NewTo(a: Shot, bufs: seq<ClockInst>) {
    forall x :: x in bufs ==> x.gate == None && Absent(a.nets, x)
  }

  /** All sinks are back, and all that has come is new buffers with different names. */
  ghost predicate Conserved(a: Shot, z: Shot) {
    Accounted(a, z, |a.nets|, multiset{}) && NamesDiffer(Added(a, z)) && NewTo(a, Added(a, z))
  }

  predicate NamesDiffer(bufs: seq<ClockInst>) {
    forall i, j :: 0 <= i < j < |bufs| ==> bufs[i].name != bufs[j].name
  }

  lemma {:induction false} Unmoved(a: Shot)
    requires Driven(a.nets)
    ensures Accounted(a, a, 0, multiset{}) && Conserved(a, a)
  {
  }

  /** The real sinks of net k are taken off. */
  ghost function Stripped(z: Shot, k: nat, gone: set<ClockInst>): Shot
    requires k < |z.nets| && z.nets[k] != []
  {
    var sinks := z.nets[k][1..];
    z.(nets := z.nets[k := [z.nets[k][0]] + Without(sinks, |sinks|, gone)])
  }

  lemma {:induction false} OneNetStripped(n: Netlist<ClockInst>, n': Netlist<ClockInst>, k: nat, gone: set<ClockInst>,
                                          bufs: seq<ClockInst>)
    requires |n| == |n'| && k < |n| && n[k] != [] && (forall i :: 0 <= i < |n| && i != k ==> n'[i] == n[i])
    requires n'[k] == [n[k][0]] + Without(n[k][1..], |n[k][1..]|, gone)
    ensures Shot(n', bufs) == Stripped(Shot(n, bufs), k, gone)
  {
    assert n' == n[k := n'[k]];
  }

  /** The sinks of net k that are not taken off, and those that are to be put back. */
  lemma {:induction false} StripSinks(nets: Netlist<ClockInst>, k: nat, sinks: seq<ClockInst>, m: Gaters, currLevel: nat,
                                      net': seq<ClockInst>)
    requires k < |nets| && nets[k] != [] && sinks == nets[k][1..]
    requires net' == [nets[k][0]] + Without(sinks, |sinks|, RealSet(sinks))
    ensures AllSinks(nets[k := net']) + multiset(Group(m, currLevel, sinks, |sinks|, Levels(m, currLevel, sinks))) == AllSinks(nets)
  {
    assert sinks[..|sinks|] == sinks;
    RealAndRest(m, currLevel, sinks, |sinks|, Levels(m, currLevel, sinks), RealSet(sinks));
    AllSinksUpdate(nets, k, net');
    assert net'[1..] == Without(sinks, |sinks|, RealSet(sinks));
    PutAside(AllSinks(nets[k := net']), AllSinks(nets), multiset(sinks), SinksOf(net'),
             multiset(Group(m, currLevel, sinks, |sinks|, Levels(m, currLevel, sinks))));
  }

  lemma {:induction false} StripAccounted(a: Shot, z: Shot, k: nat, m: Gaters, currLevel: nat)
    requires Accounted(a, z, k, multiset{}) && k < |a.nets|
    ensures var sinks := a.nets[k][1..];
            && z.nets[k] == a.nets[k]
            && Accounted(a, Stripped(z, k, RealSet(sinks)), k + 1,
                         multiset(Group(m, currLevel, sinks, |sinks|, Levels(m, currLevel, sinks))))
  {
    var sinks := a.nets[k][1..];
    var net' := [a.nets[k][0]] + Without(sinks, |sinks|, RealSet(sinks));
    assert Drivers(z.nets[k := net']) == Drivers(z.nets);
    StripSinks(z.nets, k, sinks, m, currLevel, net');
    StripKeepsTree(a, z, k);
  }

  lemma {:induction false} PutAside<T>(after: multiset<T>, before: multiset<T>, whole: multiset<T>, kept: multiset<T>, aside: multiset<T>)
    requires after + whole == before + kept && kept + aside == whole
    ensures after + aside == before
  {
    assert forall x :: (after + whole)[x] == after[x] + whole[x] && (before + kept)[x] == before[x] + kept[x]
                       && (kept + aside)[x] == kept[x] + aside[x] && (after + aside)[x] == after[x] + aside[x];
    assert forall x :: (after + aside)[x] == before[x];
  }

  lemma {:induction false} StripKeepsTree(a: Shot, z: Shot, k: nat)
    requires Accounted(a, z, k, multiset{}) && k < |a.nets|
    ensures TreeKept(a.nets, Stripped(z, k, RealSet(a.nets[k][1..])).nets)
  {
    var sinks := a.nets[k][1..];
    var r := Without(sinks, |sinks|, RealSet(sinks));
    assert sinks[..|sinks|] == sinks;
    var net' := [a.nets[k][0]] + r;
    assert net'[1..] == r;
    assert NetTreeKept(a.nets[k], net');
  }

  /** A cluster is put back behind a chain of new buffers. */
  ghost function Chained(z: Shot, k: nat, cluster: seq<ClockInst>, bufs: seq<ClockInst>): Shot
    requires k < |z.nets|
  {
    Shot(WithChain(z.nets, k, cluster, bufs), z.bufs + bufs)
  }

  lemma {:induction false} ChainSinksAccounted(a: Shot, z: Shot, done: nat, k: nat, cluster: seq<ClockInst>,
                                              bufs: seq<ClockInst>, pending: multiset<ClockInst>)
    requires Accounted(a, z, done, multiset(cluster) + pending) && k < done
    ensures AllSinks(WithChain(z.nets, k, cluster, bufs)) + pending == AllSinks(a.nets) + multiset(Added(a, z) + bufs)
  {
    ChainSinks(z.nets, k, cluster, bufs);
    PutBack(AllSinks(a.nets), AllSinks(z.nets), AllSinks(WithChain(z.nets, k, cluster, bufs)), Added(a, z), bufs,
            multiset(cluster), pending);
  }

  /** The nets with a chain: the old ones untouched, and the buffers driving the added ones. */
  lemma {:induction false} ChainDriversAccounted(a: Shot, z: Shot, done: nat, k: nat, cluster: seq<ClockInst>,
                                                bufs: seq<ClockInst>, pending: multiset<ClockInst>)
    requires Accounted(a, z, done, pending) && k < done
    ensures var n := WithChain(z.nets, k, cluster, bufs);
            && Driven(n) && |a.nets| <= |n| && Drivers(n) == Drivers(a.nets) + (Added(a, z) + bufs)
            && forall j :: done <= j < |a.nets| ==> n[j] == a.nets[j]
  {
    ChainDrivers(z.nets, k, cluster, bufs);
    ChainFrame(z.nets, k, cluster, bufs);
  }

  lemma {:induction false} ChainAccounted(a: Shot, z: Shot, done: nat, k: nat, cluster: seq<ClockInst>, bufs: seq<ClockInst>,
                       pending: multiset<ClockInst>)
    requires Accounted(a, z, done, multiset(cluster) + pending) && k < done
    ensures Accounted(a, Chained(z, k, cluster, bufs), done, pending)
  {
    var z' := Chained(z, k, cluster, bufs);
    assert Added(a, z') == Added(a, z) + bufs;
    ChainDriversAccounted(a, z, done, k, cluster, bufs, multiset(cluster) + pending);
    ChainSinksAccounted(a, z, done, k, cluster, bufs, pending);
    ChainKeepsTree(a, z, done, k, cluster, bufs, multiset(cluster) + pending);
  }

  lemma {:induction false} PutBack(a: multiset<ClockInst>, z: multiset<ClockInst>, z': multiset<ClockInst>,
                added: seq<ClockInst>, bufs: seq<ClockInst>, cluster: multiset<ClockInst>, pending: multiset<ClockInst>)
    requires z + (cluster + pending) == a + multiset(added) && z' == z + multiset(bufs) + cluster
    ensures z' + pending == a + multiset(added + bufs)
  {
    assert z' + pending == z + (cluster + pending) + multiset(bufs);
  }

  lemma {:induction false} ChainKeepsTree(a: Shot, z: Shot, done: nat, k: nat, cluster: seq<ClockInst>, bufs: seq<ClockInst>,
                       pending: multiset<ClockInst>)
    requires Accounted(a, z, done, pending) && k < done
    ensures TreeKept(a.nets, WithChain(z.nets, k, cluster, bufs))
  {
    var n := WithChain(z.nets, k, cluster, bufs);
    ChainFrame(z.nets, k, cluster, bufs);
    forall j | 0 <= j < |a.nets|
      ensures NetTreeKept(a.nets[j], n[j])
    {
      assert NetTreeKept(a.nets[j], z.nets[j]);
      forall x | x in a.nets[j][1..] && x.gate == None
        ensures x in n[j][1..]
      {
        PrefixSinks(z.nets[j], n[j], x);
      }
    }
  }

  /** What putting a cluster of net k back does to the account of the clock. */
  ghost predicate ChainedTo(a: Shot, z: Shot, z': Shot, k: nat, cluster: seq<ClockInst>, bufs: seq<ClockInst>,
                            pending: multiset<ClockInst>) {
    && a.bufs <= z.bufs && Accounted(a, z', k + 1, pending)
    && Keeps(z.nets, z'.nets, k + 1, |a.nets|)
    && Added(a, z') == Added(a, z) + bufs
    && AllPlaced(z'.nets, k + 1, |a.nets|, cluster, |bufs|)
  }

  lemma {:induction false} ChainShot(a: Shot, z: Shot, k: nat, cluster: seq<ClockInst>, bufs: seq<ClockInst>,
                  pending: multiset<ClockInst>)
    requires Accounted(a, z, k + 1, multiset(cluster) + pending)
    ensures ChainedTo(a, z, Chained(z, k, cluster, bufs), k, cluster, bufs, pending)
  {
    ChainAccounted(a, z, k + 1, k, cluster, bufs, pending);
    ChainKept(a, z, k, cluster, bufs);
  }

  /** The rest of it: what does not depend on the account. */
  lemma {:induction false} ChainKept(a: Shot, z: Shot, k: nat, cluster: seq<ClockInst>, bufs: seq<ClockInst>)
    requires Driven(z.nets) && k < |a.nets| <= |z.nets| && a.bufs <= z.bufs
    ensures var z' := Chained(z, k, cluster, bufs);
            && Keeps(z.nets, z'.nets, k + 1, |a.nets|) && a.bufs <= z'.bufs && Added(a, z') == Added(a, z) + bufs
            && AllPlaced(z'.nets, k + 1, |a.nets|, cluster, |bufs|)
  {
    ChainKeeps(z, k + 1, |a.nets|, k, cluster, bufs);
    ChainPlacesAll(z.nets, k + 1, |a.nets|, k, cluster, bufs);
  }

  /** Putting the cluster back leaves every other finished net as it was or longer. */
  lemma {:induction false} ChainKeeps(z: Shot, done: nat, base: nat, k: nat, cluster: seq<ClockInst>, bufs: seq<ClockInst>)
    requires Driven(z.nets) && k < done <= base <= |z.nets|
    ensures Keeps(z.nets, Chained(z, k, cluster, bufs).nets, done, base)
  {
    ChainFrame(z.nets, k, cluster, bufs);
  }

  lemma {:induction false} StripKeeps(z: Shot, k: nat, base: nat, gone: set<ClockInst>)
    requires Driven(z.nets) && k < base <= |z.nets|
    ensures Keeps(z.nets, Stripped(z, k, gone).nets, k, base)
  {
  }
}
