/** A clock tree as it grows out of its root net: what every added chain and sink keeps. */
module TreeGrowth {
  import opened Netlists

  /** Net j hangs d nets below net r. */
  ghost predicate HangsAt<T>(nets: Netlist<T>, r: nat, j: nat, d: nat)
    decreases d
  {
    if d == 0 then j == r && r < |nets|
    else exists i: nat :: HangsAt(nets, r, i, d - 1) && Feeds(nets, i, j)
  }

  ghost predicate HasFeeder<T>(nets: Netlist<T>, r: nat, j: nat) {
    exists i: nat :: r <= i < j && Feeds(nets, i, j)
  }

  /** Every net after r is driven by a sink of an earlier net from r on. */
  ghost predicate Hung<T>(nets: Netlist<T>, r: nat) {
    r < |nets| && forall j: nat {:trigger HasFeeder(nets, r, j)} :: r < j < |nets| ==> HasFeeder(nets, r, j)
  }

  /** The root reaches every net that has been added since. */
  lemma {:induction false} RootReaches<T>(nets: Netlist<T>, r: nat, j: nat) returns (d: nat)
    requires Hung(nets, r) && r <= j < |nets|
    ensures HangsAt(nets, r, j, d)
    decreases j
  {
    if j == r {
      d := 0;
    } else {
      assert HasFeeder(nets, r, j);
      var i: nat :| r <= i < j && Feeds(nets, i, j);
      var e := RootReaches(nets, r, i);
      d := e + 1;
    }
  }

  /** From a to b nets have only got longer. */
  ghost predicate Grown<T>(a: Netlist<T>, b: Netlist<T>) {
    |a| <= |b| && forall i :: 0 <= i < |a| ==> a[i] != [] && a[i] <= b[i]
  }

  lemma {:induction false} FeedsKept<T>(a: Netlist<T>, b: Netlist<T>, i: nat, j: nat)
    requires Grown(a, b) && Feeds(a, i, j)
    ensures Feeds(b, i, j)
  {
    PrefixSinks(a[i], b[i], a[j][0]);
  }

  lemma {:induction false} HangsKept<T>(a: Netlist<T>, b: Netlist<T>, r: nat, j: nat, d: nat)
    requires Grown(a, b) && HangsAt(a, r, j, d)
    ensures HangsAt(b, r, j, d)
    decreases d
  {
    if d > 0 {
      var i: nat :| HangsAt(a, r, i, d - 1) && Feeds(a, i, j);
      HangsKept(a, b, r, i, d - 1);
      FeedsKept(a, b, i, j);
    }
  }

  lemma {:induction false} FeederKept<T>(a: Netlist<T>, b: Netlist<T>, r: nat, j: nat)
    requires Grown(a, b) && HasFeeder(a, r, j)
    ensures HasFeeder(b, r, j)
  {
    var i: nat :| r <= i < j && Feeds(a, i, j);
    FeedsKept(a, b, i, j);
  }

  // ----- growing -----

  lemma {:induction false} OneLinkGrows<T>(nets: Netlist<T>, k: nat, b: T)
    requires Driven(nets) && k < |nets|
    ensures Driven(OneLink(nets, k, b)) && Grown(nets, OneLink(nets, k, b)) && Feeds(OneLink(nets, k, b), k, |nets|)
  {
    var one := OneLink(nets, k, b);
    assert one[k][1..] == nets[k][1..] + [b];
  }

  lemma {:induction false} OneLinkHung<T>(nets: Netlist<T>, r: nat, k: nat, b: T)
    requires Driven(nets) && r <= k < |nets| && Hung(nets, r)
    ensures Hung(OneLink(nets, k, b), r)
  {
    var one := OneLink(nets, k, b);
    OneLinkGrows(nets, k, b);
    forall j: nat | r < j < |one|
      ensures HasFeeder(one, r, j)
    {
      if j < |nets| {
        FeederKept(nets, one, r, j);
      }
    }
  }

  lemma {:induction false} GrownOn<T>(a: Netlist<T>, b: Netlist<T>, c: Netlist<T>)
    requires Grown(a, b) && Grown(b, c)
    ensures Grown(a, c)
  {
  }

  /** A chain keeps the tree a tree, and its end hangs as much deeper as it has buffers. */
  lemma {:induction false} LinksGrow<T>(nets: Netlist<T>, r: nat, k: nat, bufs: seq<T>, i: nat, d: nat)
    requires Driven(nets) && r <= k < |nets| && i <= |bufs| && Hung(nets, r) && HangsAt(nets, r, k, d)
    ensures var n := Links(nets, k, bufs, i);
            && Driven(n) && Grown(nets, n) && Hung(n, r) && r <= Tail(|nets|, k, i)
            && HangsAt(n, r, Tail(|nets|, k, i), d + i)
  {
    if i > 0 {
      var t, n := Tail(|nets|, k, i - 1), Links(nets, k, bufs, i - 1);
      LinksGrow(nets, r, k, bufs, i - 1, d);
      OneLinkGrows(n, t, bufs[i - 1]);
      OneLinkHung(n, r, t, bufs[i - 1]);
      HangsKept(n, Links(nets, k, bufs, i), r, t, d + i - 1);
      GrownOn(nets, n, Links(nets, k, bufs, i));
    }
  }

  lemma {:induction false} AttachGrows<T>(nets: Netlist<T>, r: nat, k: nat, cluster: seq<T>)
    requires Driven(nets) && r <= k < |nets| && Hung(nets, r)
    ensures Driven(Attach(nets, k, cluster)) && Grown(nets, Attach(nets, k, cluster)) && Hung(Attach(nets, k, cluster), r)
  {
    var n := Attach(nets, k, cluster);
    forall j: nat | r < j < |n|
      ensures HasFeeder(n, r, j)
    {
      FeederKept(nets, n, r, j);
    }
  }

  // ----- the tree so far -----

  /** The nets from |n0| on are a tree: each of the buffers drives one of them, in order; each but
      the first is a sink of exactly one net; besides these there are exactly the `hung` sinks; and
      the nets there were before are as they were. */
  ghost predicate Tree<T>(n0: Netlist<T>, nets: Netlist<T>, bufs: seq<T>, hung: multiset<T>) {
    && Driven(n0) && Driven(nets) && bufs != [] && |nets| == |n0| + |bufs|
    && Drivers(nets) == Drivers(n0) + bufs
    && AllSinks(nets) == AllSinks(n0) + multiset(bufs[1..]) + hung
    && (forall j :: 0 <= j < |n0| ==> nets[j] == n0[j])
    && Hung(nets, |n0|)
  }

  lemma {:induction false} TreeRoot<T>(n0: Netlist<T>, b: T)
    requires Driven(n0)
    ensures Tree(n0, n0 + [[b]], [b], multiset{}) && HangsAt(n0 + [[b]], |n0|, |n0|, 0)
  {
    AllSinksSnoc(n0, [b]);
    assert SinksOf([b]) == multiset{};
    assert Drivers(n0 + [[b]]) == Drivers(n0) + [b];
  }

  /** Hang a chain of new buffers below net k. */
  lemma {:induction false} TreeChain<T>(n0: Netlist<T>, nets: Netlist<T>, bufs: seq<T>, hung: multiset<T>, k: nat, more: seq<T>, d: nat)
    requires Tree(n0, nets, bufs, hung) && |n0| <= k < |nets| && HangsAt(nets, |n0|, k, d)
    ensures Tree(n0, Links(nets, k, more, |more|), bufs + more, hung)
  {
    LinksGrow(nets, |n0|, k, more, |more|, d);
    ChainedFrame(n0, nets, k, more);
    ChainedDrivers(nets, k, Drivers(n0), bufs, more);
    ChainedSinks(nets, k, AllSinks(n0), bufs, more, hung);
  }

  lemma {:induction false} ChainedFrame<T>(n0: Netlist<T>, nets: Netlist<T>, k: nat, more: seq<T>)
    requires |n0| <= k < |nets| && forall j :: 0 <= j < |n0| ==> nets[j] == n0[j]
    ensures forall j :: 0 <= j < |n0| ==> Links(nets, k, more, |more|)[j] == n0[j]
  {
    LinksFrame(nets, k, more, |more|);
  }

  lemma {:induction false} ChainedDrivers<T>(nets: Netlist<T>, k: nat, drivers: seq<T>, bufs: seq<T>, more: seq<T>)
    requires Driven(nets) && k < |nets| && Drivers(nets) == drivers + bufs
    ensures Driven(Links(nets, k, more, |more|)) && Drivers(Links(nets, k, more, |more|)) == drivers + (bufs + more)
  {
    LinksDrivers(nets, k, more, |more|);
    assert more[..|more|] == more;
    assert drivers + bufs + more == drivers + (bufs + more);
  }

  lemma {:induction false} ChainedSinks<T>(nets: Netlist<T>, k: nat, sinks: multiset<T>, bufs: seq<T>, more: seq<T>,
                                           hung: multiset<T>)
    requires Driven(nets) && k < |nets| && bufs != [] && AllSinks(nets) == sinks + multiset(bufs[1..]) + hung
    ensures AllSinks(Links(nets, k, more, |more|)) == sinks + multiset((bufs + more)[1..]) + hung
  {
    LinksSinks(nets, k, more, |more|);
    assert more[..|more|] == more;
    assert (bufs + more)[1..] == bufs[1..] + more;
    SumUp(AllSinks(Links(nets, k, more, |more|)), AllSinks(nets), sinks, bufs[1..], more, hung);
  }

  lemma {:induction false} SumUp<T>(n: multiset<T>, nets: multiset<T>, n0: multiset<T>, a: seq<T>, b: seq<T>, hung: multiset<T>)
    requires n == nets + multiset(b) && nets == n0 + multiset(a) + hung
    ensures n == n0 + multiset(a + b) + hung
  {
  }

  /** Attach sinks to net k. */
  lemma {:induction false} TreeAttach<T>(n0: Netlist<T>, nets: Netlist<T>, bufs: seq<T>, hung: multiset<T>, k: nat, cluster: seq<T>)
    requires Tree(n0, nets, bufs, hung) && |n0| <= k < |nets|
    ensures Tree(n0, Attach(nets, k, cluster), bufs, hung + multiset(cluster))
  {
    AttachGrows(nets, |n0|, k, cluster);
    AllSinksAttach(nets, k, cluster);
    assert Drivers(Attach(nets, k, cluster)) == Drivers(nets);
  }

  // ----- what a tree means for a single instance -----

  /** The new buffers and the sinks to hang have nothing in common, none comes twice, the buffers are
      on none of the nets before the tree, and the sinks are sinks of none of them. */
  ghost predicate Separate<T>(n0: Netlist<T>, bufs: seq<T>, sinks: seq<T>) {
    && (forall i, k :: 0 <= i < k < |bufs| ==> bufs[i] != bufs[k])
    && (forall i, k :: 0 <= i < k < |sinks| ==> sinks[i] != sinks[k])
    && (forall x :: x in bufs ==> x !in sinks && Absent(n0, x))
    && (forall x :: x in sinks ==> x !in AllSinks(n0))
  }

  lemma {:induction false} CountOne<T>(s: seq<T>, x: T)
    requires (forall i, k :: 0 <= i < k < |s| ==> s[i] != s[k]) && x in s
    ensures multiset(s)[x] == 1
  {
    var n := |s| - 1;
    assert s == s[..n] + [s[n]];
    if x == s[n] {
      assert x !in s[..n];
    } else {
      CountOne(s[..n], x);
    }
  }

  /** Every sink and every buffer but the root is on exactly one net, which the root reaches. */
  lemma {:induction false} OnOneNet<T>(n0: Netlist<T>, nets: Netlist<T>, bufs: seq<T>, sinks: seq<T>, x: T)
    returns (j: nat, d: nat)
    requires Tree(n0, nets, bufs, multiset(sinks)) && Separate(n0, bufs, sinks)
    requires x in bufs[1..] || x in sinks
    ensures |n0| <= j && SinkOn(nets, j, x) && HangsAt(nets, |n0|, j, d)
    ensures forall k: nat :: SinkOn(nets, k, x) ==> k == j
  {
    CountSinks(n0, nets, bufs, sinks, x);
    var p;
    j, p := FindSink(nets, x);
    assert nets[j][1..][p - 1] == x;
    if j < |n0| {
      SinkInAll(n0, j, p);
    }
    forall k: nat | SinkOn(nets, k, x)
      ensures k == j
    {
      if k < j { SinkTwice(nets, k, j, x); } else if j < k { SinkTwice(nets, j, k, x); }
    }
    d := RootReaches(nets, |n0|, j);
  }

  lemma {:induction false} CountSinks<T>(n0: Netlist<T>, nets: Netlist<T>, bufs: seq<T>, sinks: seq<T>, x: T)
    requires Tree(n0, nets, bufs, multiset(sinks)) && Separate(n0, bufs, sinks)
    requires x in bufs[1..] || x in sinks
    ensures AllSinks(nets)[x] == 1 && x !in AllSinks(n0)
  {
    assert forall i, k :: 0 <= i < k < |bufs[1..]| ==> bufs[1..][i] != bufs[1..][k];
    assert forall y :: y in bufs[1..] ==> y in bufs;
    if x in bufs[1..] {
      NoSink(n0, x);
      CountOne(bufs[1..], x);
      assert x !in multiset(sinks);
    } else {
      CountOne(sinks, x);
      assert x !in multiset(bufs[1..]);
    }
  }

  /** Every buffer drives exactly one net. */
  lemma {:induction false} DrivesOneNet<T>(n0: Netlist<T>, nets: Netlist<T>, bufs: seq<T>, sinks: seq<T>, i: nat)
    requires Tree(n0, nets, bufs, multiset(sinks)) && Separate(n0, bufs, sinks) && i < |bufs|
    ensures nets[|n0| + i][0] == bufs[i]
    ensures forall k: nat :: k < |nets| && nets[k][0] == bufs[i] ==> k == |n0| + i
  {
    assert Drivers(nets)[|n0| + i] == bufs[i];
    forall k: nat | k < |nets| && nets[k][0] == bufs[i]
      ensures k == |n0| + i
    {
      assert Drivers(nets)[k] == bufs[i];
      assert Absent(n0, bufs[i]);
    }
  }

  /** A net from before the tree hangs in it if its driver has been hung. */
  lemma {:induction false} OldNetHangs<T>(n0: Netlist<T>, nets: Netlist<T>, bufs: seq<T>, sinks: seq<T>, j: nat) returns (d: nat)
    requires Tree(n0, nets, bufs, multiset(sinks)) && Separate(n0, bufs, sinks)
    requires j < |n0| && n0[j][0] in sinks
    ensures HangsAt(nets, |n0|, j, d)
  {
    var k, e := OnOneNet(n0, nets, bufs, sinks, n0[j][0]);
    assert Feeds(nets, k, j);
    d := e + 1;
  }

  /** x is a sink of one net only, which hangs below net r. */
  ghost predicate OnOne<T>(nets: Netlist<T>, r: nat, x: T) {
    exists j: nat, d: nat :: r <= j && HangsAt(nets, r, j, d) && OnlyOn(nets, j, x)
  }

  ghost predicate OnlyOn<T>(nets: Netlist<T>, j: nat, x: T) {
    SinkOn(nets, j, x) && AllSinks(nets)[x] == 1 && forall k: nat :: SinkOn(nets, k, x) ==> k == j
  }

  /** Net j, and no other one, is driven by x. */
  ghost predicate DrivesOnly<T>(nets: Netlist<T>, j: nat, x: T)
    requires Driven(nets)
  {
    j < |nets| && nets[j][0] == x && forall k: nat :: k < |nets| && nets[k][0] == x ==> k == j
  }

  ghost predicate HangsBelow<T>(nets: Netlist<T>, r: nat, j: nat) {
    exists d: nat :: HangsAt(nets, r, j, d)
  }

  /** One tree: each of the sinks, and each of the buffers but the first, is a sink of exactly one
      net, there once, and the root reaches that net; each buffer drives exactly one net; the root
      reaches every net there is but those from before, and these too if their drivers were among
      the sinks. */
  ghost predicate OneTree<T>(n0: Netlist<T>, nets: Netlist<T>, bufs: seq<T>, sinks: seq<T>) {
    && Tree(n0, nets, bufs, multiset(sinks))
    && (forall x :: x in bufs[1..] ==> OnOne(nets, |n0|, x))
    && (forall x :: x in sinks ==> OnOne(nets, |n0|, x))
    && (forall i :: 0 <= i < |bufs| ==> DrivesOnly(nets, |n0| + i, bufs[i]))
    && (forall j: nat :: |n0| <= j < |nets| ==> HangsBelow(nets, |n0|, j))
    && (forall j: nat :: j < |n0| && n0[j][0] in sinks ==> HangsBelow(nets, |n0|, j))
  }

  lemma {:induction false} TreeIsOne<T>(n0: Netlist<T>, nets: Netlist<T>, bufs: seq<T>, sinks: seq<T>)
    requires Tree(n0, nets, bufs, multiset(sinks)) && Separate(n0, bufs, sinks)
    ensures OneTree(n0, nets, bufs, sinks)
  {
    forall x | x in bufs[1..] || x in sinks
      ensures OnOne(nets, |n0|, x)
    {
      var j, d := OnOneNet(n0, nets, bufs, sinks, x);
      CountSinks(n0, nets, bufs, sinks, x);
      assert OnlyOn(nets, j, x);
    }
    forall i | 0 <= i < |bufs|
      ensures DrivesOnly(nets, |n0| + i, bufs[i])
    {
      DrivesOneNet(n0, nets, bufs, sinks, i);
    }
    forall j: nat | |n0| <= j < |nets|
      ensures HangsBelow(nets, |n0|, j)
    {
      var d := RootReaches(nets, |n0|, j);
    }
    forall j: nat | j < |n0| && n0[j][0] in sinks
      ensures HangsBelow(nets, |n0|, j)
    {
      var d := OldNetHangs(n0, nets, bufs, sinks, j);
    }
  }

  /** The sinks of two netlists put together. */
  lemma {:induction false} AllSinksJoin<T>(a: Netlist<T>, b: Netlist<T>)
    ensures AllSinks(a + b) == AllSinks(a) + AllSinks(b)
    decreases |b|
  {
    if b == [] {
      NothingJoined(a, b);
    } else {
      var most, last := LastOff(a, b);
      AllSinksJoin(a, most);
      JoinStep(a, most, last, b, a + most, a + b);
    }
  }

  lemma {:induction false} NothingJoined<T>(a: Netlist<T>, b: Netlist<T>)
    requires b == []
    ensures AllSinks(a + b) == AllSinks(a) + AllSinks(b)
  {
    assert a + b == a;
  }

  lemma {:induction false} LastOff<T>(a: Netlist<T>, b: Netlist<T>) returns (most: Netlist<T>, last: seq<T>)
    requires b != []
    ensures |most| < |b| && b == most + [last] && a + b == (a + most) + [last]
  {
    most, last := b[..|b| - 1], b[|b| - 1];
  }

  lemma {:induction false} JoinStep<T>(a: Netlist<T>, most: Netlist<T>, last: seq<T>, b: Netlist<T>, am: Netlist<T>, ab: Netlist<T>)
    requires b == most + [last] && ab == am + [last] && AllSinks(am) == AllSinks(a) + AllSinks(most)
    ensures AllSinks(ab) == AllSinks(a) + AllSinks(b)
  {
    Appended(most, b, last);
    Appended(am, ab, last);
    SumOn(AllSinks(a), AllSinks(most), AllSinks(am), SinksOf(last), AllSinks(b), AllSinks(ab));
  }

  lemma {:induction false} Appended<T>(nets: Netlist<T>, more: Netlist<T>, net: seq<T>)
    requires more == nets + [net]
    ensures AllSinks(more) == AllSinks(nets) + SinksOf(net)
  {
    AllSinksSnoc(nets, net);
  }

  lemma {:induction false} SumOn<T>(a: multiset<T>, b: multiset<T>, ab: multiset<T>, more: multiset<T>, b': multiset<T>, ab': multiset<T>)
    requires ab == a + b && b' == b + more && ab' == ab + more
    ensures ab' == a + b'
  {
  }
}
