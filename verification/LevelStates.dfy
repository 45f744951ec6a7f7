/** The state of one builder between two steps of balancing, with the names of the buffers it has
    got: what each step does to it, all on values. */
module LevelStates {
  import opened Netlists
  import opened ClockNets
  import opened BuilderTrees
  import opened LevelNames
  import opened LevelAccounting
  import opened LevelProgress

  /** What the buffer added at a level and counter is called. */
  ghost predicate NamedOne(b: ClockInst, netName: string, suffix: string, level: nat, count: nat) {
    b.gate == None && b.name == BufferName(level, suffix, count) + "_" + netName
  }

  /** Names of buffers added in a row, with levels from 0 and counters from `count` on. */
  ghost predicate Named(bufs: seq<ClockInst>, netName: string, suffix: string, count: nat) {
    forall i :: 0 <= i < |bufs| ==> NamedOne(bufs[i], netName, suffix, i, count + i)
  }

  lemma {:induction false} NamedAreNew(a: Shot, bufs: seq<ClockInst>, netName: string, suffix: string, count: nat)
    requires Named(bufs, netName, suffix, count) && forall x :: x in bufs ==> Absent(a.nets, x)
    ensures NewTo(a, bufs)
  {
    forall x | x in bufs
      ensures x.gate == None
    {
      var i :| 0 <= i < |bufs| && bufs[i] == x;
      assert NamedOne(bufs[i], netName, suffix, i, count + i);
    }
  }

  lemma {:induction false} NamedSnoc(bufs: seq<ClockInst>, b: ClockInst, netName: string, suffix: string, count: nat)
    requires Named(bufs, netName, suffix, count)
    requires NamedOne(b, netName, suffix, |bufs|, count + |bufs|)
    ensures Named(bufs + [b], netName, suffix, count)
  {
  }

  /** The names of the buffers come from stamps in order, with counters below `count` and cluster
      numbers up to `cluster`. */
  ghost predicate Stamped(bufs: seq<ClockInst>, netName: string, stamps: seq<Stamp>, cluster: nat, count: nat) {
    && |bufs| == |stamps| && InOrder(stamps)
    && (forall i :: 0 <= i < |bufs| ==> bufs[i].name == StampName(stamps[i]) + "_" + netName)
    && (forall i :: 0 <= i < |bufs| ==> stamps[i].count < count && stamps[i].cluster <= cluster)
  }

  function RowOfStamps(n: nat, subCluster: nat, cluster: nat, count: nat): (r: seq<Stamp>)
    ensures |r| == n
  {
    seq(n, i requires 0 <= i < n => Stamp(i, subCluster, cluster, count + i))
  }

  /** Stamped, with stamps that need not be named. */
  ghost predicate HasStamps(bufs: seq<ClockInst>, netName: string, cluster: nat, count: nat) {
    exists stamps :: Stamped(bufs, netName, stamps, cluster, count)
  }

  lemma {:induction false} RowInOrder(stamps: seq<Stamp>, n: nat, subCluster: nat, cluster: nat, count: nat)
    requires InOrder(stamps)
    requires forall i :: 0 <= i < |stamps| ==> stamps[i].count < count && stamps[i].cluster <= cluster
    ensures InOrder(stamps + RowOfStamps(n, subCluster, cluster, count))
  {
  }

  lemma {:induction false} MoreStamps(bufs: seq<ClockInst>, more: seq<ClockInst>, netName: string,
                                      subCluster: nat, cluster: nat, count: nat, count': nat)
    requires HasStamps(bufs, netName, cluster, count) && count' == count + |more|
    requires Named(more, netName, Suffix(subCluster, cluster), count)
    ensures HasStamps(bufs + more, netName, cluster, count')
  {
    var stamps :| Stamped(bufs, netName, stamps, cluster, count);
    var row := RowOfStamps(|more|, subCluster, cluster, count);
    RowInOrder(stamps, |more|, subCluster, cluster, count);
    forall i | 0 <= i < |more|
      ensures more[i].name == StampName(row[i]) + "_" + netName
    {
      assert NamedOne(more[i], netName, Suffix(subCluster, cluster), i, count + i);
    }
    assert Stamped(bufs + more, netName, stamps + row, cluster, count');
  }

  lemma {:induction false} StampsLater(bufs: seq<ClockInst>, netName: string, cluster: nat, cluster': nat,
                                       count: nat, count': nat)
    requires HasStamps(bufs, netName, cluster, count) && cluster <= cluster' && count <= count'
    ensures HasStamps(bufs, netName, cluster', count')
  {
    var stamps :| Stamped(bufs, netName, stamps, cluster, count);
    assert Stamped(bufs, netName, stamps, cluster', count');
  }

  /** Stamped names are all different. */
  lemma {:induction false} StampedDiffer(bufs: seq<ClockInst>, netName: string, cluster: nat, count: nat)
    requires HasStamps(bufs, netName, cluster, count)
    ensures NamesDiffer(bufs)
  {
    var stamps :| Stamped(bufs, netName, stamps, cluster, count);
    StampedNamesDistinct(stamps);
    FullNamesDiffer(bufs, netName, stamps);
  }

  lemma {:induction false} FullNamesDiffer(bufs: seq<ClockInst>, netName: string, stamps: seq<Stamp>)
    requires |bufs| == |stamps|
    requires forall i :: 0 <= i < |bufs| ==> bufs[i].name == StampName(stamps[i]) + "_" + netName
    requires forall i, k :: 0 <= i < k < |stamps| ==> StampName(stamps[i]) != StampName(stamps[k])
    ensures NamesDiffer(bufs)
  {
    forall i, k | 0 <= i < k < |bufs|
      ensures bufs[i].name != bufs[k].name
    {
      StripTail(StampName(stamps[i]), StampName(stamps[k]), "_", netName);
    }
  }

  lemma {:induction false} StripTail(a: string, b: string, sep: string, tail: string)
    ensures a + sep + tail == b + sep + tail ==> a == b
  {
    assert a + sep + tail == a + (sep + tail) && b + sep + tail == b + (sep + tail);
    StripEnd(a, b, sep + tail);
  }

  lemma {:induction false} StripEnd(a: string, b: string, tail: string)
    ensures a + tail == b + tail ==> a == b
  {
    if a + tail == b + tail {
      assert |a| == |b|;
      assert a == (a + tail)[..|a|] && b == (b + tail)[..|b|];
    }
  }

  function Elements(s: seq<ClockInst>): set<ClockInst> {
    set x | x in s
  }

  lemma {:induction false} ElementsAll(s: seq<ClockInst>)
    ensures Elements(s[..|s|]) == Elements(s)
  {
    assert s[..|s|] == s;
  }

  lemma {:induction false} ElementsSnoc(s: seq<ClockInst>, n: nat, more: set<ClockInst>)
    requires 0 < n <= |s|
    ensures more + Elements(s[..n - 1]) + {s[n - 1]} == more + Elements(s[..n])
  {
    assert s[..n] == s[..n - 1] + [s[n - 1]];
  }

  /** Between two steps: the progress of the builder, the clocks outside its tree as they were, and
      stamped names for the buffers it has got. */
  ghost predicate Holds(j: Job, t: Shots, done: nat, finished: set<ClockInst>, pending: multiset<ClockInst>,
                        clusterCnt: nat, count: nat) {
    && j.s.Keys == t.Keys
    && Progress(j, t, done, finished, pending)
    && Agree(j.s, t, j.s.Keys - TreeClocks(j.b))
    && HasStamps(Added(j.Start(), t[j.b.clock]), j.b.clock.netName, clusterCnt, count)
    && NewTo(j.Start(), Added(j.Start(), t[j.b.clock]))
  }

  /** The same, under a seal: the methods hand it on without looking inside, and only the lemmas
      that open it see what it says. */
  ghost predicate Sealed(seal: nat, j: Job, t: Shots, done: nat, finished: set<ClockInst>,
                         pending: multiset<ClockInst>, clusterCnt: nat, count: nat) {
    if seal > 0 then Sealed(seal - 1, j, t, done, finished, pending, clusterCnt, count)
    else Holds(j, t, done, finished, pending, clusterCnt, count)
  }

  ghost predicate State(j: Job, t: Shots, done: nat, finished: set<ClockInst>, pending: multiset<ClockInst>,
                        clusterCnt: nat, count: nat) {
    Sealed(3, j, t, done, finished, pending, clusterCnt, count)
  }

  lemma {:induction false} Opened(j: Job, t: Shots, done: nat, finished: set<ClockInst>, pending: multiset<ClockInst>,
               clusterCnt: nat, count: nat)
    ensures State(j, t, done, finished, pending, clusterCnt, count)
            <==> Holds(j, t, done, finished, pending, clusterCnt, count)
  {
    assert Sealed(3, j, t, done, finished, pending, clusterCnt, count)
           == Sealed(2, j, t, done, finished, pending, clusterCnt, count);
    assert Sealed(2, j, t, done, finished, pending, clusterCnt, count)
           == Sealed(1, j, t, done, finished, pending, clusterCnt, count);
    assert Sealed(1, j, t, done, finished, pending, clusterCnt, count)
           == Sealed(0, j, t, done, finished, pending, clusterCnt, count);
  }

  /** x is placed and is to be finished next. */
  ghost predicate Next(j: Job, t: Shots, done: nat, finished: set<ClockInst>, x: ClockInst, d: nat) {
    && j.b.clock in t && x in AllSinks(j.Start().nets) && (IsGater(j.m, x) ==> x !in finished)
    && d == j.maxDepth - LevelOf(j.m, j.LevelAt(0), x)
    && Placed(t[j.b.clock].nets, done, |j.Start().nets|, x, d)
  }

  /** The whole cluster is placed and is to be finished next. */
  ghost predicate AllNext(j: Job, t: Shots, done: nat, finished: set<ClockInst>, cluster: seq<ClockInst>, d: nat) {
    && Distinct(cluster) && j.b.clock in t
    && forall x :: x in cluster ==> Next(j, t, done, finished, x, d)
  }

  lemma {:induction false} NextOne(j: Job, t: Shots, t': Shots, done: nat, finished: set<ClockInst>, cluster: seq<ClockInst>, d: nat, n: nat)
    requires AllNext(j, t, done, finished, cluster, d) && n < |cluster| && IsGater(j.m, cluster[n])
    requires j.b.clock in t' && t'[j.b.clock] == t[j.b.clock]
    ensures Next(j, t', done, finished + Elements(cluster[..n]), cluster[n], d)
  {
    assert cluster[n] in cluster && cluster[n] !in cluster[..n];
    assert Next(j, t, done, finished, cluster[n], d);
  }

  lemma {:induction false} NextJob(j: Job, t: Shots, done: nat, finished: set<ClockInst>, pending: multiset<ClockInst>,
                clusterCnt: nat, count: nat, x: ClockInst, d: nat, depth: nat)
    requires State(j, t, done, finished, pending, clusterCnt, count)
    requires Next(j, t, done, finished, x, d) && IsGater(j.m, x) && depth == j.LevelAt(d) + 1
    ensures Job(DrivenBy(j.m, x), depth, j.maxDepth, j.m, t).Valid()
    ensures DrivenBy(j.m, x) in j.b.children
  {
    Opened(j, t, done, finished, pending, clusterCnt, count);
    ChildJob(j, t, done, finished, pending, x, d, depth);
  }

  lemma {:induction false} GaterState(j: Job, t: Shots, t': Shots, done: nat, finished: set<ClockInst>, pending: multiset<ClockInst>,
                   clusterCnt: nat, count: nat, count': nat, x: ClockInst, d: nat, depth: nat)
    requires State(j, t, done, finished, pending, clusterCnt, count) && count <= count'
    requires Next(j, t, done, finished, x, d) && IsGater(j.m, x) && depth == j.LevelAt(d) + 1
    requires Fixed(DrivenBy(j.m, x), depth, j.maxDepth, j.m, t, t')
    ensures State(j, t', done, finished + {x}, pending, clusterCnt, count')
    ensures j.b.clock in t' && t'[j.b.clock] == t[j.b.clock]
  {
    Opened(j, t, done, finished, pending, clusterCnt, count);
    GaterOutside(j, t, t', x);
    GaterFinished(j, t, t', done, finished, pending, x, d, depth);
    StampsLater(Added(j.Start(), t[j.b.clock]), j.b.clock.netName, clusterCnt, clusterCnt, count, count');
    Opened(j, t', done, finished + {x}, pending, clusterCnt, count');
  }

  lemma {:induction false} GaterOutside(j: Job, t: Shots, t': Shots, x: ClockInst)
    requires j.Valid() && x in AllSinks(j.Start().nets) && IsGater(j.m, x) && TreeClocks(j.b) <= t.Keys
    requires t.Keys == t'.Keys && Agree(t, t', t.Keys - TreeClocks(DrivenBy(j.m, x)))
    ensures t'[j.b.clock] == t[j.b.clock]
    ensures Agree(j.s, t, j.s.Keys - TreeClocks(j.b)) ==> Agree(j.s, t', j.s.Keys - TreeClocks(j.b))
  {
    GaterChild(j, x);
  }

  /** A cluster of sinks that drive nothing is finished once it is behind its buffers. */
  lemma {:induction false} FixLeaves(cluster: seq<ClockInst>, bufLevels: nat, j: Job, t: Shots, done: nat, finished: set<ClockInst>,
                  pending: multiset<ClockInst>, clusterCnt: nat, count: nat, n: nat)
    requires State(j, t, done, finished, pending, clusterCnt, count) && n <= |cluster|
    requires AllNext(j, t, done, finished, cluster, bufLevels) && forall x :: x in cluster ==> !IsGater(j.m, x)
    ensures State(j, t, done, finished + Elements(cluster[..n]), pending, clusterCnt, count)
  {
    if n > 0 {
      FixLeaves(cluster, bufLevels, j, t, done, finished, pending, clusterCnt, count, n - 1);
      assert cluster[n - 1] in cluster && Next(j, t, done, finished, cluster[n - 1], bufLevels);
      FixLeaf(j, t, done, finished + Elements(cluster[..n - 1]), pending, clusterCnt, count, cluster[n - 1], bufLevels);
      ElementsSnoc(cluster, n, finished);
    } else {
      assert finished + Elements(cluster[..0]) == finished;
    }
  }

  lemma {:induction false} FixLeaf(j: Job, t: Shots, done: nat, finished: set<ClockInst>, pending: multiset<ClockInst>,
                clusterCnt: nat, count: nat, x: ClockInst, d: nat)
    requires State(j, t, done, finished, pending, clusterCnt, count)
    requires Next(j, t, done, finished, x, d) && !IsGater(j.m, x)
    ensures State(j, t, done, finished + {x}, pending, clusterCnt, count)
  {
    Opened(j, t, done, finished, pending, clusterCnt, count);
    LevelsFit(j, x);
    LeafFinished(j, t, done, finished, pending, x, d);
    Opened(j, t, done, finished + {x}, pending, clusterCnt, count);
  }

  /** The sinks of a cluster taken off net idx have not been finished yet and belong behind d buffers. */
  ghost predicate AllWaiting(j: Job, t: Shots, idx: nat, finished: set<ClockInst>, cluster: seq<ClockInst>, d: nat) {
    && Distinct(cluster) && j.b.clock in t && idx < |t[j.b.clock].nets|
    && forall x :: x in cluster ==> Waiting(j, t, idx, finished, x, d)
  }

  ghost predicate Waiting(j: Job, t: Shots, idx: nat, finished: set<ClockInst>, x: ClockInst, d: nat)
    requires j.b.clock in t && idx < |t[j.b.clock].nets|
  {
    && x in AllSinks(j.Start().nets) && (IsGater(j.m, x) ==> x !in finished)
    && d == j.maxDepth - LevelOf(j.m, j.LevelAt(0), x)
    && x !in t[j.b.clock].nets[idx]
  }

  /** The level of a cluster tells whether its sinks are gaters. */
  lemma {:induction false} NextFits(j: Job, t: Shots, done: nat, finished: set<ClockInst>, cluster: seq<ClockInst>,
                 pending: multiset<ClockInst>, clusterCnt: nat, count: nat, d: nat, level: nat)
    requires State(j, t, done, finished, pending, clusterCnt, count)
    requires AllNext(j, t, done, finished, cluster, d) && d == j.maxDepth - level
    ensures forall x :: x in cluster ==> (IsGater(j.m, x) <==> level != j.LevelAt(0))
  {
    Opened(j, t, done, finished, pending, clusterCnt, count);
    forall x | x in cluster
      ensures IsGater(j.m, x) <==> level != j.LevelAt(0)
    {
      assert Next(j, t, done, finished, x, d);
      LevelsFit(j, x);
    }
  }

  /** On net idx, no real sink is new but those of the cluster. */
  ghost predicate OnlyJoined(j: Job, t: Shots, t': Shots, idx: nat, cluster: seq<ClockInst>) {
    && j.b.clock in t && j.b.clock in t' && idx < |t[j.b.clock].nets| && idx < |t'[j.b.clock].nets|
    && forall x :: x in t'[j.b.clock].nets[idx] && x.gate.Some? ==> x in t[j.b.clock].nets[idx] || x in cluster
  }

  lemma {:induction false} JoinedStays(j: Job, t: Shots, t': Shots, t'': Shots, idx: nat, cluster: seq<ClockInst>)
    requires OnlyJoined(j, t, t', idx, cluster) && j.b.clock in t'' && t''[j.b.clock] == t'[j.b.clock]
    ensures OnlyJoined(j, t, t'', idx, cluster)
  {
  }

  lemma {:induction false} ChainHere(j: Job, t: Shots, t': Shots, idx: nat, finished: set<ClockInst>, cluster: seq<ClockInst>,
                  bufs: seq<ClockInst>, pending: multiset<ClockInst>,
                  subClusterCnt: nat, clusterCnt: nat, count: nat, count': nat, d: nat)
    requires State(j, t, idx + 1, finished, multiset(cluster) + pending, clusterCnt, count)
    requires AllWaiting(j, t, idx, finished, cluster, d)
    requires |bufs| == d && count' == count + |bufs|
    requires t' == t[j.b.clock := Chained(t[j.b.clock], idx, cluster, bufs)]
    requires Named(bufs, j.b.clock.netName, Suffix(subClusterCnt, clusterCnt), count) && NewTo(j.Start(), bufs)
    ensures State(j, t', idx + 1, finished, pending, clusterCnt, count')
    ensures AllNext(j, t', idx + 1, finished, cluster, d)
    ensures OnlyJoined(j, t, t', idx, cluster)
  {
    Opened(j, t, idx + 1, finished, multiset(cluster) + pending, clusterCnt, count);
    ChainShot(j.Start(), t[j.b.clock], idx, cluster, bufs, pending);
    ChainState(j, t, t', idx, finished, cluster, bufs, pending, subClusterCnt, clusterCnt, count, count');
    ChainNext(j, t, t', idx, finished, cluster, d);
    ChainHeadReal(t[j.b.clock].nets, idx, cluster, bufs, j.b.clock.netName, Suffix(subClusterCnt, clusterCnt), count);
    Opened(j, t', idx + 1, finished, pending, clusterCnt, count');
  }

  lemma {:induction false} ChainState(j: Job, t: Shots, t': Shots, idx: nat, finished: set<ClockInst>, cluster: seq<ClockInst>,
                   bufs: seq<ClockInst>, pending: multiset<ClockInst>,
                   subClusterCnt: nat, clusterCnt: nat, count: nat, count': nat)
    requires Holds(j, t, idx + 1, finished, multiset(cluster) + pending, clusterCnt, count)
    requires count' == count + |bufs| && OwnOnly(j, t, t')
    requires ChainedTo(j.Start(), t[j.b.clock], t'[j.b.clock], idx, cluster, bufs, pending)
    requires Named(bufs, j.b.clock.netName, Suffix(subClusterCnt, clusterCnt), count) && NewTo(j.Start(), bufs)
    ensures Holds(j, t', idx + 1, finished, pending, clusterCnt, count')
  {
    var z := t[j.b.clock];
    ChainChange(j, t, t', idx, cluster, bufs, pending);
    OwnStep(j, t, t', idx + 1, idx + 1, finished, multiset(cluster) + pending, pending);
    MoreStamps(Added(j.Start(), z), bufs, j.b.clock.netName, subClusterCnt, clusterCnt, count, count');
  }

  lemma {:induction false} ChainNext(j: Job, t: Shots, t': Shots, idx: nat, finished: set<ClockInst>, cluster: seq<ClockInst>, d: nat)
    requires AllWaiting(j, t, idx, finished, cluster, d) && j.b.clock in t'
    requires AllPlaced(t'[j.b.clock].nets, idx + 1, |j.Start().nets|, cluster, d)
    ensures AllNext(j, t', idx + 1, finished, cluster, d)
  {
    forall x | x in cluster
      ensures Next(j, t', idx + 1, finished, x, d)
    {
      assert Waiting(j, t, idx, finished, x, d);
    }
  }

  lemma {:induction false} ChainHeadReal(nets: Netlist<ClockInst>, k: nat, cluster: seq<ClockInst>, bufs: seq<ClockInst>,
                      netName: string, suffix: string, count: nat)
    requires k < |nets| && Named(bufs, netName, suffix, count)
    ensures forall x :: x in WithChain(nets, k, cluster, bufs)[k] && x.gate.Some? ==> x in nets[k] || x in cluster
  {
    ChainHead(nets, k, cluster, bufs);
    NamedAreNew(Shot([], []), bufs, netName, suffix, count);
  }

  /** What a chain appends to the net it hangs on. */
  lemma {:induction false} ChainHead<T>(nets: Netlist<T>, k: nat, cluster: seq<T>, bufs: seq<T>)
    requires k < |nets|
    ensures forall x :: x in WithChain(nets, k, cluster, bufs)[k] ==> x in nets[k] || x in cluster || x in bufs
  {
    LinksHead(nets, k, bufs, |bufs|);
  }

  lemma {:induction false} LinksHead<T>(nets: Netlist<T>, k: nat, bufs: seq<T>, i: nat)
    requires k < |nets| && i <= |bufs|
    ensures forall x :: x in Links(nets, k, bufs, i)[k] ==> x in nets[k] || x in bufs
  {
    if i > 0 { LinksHead(nets, k, bufs, i - 1); }
  }

  /** The last net of a chain of new buffers holds nothing that was to be put back. */
  lemma {:induction false} TailHasNoOld(n0: Netlist<ClockInst>, k: nat, bufs: seq<ClockInst>, cluster: seq<ClockInst>)
    requires k < |n0| && forall x :: x in cluster ==> x !in n0[k] && x !in bufs
    ensures forall x :: x in cluster ==> x !in Links(n0, k, bufs, |bufs|)[Tail(|n0|, k, |bufs|)]
  {
  }
}