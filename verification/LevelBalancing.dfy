/** Balancing the buffer levels across the nets of one clock. */
module LevelBalancing {
  import opened Netlists
  import opened ClockNets
  import opened BuilderTrees
  import GatedTrees
  import opened LevelNames
  import opened LevelAccounting
  import opened LevelProgress
  import opened LevelNets
  import opened LevelStates

  ghost function ShotOf(c: Clock): Shot
    reads c, c.subNets
  {
    Shot(c.Nets(), c.clockBuffers)
  }

  /** The clocks share no subnet. */
  ghost predicate Apart(c: Clock, d: Clock)
    reads c, d
  {
    forall n :: n in c.subNets ==> n !in d.subNets
  }

  class LevelBalancer {
    const root: Builder
    var cgcLevelMap: Gaters
    var levelBufCount: nat

    /** The clocks being balanced, what they look like at the moment, and all objects they own. */
    ghost const clocks: set<Clock>
    ghost var shots: Shots
    ghost var Repr: set<object>

    /** No two clocks share a subnet, and the snapshot is up to date. */
    ghost predicate Valid()
      reads `shots, `Repr, Repr
    {
      && this !in Repr && clocks <= Repr && shots.Keys == clocks
      && (forall c {:trigger ClockIn(c)} :: c in clocks ==> ClockIn(c))
      && (forall c, d {:trigger Apart(c, d)} :: c in clocks && d in clocks && c != d ==> Apart(c, d))
    }

    ghost predicate ClockIn(c: Clock)
      reads `shots, `Repr, Repr
    {
      && c in Repr && (forall n :: n in c.subNets ==> n in Repr)
      && c.Valid() && c in shots && shots[c] == ShotOf(c)
    }

    constructor (root: Builder, ghost clocks: set<Clock>)
      requires forall c :: c in clocks ==> c.Valid()
      requires forall c, d :: c in clocks && d in clocks && c != d ==> Apart(c, d)
      ensures Valid() && this.root == root && this.clocks == clocks && cgcLevelMap == map[]
      ensures shots == map c | c in clocks :: ShotOf(c)
      ensures Repr == clocks + (set c: Clock, n: ClockSubNet | c in clocks && n in c.subNets :: n)
    {
      this.root, cgcLevelMap, levelBufCount := root, map[], 0;
      this.clocks := clocks;
      shots := map c | c in clocks :: ShotOf(c);
      Repr := clocks + (set c: Clock, n: ClockSubNet | c in clocks && n in c.subNets :: n);
      new;
      forall c | c in clocks
        ensures ClockIn(c)
      {
        assert shots[c] == ShotOf(c);
      }
    }

    /** Record every gated builder below the parent and return the depth of the tree. */
    method ComputeMaxTreeDepth(parent: Builder) returns (depth: nat)
      modifies `cgcLevelMap
      ensures depth == Depth(parent) && LongestLine(parent, depth)
      ensures cgcLevelMap == Record(old(cgcLevelMap), parent, |parent.children|)
      decreases parent
    {
      var maxDepth := 0;
      for i := 0 to |parent.children|
        invariant maxDepth == DeepestChild(parent, i)
        invariant cgcLevelMap == Record(old(cgcLevelMap), parent, i)
      {
        var child := parent.children[i];
        var below := ComputeMaxTreeDepth(child);
        var d := below + 1;
        if child.driver.Some? {
          cgcLevelMap := cgcLevelMap[child.driver.value := (d, child)];
        }
        if d > maxDepth {
          maxDepth := d;
        }
      }
      depth := parent.treeBufLevels + maxDepth;
      DepthIsLongest(parent);
    }

    /** A new level buffer and a new, still empty, net for it. */
    method MakeLevel(clock: Clock, level: nat, nameSuffix: string)
      returns (levelBuffer: ClockInst, levelSubNet: ClockSubNet)
      requires clock.Valid()
      modifies `levelBufCount, clock
      ensures clock.Valid() && fresh(levelSubNet) && clock.subNets == old(clock.subNets) + [levelSubNet]
      ensures fresh(levelBuffer) && clock.clockBuffers == old(clock.clockBuffers) + [levelBuffer]
      ensures NamedOne(levelBuffer, clock.netName, nameSuffix, level, old(levelBufCount))
      ensures levelBufCount == old(levelBufCount) + 1
      ensures clock.Nets() == old(clock.Nets()) + [[]] && levelSubNet.instances == []
    {
      levelBuffer := clock.AddClockBuffer(BufferName(level, nameSuffix, levelBufCount));
      levelSubNet := clock.AddSubNet("clknet_level_" + Decimal(level) + "_" + nameSuffix + Decimal(levelBufCount));
      levelBufCount := levelBufCount + 1;
    }

    /** One more level: a buffer below the previous net, and the net it drives. */
    method AddLevel(clock: Clock, prevLevelSubNet: ClockSubNet, ghost t: nat, level: nat, nameSuffix: string)
      returns (levelBuffer: ClockInst, levelSubNet: ClockSubNet)
      requires clock.Valid() && t < |clock.subNets| && clock.subNets[t] == prevLevelSubNet
      modifies `levelBufCount, clock, prevLevelSubNet
      ensures clock.Valid() && fresh(levelSubNet) && clock.subNets == old(clock.subNets) + [levelSubNet]
      ensures fresh(levelBuffer) && clock.clockBuffers == old(clock.clockBuffers) + [levelBuffer]
      ensures NamedOne(levelBuffer, clock.netName, nameSuffix, level, old(levelBufCount))
      ensures levelBufCount == old(levelBufCount) + 1
      ensures clock.Nets() == OneLink(old(clock.Nets()), t, levelBuffer) && !prevLevelSubNet.leafLevel
    {
      levelBuffer, levelSubNet := MakeLevel(clock, level, nameSuffix);
      Connect(clock, prevLevelSubNet, t, levelBuffer);
      Connect(clock, levelSubNet, |clock.subNets| - 1, levelBuffer);
      Mark(clock, prevLevelSubNet, false);
      TwoConnections(old(clock.Nets()), t, levelBuffer);
    }

    /** The loop over the levels. */
    method AddChain(clock: Clock, driverNet: ClockSubNet, ghost k: nat, bufLevels: nat, nameSuffix: string)
      returns (lastNet: ClockSubNet, ghost bufs: seq<ClockInst>)
      requires clock.Valid() && k < |clock.subNets| && clock.subNets[k] == driverNet
      modifies `levelBufCount, clock, clock.subNets
      ensures Chain(clock, old(clock.Nets()), k, bufs) && |bufs| == bufLevels
      ensures levelBufCount == old(levelBufCount) + bufLevels
      ensures Named(bufs, clock.netName, nameSuffix, old(levelBufCount))
      ensures lastNet == clock.subNets[Tail(|old(clock.Nets())|, k, bufLevels)]
      ensures bufLevels > 0 ==> !driverNet.leafLevel && fresh(lastNet)
    {
      ghost var n0 := clock.Nets();
      bufs := [];
      lastNet := driverNet;
      var level := 0;
      while level < bufLevels
        invariant |bufs| == level <= bufLevels && levelBufCount == old(levelBufCount) + level
        invariant Chain(clock, n0, k, bufs)
        invariant Named(bufs, clock.netName, nameSuffix, old(levelBufCount))
        invariant if level == 0 then lastNet == driverNet else !driverNet.leafLevel && fresh(lastNet)
        invariant |clock.subNets| == |n0| + level && lastNet == clock.subNets[Tail(|n0|, k, level)]
      {
        ghost var nets1, n1 := clock.subNets, clock.Nets();
        var buffer, levelSubNet := AddLevel(clock, lastNet, Tail(|n0|, k, level), level, nameSuffix);
        NamedSnoc(bufs, buffer, clock.netName, nameSuffix, old(levelBufCount));
        ChainLinked(clock, n0, n1, k, nets1, bufs, buffer, levelSubNet);
        bufs := bufs + [buffer];
        level := level + 1;
        lastNet := levelSubNet;
      }
    }

    /** Put a cluster behind bufLevels new buffers in a row. */
    method AddBufferLevels(clock: Clock, cluster: seq<ClockInst>, driverNet: ClockSubNet, ghost k: nat,
                           bufLevels: nat, nameSuffix: string)
      returns (ghost bufs: seq<ClockInst>)
      requires clock.Valid() && k < |clock.subNets| && clock.subNets[k] == driverNet
      requires Distinct(cluster) && forall x :: x in cluster ==> x !in driverNet.instances
      modifies `levelBufCount, clock, clock.subNets
      ensures clock.Valid() && old(clock.subNets) <= clock.subNets
      ensures forall i :: |old(clock.subNets)| <= i < |clock.subNets| ==> fresh(clock.subNets[i])
      ensures |bufs| == bufLevels && forall x :: x in bufs ==> fresh(x)
      ensures levelBufCount == old(levelBufCount) + bufLevels
      ensures Named(bufs, clock.netName, nameSuffix, old(levelBufCount))
      ensures ShotOf(clock) == Chained(old(ShotOf(clock)), k, cluster, bufs)
      ensures clock.subNets[Tail(|old(clock.subNets)|, k, bufLevels)].leafLevel && (bufLevels > 0 ==> !driverNet.leafLevel)
    {
      ghost var n0 := clock.Nets();
      var lastNet;
      lastNet, bufs := AddChain(clock, driverNet, k, bufLevels, nameSuffix);
      TailHasNoOld(n0, k, bufs, cluster);
      ConnectAll(clock, lastNet, Tail(|n0|, k, bufLevels), cluster);
      Mark(clock, lastNet, true);
    }

    /** Bring the snapshot up to date after one clock has changed. */
    method Resync(ghost clock: Clock)
      requires this !in Repr && clocks <= Repr && shots.Keys == clocks && clock in clocks && clock.Valid()
      requires forall c {:trigger ClockIn(c)} :: c in clocks && c != clock ==> ClockIn(c)
      requires forall c, d {:trigger Apart(c, d)} :: c in clocks && d in clocks && c != d ==> Apart(c, d)
      modifies `shots, `Repr
      ensures Valid() && shots == old(shots)[clock := ShotOf(clock)]
      ensures Repr == old(Repr) + (set n | n in clock.subNets)
    {
      Repr := Repr + (set n | n in clock.subNets);
      shots := shots[clock := ShotOf(clock)];
      forall c {:trigger ClockIn(c)} | c in clocks ensures ClockIn(c) {
        assert c != clock ==> old(ClockIn(c));
      }
      forall c, d {:trigger Apart(c, d)} | c in clocks && d in clocks && c != d ensures Apart(c, d) {
        assert old(Apart(c, d));
      }
    }

    /** The same, seen from all clocks: only the one clock has changed. */
    method ChainOn(clock: Clock, idx: nat, cluster: seq<ClockInst>, bufLevels: nat, nameSuffix: string)
      returns (ghost bufs: seq<ClockInst>)
      requires Valid() && clock in clocks && idx < |shots[clock].nets|
      requires Distinct(cluster) && forall x :: x in cluster ==> x !in shots[clock].nets[idx]
      modifies `levelBufCount, `shots, `Repr, Repr
      ensures Valid() && fresh(Repr - old(Repr))
      ensures |bufs| == bufLevels && levelBufCount == old(levelBufCount) + bufLevels && forall x :: x in bufs ==> fresh(x)
      ensures Named(bufs, clock.netName, nameSuffix, old(levelBufCount))
      ensures shots == old(shots)[clock := Chained(old(shots)[clock], idx, cluster, bufs)]
    {
      assert ClockIn(clock);
      bufs := AddBufferLevels(clock, cluster, clock.subNets[idx], idx, bufLevels, nameSuffix);
      forall c | c in clocks && c != clock
        ensures ClockIn(c) && c.subNets == old(c.subNets)
      {
        assert old(ClockIn(c)) && old(Apart(c, clock)) && old(ClockIn(clock));
        forall i | 0 <= i < |c.subNets|
          ensures c.subNets[i].Valid() && c.subNets[i].instances == old(c.subNets[i].instances)
        {
          assert c.subNets[i] in c.subNets;
        }
        assert c.Nets() == old(c.Nets());
      }
      forall c, d {:trigger Apart(c, d)} | c in clocks && d in clocks && c != d ensures Apart(c, d) {
        assert old(Apart(c, d)) && old(ClockIn(c)) && old(ClockIn(d));
      }
      Resync(clock);
    }

    /** Remove the given sinks from one net of a clock. */
    static method RemoveOn(clock: Clock, net: ClockSubNet, ghost idx: nat, gone: set<ClockInst>)
      requires clock.Valid() && idx < |clock.subNets| && clock.subNets[idx] == net && net.instances != []
      modifies net`instances, net`mapInstToIdx
      ensures clock.Valid() && forall i :: 0 <= i < |clock.subNets| && i != idx ==> clock.Nets()[i] == old(clock.Nets())[i]
      ensures var sinks := old(net.instances)[1..];
              clock.Nets()[idx] == [old(net.instances)[0]] + Without(sinks, |sinks|, gone)
    {
      ghost var nets := clock.Nets();
      net.RemoveSinks(gone);
      forall i | 0 <= i < |clock.subNets| && i != idx
        ensures clock.subNets[i].Valid() && clock.subNets[i].instances == nets[i]
      {
        assert clock.subNets[i] != net;
      }
    }

    /** Take the given sinks off one net of a clock. */
    static method StripNet(clock: Clock, net: ClockSubNet, ghost idx: nat, gone: set<ClockInst>)
      requires clock.Valid() && idx < |clock.subNets| && clock.subNets[idx] == net && net.instances != []
      modifies net
      ensures clock.Valid() && ShotOf(clock) == Stripped(old(ShotOf(clock)), idx, gone)
    {
      ghost var nets := clock.Nets();
      RemoveOn(clock, net, idx, gone);
      Mark(clock, net, false);
      OneNetStripped(nets, clock.Nets(), idx, gone, clock.clockBuffers);
    }

    /** The same, seen from all clocks. */
    method StripOn(clock: Clock, idx: nat, gone: set<ClockInst>)
      requires Valid() && clock in clocks && idx < |shots[clock].nets| && shots[clock].nets[idx] != []
      modifies `shots, `Repr, Repr
      ensures Valid() && shots == old(shots)[clock := Stripped(old(shots)[clock], idx, gone)]
      ensures Repr == old(Repr)
    {
      assert ClockIn(clock);
      var net := clock.subNets[idx];
      StripNet(clock, net, idx, gone);
      forall c | c in clocks && c != clock
        ensures ClockIn(c) && c.subNets == old(c.subNets)
      {
        assert old(ClockIn(c)) && old(Apart(c, clock)) && old(ClockIn(clock));
        forall i | 0 <= i < |c.subNets|
          ensures c.subNets[i].Valid() && c.subNets[i].instances == old(c.subNets[i].instances)
        {
          assert c.subNets[i] in c.subNets;
        }
        assert c.Nets() == old(c.Nets());
      }
      assert ShotOf(clock) == Stripped(old(shots)[clock], idx, gone);
      Resync(clock);
    }

    /** Sort the real sinks of a net by level. */
    method GroupSinks(net: ClockSubNet, currLevel: nat)
      returns (subClusters: map<nat, seq<ClockInst>>, instsToRemove: set<ClockInst>)
      requires net.instances != []
      ensures var sinks := net.instances[1..];
              Sorted(cgcLevelMap, currLevel, sinks, |sinks|, subClusters, instsToRemove)
    {
      ghost var sinks := net.instances[1..];
      subClusters, instsToRemove := map[], {};
      var i := 1;
      while i < |net.instances|
        invariant 1 <= i <= |net.instances|
        invariant Sorted(cgcLevelMap, currLevel, sinks, i - 1, subClusters, instsToRemove)
      {
        var clkInst := net.instances[i];
        SortedStep(cgcLevelMap, currLevel, sinks, i - 1, subClusters, instsToRemove);
        if clkInst.gate.Some? {
          var level := if clkInst.gate.value !in cgcLevelMap then currLevel
                       else cgcLevelMap[clkInst.gate.value].0 + currLevel;
          subClusters := subClusters[level := Filed(subClusters, level) + [clkInst]];
          instsToRemove := instsToRemove + {clkInst};
        }
        i := i + 1;
      }
    }

    /** The first key of a map in order. */
    static method FirstKey(keys: set<nat>) returns (l: nat)
      requires keys != {}
      ensures l in keys && forall k :: k in keys ==> l <= k
    {
      ghost var k :| k in keys;
      l := 0;
      while l !in keys
        invariant forall x :: x in keys ==> l <= x
        decreases k - l
      {
        l := l + 1;
      }
    }

    // ----- balancing one builder -----

    /** Balance what one gater drives. */
    method FixGater(x: ClockInst, bufLevels: nat, currLevel: nat, maxTreeDepth: nat,
                    ghost j: Job, ghost done: nat, ghost finished: set<ClockInst>,
                    ghost pending: multiset<ClockInst>, ghost clusterCnt: nat)
      requires Valid() && j.m == cgcLevelMap && maxTreeDepth == j.maxDepth && currLevel == j.LevelAt(0)
      requires State(j, shots, done, finished, pending, clusterCnt, levelBufCount)
      requires Next(j, shots, done, finished, x, bufLevels) && IsGater(j.m, x)
      modifies `levelBufCount, `shots, `Repr, Repr
      ensures Valid() && fresh(Repr - old(Repr)) && levelBufCount >= old(levelBufCount)
      ensures State(j, shots, done, finished + {x}, pending, clusterCnt, levelBufCount)
      ensures shots[j.b.clock] == old(shots)[j.b.clock]
      decreases j.b, 0
    {
      var depth := currLevel + bufLevels + 1;
      NextJob(j, shots, done, finished, pending, clusterCnt, levelBufCount, x, bufLevels, depth);
      FixTreeLevels(cgcLevelMap[x.gate.value].1, depth, maxTreeDepth);
      GaterState(j, old(shots), shots, done, finished, pending, clusterCnt, old(levelBufCount), levelBufCount,
                 x, bufLevels, depth);
    }

    /** Balance what gater n of a cluster drives. */
    method FixNextGater(cluster: seq<ClockInst>, n: nat, bufLevels: nat, currLevel: nat, maxTreeDepth: nat,
                        ghost j: Job, ghost t: Shots, ghost done: nat, ghost finished: set<ClockInst>,
                        ghost pending: multiset<ClockInst>, ghost clusterCnt: nat)
      requires Valid() && j.m == cgcLevelMap && maxTreeDepth == j.maxDepth && currLevel == j.LevelAt(0)
      requires n < |cluster| && AllNext(j, t, done, finished, cluster, bufLevels) && IsGater(j.m, cluster[n])
      requires State(j, shots, done, finished + Elements(cluster[..n]), pending, clusterCnt, levelBufCount)
      requires j.b.clock in t && j.b.clock in shots && shots[j.b.clock] == t[j.b.clock]
      modifies `levelBufCount, `shots, `Repr, Repr
      ensures Valid() && fresh(Repr - old(Repr)) && levelBufCount >= old(levelBufCount)
      ensures State(j, shots, done, finished + Elements(cluster[..n + 1]), pending, clusterCnt, levelBufCount)
      ensures shots[j.b.clock] == t[j.b.clock]
      decreases j.b, 1, 0
    {
      NextOne(j, t, shots, done, finished, cluster, bufLevels, n);
      ElementsSnoc(cluster, n + 1, finished);
      FixGater(cluster[n], bufLevels, currLevel, maxTreeDepth, j, done, finished + Elements(cluster[..n]), pending,
               clusterCnt);
    }

    /** Balance what the gaters of a cluster drive, one after the other. */
    method FixGaters(cluster: seq<ClockInst>, bufLevels: nat, currLevel: nat, maxTreeDepth: nat,
                     ghost j: Job, ghost done: nat, ghost finished: set<ClockInst>,
                     ghost pending: multiset<ClockInst>, ghost clusterCnt: nat)
      requires Valid() && j.m == cgcLevelMap && maxTreeDepth == j.maxDepth && currLevel == j.LevelAt(0)
      requires State(j, shots, done, finished, pending, clusterCnt, levelBufCount)
      requires AllNext(j, shots, done, finished, cluster, bufLevels) && forall x :: x in cluster ==> IsGater(j.m, x)
      modifies `levelBufCount, `shots, `Repr, Repr
      ensures Valid() && fresh(Repr - old(Repr)) && levelBufCount >= old(levelBufCount)
      ensures State(j, shots, done, finished + Elements(cluster), pending, clusterCnt, levelBufCount)
      ensures shots[j.b.clock] == old(shots)[j.b.clock]
      decreases j.b, 1
    {
      var n := 0;
      assert finished + Elements(cluster[..0]) == finished;
      while n < |cluster|
        invariant n <= |cluster|
        invariant Valid() && fresh(Repr - old(Repr)) && levelBufCount >= old(levelBufCount)
        invariant State(j, shots, done, finished + Elements(cluster[..n]), pending, clusterCnt, levelBufCount)
        invariant j.b.clock in shots && shots[j.b.clock] == old(shots)[j.b.clock]
      {
        FixNextGater(cluster, n, bufLevels, currLevel, maxTreeDepth, j, old(shots), done, finished, pending, clusterCnt);
        n := n + 1;
      }
      ElementsAll(cluster);
    }

    /** Put one cluster of net idx behind its level buffers. */
    method ChainCluster(idx: nat, cluster: seq<ClockInst>, bufLevels: nat, suffix: string,
                        b: Builder, ghost j: Job, ghost finished: set<ClockInst>, ghost pending: multiset<ClockInst>,
                        ghost subClusterCnt: nat, ghost clusterCnt: nat)
      requires Valid() && b == j.b && suffix == Suffix(subClusterCnt, clusterCnt)
      requires State(j, shots, idx + 1, finished, multiset(cluster) + pending, clusterCnt, levelBufCount)
      requires AllWaiting(j, shots, idx, finished, cluster, bufLevels)
      modifies `levelBufCount, `shots, `Repr, Repr
      ensures Valid() && fresh(Repr - old(Repr)) && levelBufCount >= old(levelBufCount)
      ensures State(j, shots, idx + 1, finished, pending, clusterCnt, levelBufCount)
      ensures AllNext(j, shots, idx + 1, finished, cluster, bufLevels)
      ensures OnlyJoined(j, old(shots), shots, idx, cluster)
    {
      ghost var t, count := shots, levelBufCount;
      assert forall x :: x in cluster ==> Waiting(j, t, idx, finished, x, bufLevels);
      ghost var bufs := ChainOn(b.clock, idx, cluster, bufLevels, suffix);
      FreshAreNew(j.Start().nets, bufs);
      NamedAreNew(j.Start(), bufs, b.clock.netName, suffix, count);
      ChainHere(j, t, shots, idx, finished, cluster, bufs, pending, subClusterCnt, clusterCnt, count,
                levelBufCount, bufLevels);
    }

    /** Balance what a cluster drives, if it is made of gaters. */
    method FinishCluster(cluster: seq<ClockInst>, clusterLevel: nat, bufLevels: nat, currLevel: nat, maxTreeDepth: nat,
                         ghost j: Job, ghost done: nat, ghost finished: set<ClockInst>,
                         ghost pending: multiset<ClockInst>, ghost clusterCnt: nat)
      requires Valid() && j.m == cgcLevelMap && maxTreeDepth == j.maxDepth && currLevel == j.LevelAt(0)
      requires State(j, shots, done, finished, pending, clusterCnt, levelBufCount)
      requires AllNext(j, shots, done, finished, cluster, bufLevels) && bufLevels == maxTreeDepth - clusterLevel
      modifies `levelBufCount, `shots, `Repr, Repr
      ensures Valid() && fresh(Repr - old(Repr)) && levelBufCount >= old(levelBufCount)
      ensures State(j, shots, done, finished + Elements(cluster), pending, clusterCnt, levelBufCount)
      ensures shots[j.b.clock] == old(shots)[j.b.clock]
      decreases j.b, 2
    {
      NextFits(j, shots, done, finished, cluster, pending, clusterCnt, levelBufCount, bufLevels, clusterLevel);
      if currLevel != clusterLevel {
        FixGaters(cluster, bufLevels, currLevel, maxTreeDepth, j, done, finished, pending, clusterCnt);
      } else {
        FixLeaves(cluster, bufLevels, j, shots, done, finished, pending, clusterCnt, levelBufCount, |cluster|);
        ElementsAll(cluster);
      }
    }

    /** Put one cluster of net idx behind its level buffers, and balance what it drives. */
    method FixCluster(idx: nat, cluster: seq<ClockInst>, clusterLevel: nat, subClusterCnt: nat, clusterCnt: nat,
                      currLevel: nat, maxTreeDepth: nat, b: Builder, ghost j: Job, ghost finished: set<ClockInst>,
                      ghost pending: multiset<ClockInst>)
      requires Valid() && b == j.b && j.m == cgcLevelMap && maxTreeDepth == j.maxDepth && currLevel == j.LevelAt(0)
      requires State(j, shots, idx + 1, finished, multiset(cluster) + pending, clusterCnt, levelBufCount)
      requires clusterLevel <= maxTreeDepth
      requires AllWaiting(j, shots, idx, finished, cluster, maxTreeDepth - clusterLevel)
      modifies `levelBufCount, `shots, `Repr, Repr
      ensures Valid() && fresh(Repr - old(Repr)) && levelBufCount >= old(levelBufCount)
      ensures State(j, shots, idx + 1, finished + Elements(cluster), pending, clusterCnt, levelBufCount)
      ensures OnlyJoined(j, old(shots), shots, idx, cluster)
      decreases j.b, 3
    {
      var bufLevels := maxTreeDepth - clusterLevel;
      ChainCluster(idx, cluster, bufLevels, Suffix(subClusterCnt, clusterCnt), b, j, finished, pending,
                   subClusterCnt, clusterCnt);
      ghost var t := shots;
      FinishCluster(cluster, clusterLevel, bufLevels, currLevel, maxTreeDepth, j, idx + 1, finished, pending, clusterCnt);
      JoinedStays(j, old(shots), t, shots, idx, cluster);
    }

    /** Put back the sinks of net idx that are on one level, and balance what they drive. */
    method FixLevel(idx: nat, cluster: seq<ClockInst>, level: nat, subClusterCnt: nat, clusterCnt: nat,
                    currLevel: nat, maxTreeDepth: nat, b: Builder, ghost j: Job, ghost finished: set<ClockInst>,
                    ghost keys: set<nat>)
      requires Valid() && b == j.b && j.m == cgcLevelMap && maxTreeDepth == j.maxDepth && currLevel == j.LevelAt(0)
      requires Reached(j, shots, Within(idx, keys), finished, clusterCnt, levelBufCount)
      requires level in keys && cluster == Part(j, idx, {level})
      modifies `levelBufCount, `shots, `Repr, Repr
      ensures Valid() && fresh(Repr - old(Repr)) && levelBufCount >= old(levelBufCount)
      ensures Reached(j, shots, Within(idx, keys - {level}), finished, clusterCnt, levelBufCount)
      decreases j.b, 4
    {
      LevelWaits(j, shots, idx, finished, keys, clusterCnt, levelBufCount, level);
      LevelSplit(j, idx, keys, level);
      FixCluster(idx, cluster, level, subClusterCnt, clusterCnt, currLevel, maxTreeDepth, b, j,
                 ButFor(j, idx, finished, keys), multiset(Part(j, idx, keys - {level})));
      LevelDone(j, old(shots), shots, idx, finished, keys, clusterCnt, old(levelBufCount), levelBufCount, level);
    }

    /** Put back the sinks of net idx level by level. */
    method FixLevels(idx: nat, subClusters: map<nat, seq<ClockInst>>, clusterCnt: nat,
                     currLevel: nat, maxTreeDepth: nat, b: Builder, ghost j: Job, ghost finished: set<ClockInst>)
      returns (ghost ended: set<ClockInst>)
      requires Valid() && b == j.b && j.m == cgcLevelMap && maxTreeDepth == j.maxDepth && currLevel == j.LevelAt(0)
      requires Reached(j, shots, Within(idx, subClusters.Keys), finished, clusterCnt, levelBufCount)
      requires Parts(j, idx, subClusters)
      modifies `levelBufCount, `shots, `Repr, Repr
      ensures Valid() && fresh(Repr - old(Repr)) && levelBufCount >= old(levelBufCount)
      ensures Reached(j, shots, Before(idx + 1), ended, clusterCnt, levelBufCount)
      decreases j.b, 5
    {
      var keys, subClusterCnt := subClusters.Keys, 0;
      while keys != {}
        invariant keys <= subClusters.Keys
        invariant Valid() && fresh(Repr - old(Repr)) && levelBufCount >= old(levelBufCount)
        invariant Reached(j, shots, Within(idx, keys), finished, clusterCnt, levelBufCount)
        decreases |keys|
      {
        var level := FirstKey(keys);
        subClusterCnt := subClusterCnt + 1;
        FixLevel(idx, subClusters[level], level, subClusterCnt, clusterCnt, currLevel, maxTreeDepth, b, j, finished, keys);
        keys := keys - {level};
      }
      NetDone(j, shots, idx, finished, clusterCnt, levelBufCount);
      ended := ButFor(j, idx, finished, {});
    }

    /** Sort the real sinks of net idx by level, and find out which to take off. */
    method SortNet(idx: nat, currLevel: nat, b: Builder, ghost j: Job)
      returns (subClusters: map<nat, seq<ClockInst>>, instsToRemove: set<ClockInst>)
      requires Valid() && b == j.b && j.m == cgcLevelMap && currLevel == j.LevelAt(0) && b.clock in shots
      requires idx < |shots[b.clock].nets| && shots[b.clock].nets[idx] != []
      requires shots[b.clock].nets[idx][1..] == SinksAt(j, idx)
      ensures NetSorted(j, shots, idx, subClusters, instsToRemove)
    {
      assert ClockIn(b.clock);
      var subNet := b.clock.subNets[idx];
      assert subNet.instances == shots[b.clock].nets[idx];
      subClusters, instsToRemove := GroupSinks(subNet, currLevel);
      SortedNet(j, idx, subClusters, instsToRemove);
    }

    /** Take the real sinks off net idx. */
    method TakeOff(idx: nat, gone: set<ClockInst>, b: Builder, ghost j: Job, ghost finished: set<ClockInst>,
                   ghost clusterCnt: nat, ghost clusterCnt': nat)
      requires Valid() && b == j.b && clusterCnt <= clusterCnt'
      requires Reached(j, shots, Before(idx), finished, clusterCnt, levelBufCount) && idx < |j.Start().nets|
      requires b.clock in shots && idx < |shots[b.clock].nets| && shots[b.clock].nets[idx] != []
      requires Distinct(shots[b.clock].nets[idx]) && gone == RealSet(SinksAt(j, idx))
      modifies `shots, `Repr, Repr
      ensures Valid() && Repr == old(Repr)
      ensures Reached(j, shots, Within(idx, AllLevels(j, idx)), finished, clusterCnt', levelBufCount)
    {
      StripOn(b.clock, idx, gone);
      StripNetState(j, old(shots), shots, idx, finished, clusterCnt, clusterCnt', levelBufCount);
    }

    /** Take the real sinks off net idx, and put them back level by level. */
    method RefillNet(idx: nat, subClusters: map<nat, seq<ClockInst>>, gone: set<ClockInst>, clusterCnt: nat,
                     currLevel: nat, maxTreeDepth: nat, b: Builder, ghost j: Job, ghost finished: set<ClockInst>,
                     ghost lastCnt: nat)
      returns (ghost ended: set<ClockInst>)
      requires Valid() && b == j.b && j.m == cgcLevelMap && maxTreeDepth == j.maxDepth && currLevel == j.LevelAt(0)
      requires Reached(j, shots, Before(idx), finished, lastCnt, levelBufCount) && idx < |j.Start().nets|
      requires NetSorted(j, shots, idx, subClusters, gone) && lastCnt <= clusterCnt
      modifies `levelBufCount, `shots, `Repr, Repr
      ensures Valid() && fresh(Repr - old(Repr)) && levelBufCount >= old(levelBufCount)
      ensures Reached(j, shots, Before(idx + 1), ended, clusterCnt, levelBufCount)
      decreases j.b, 6
    {
      TakeOff(idx, gone, b, j, finished, lastCnt, clusterCnt);
      ended := FixLevels(idx, subClusters, clusterCnt, currLevel, maxTreeDepth, b, j, finished);
    }

    /** Balance the sinks of net idx. */
    method FixNet(idx: nat, clusterCnt: nat, currLevel: nat, maxTreeDepth: nat, b: Builder,
                  ghost j: Job, ghost finished: set<ClockInst>)
      returns (clusterCnt': nat, ghost ended: set<ClockInst>)
      requires Valid() && b == j.b && j.m == cgcLevelMap && maxTreeDepth == j.maxDepth && currLevel == j.LevelAt(0)
      requires Reached(j, shots, Before(idx), finished, clusterCnt, levelBufCount) && idx < |j.Start().nets|
      modifies `levelBufCount, `shots, `Repr, Repr
      ensures Valid() && fresh(Repr - old(Repr)) && levelBufCount >= old(levelBufCount)
      ensures Reached(j, shots, Before(idx + 1), ended, clusterCnt', levelBufCount)
      decreases j.b, 7
    {
      NetAsAtStart(j, shots, idx, finished, clusterCnt, levelBufCount);
      var subClusters, instsToRemove := SortNet(idx, currLevel, b, j);
      if subClusters == map[] {
        SkipNet(j, shots, idx, finished, clusterCnt, levelBufCount);
        clusterCnt', ended := clusterCnt, finished;
      } else {
        clusterCnt' := clusterCnt + 1;
        ended := RefillNet(idx, subClusters, instsToRemove, clusterCnt', currLevel, maxTreeDepth, b, j, finished,
                           clusterCnt);
      }
    }

    /** Balance one builder and everything below it. */
    method FixTreeLevels(b: Builder, parentDepth: nat, maxTreeDepth: nat)
      requires Valid() && Job(b, parentDepth, maxTreeDepth, cgcLevelMap, shots).Valid()
      modifies `levelBufCount, `shots, `Repr, Repr
      ensures Valid() && fresh(Repr - old(Repr)) && levelBufCount >= old(levelBufCount)
      ensures Fixed(b, parentDepth, maxTreeDepth, cgcLevelMap, old(shots), shots)
      decreases b, 8
    {
      var currLevel := b.treeBufLevels + parentDepth;
      ghost var j := Job(b, parentDepth, maxTreeDepth, cgcLevelMap, shots);
      if currLevel >= maxTreeDepth {
        AlreadyLevel(j);
        return;
      }
      FirstState(j, levelBufCount);
      var clusterCnt, idx := 0, 0;
      ghost var finished: set<ClockInst> := {};
      assert ClockIn(b.clock);
      var end := |b.clock.subNets|;
      while idx < end
        invariant idx <= end == |j.Start().nets|
        invariant Valid() && fresh(Repr - old(Repr)) && levelBufCount >= old(levelBufCount)
        invariant Reached(j, shots, Before(idx), finished, clusterCnt, levelBufCount)
      {
        clusterCnt, finished := FixNet(idx, clusterCnt, currLevel, maxTreeDepth, b, j, finished);
        idx := idx + 1;
      }
      AllNetsDone(j, shots, finished, clusterCnt, levelBufCount);
    }

    /** Balance the whole tree: measure it, then pad every net up to its depth. */
    method Run()
      requires Valid() && cgcLevelMap == map[] && TreeClocks(root) <= clocks
      requires ClocksDiffer(root) && DriversDiffer(root) && GatedTrees.InPlace(root, root, shots)
      modifies `cgcLevelMap, `levelBufCount, `shots, `Repr, Repr
      ensures Valid() && fresh(Repr - old(Repr))
      ensures cgcLevelMap == Record(map[], root, |root.children|)
      ensures Fixed(root, 0, Depth(root), cgcLevelMap, old(shots), shots) && LongestLine(root, Depth(root))
    {
      var maxTreeDepth := ComputeMaxTreeDepth(root);
      levelBufCount := 0;
      GatedTrees.RecordedGated(root, root, shots);
      FixTreeLevels(root, 0, maxTreeDepth);
    }
  }
}
