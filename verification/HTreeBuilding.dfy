/** Building the clock nets of an H-tree from its levels of branching points. */
module HTreeBuilding {
  import opened Netlists
  import opened ClockNets
  import Clusterings
  import opened Branching
  import opened BranchNets
  import opened LeafNets
  import LevelNames
  import opened SegmentBuilding
  import TreeGrowth

  /** The nets that drive the branches of a level are where the level says they are. */
  ghost predicate OnClock(topology: LevelTopology, clock: Clock)
    reads topology, clock
  {
    && topology.Valid()
    && forall b :: 0 <= b < |topology.drivingIdx| && topology.drivingIdx[b].Some? ==>
         && topology.drivingIdx[b].value < |clock.subNets|
         && clock.subNets[topology.drivingIdx[b].value] == topology.branchDrivingSubNet[b]
  }

  /** Since the start, the clock has got the given new buffers and some new nets. */
  twostate predicate Extended(clock: Clock, new bufs: seq<ClockInst>)
    reads clock, clock.subNets
  {
    && clock.Valid() && old(clock.subNets) <= clock.subNets
    && (forall i :: |old(clock.subNets)| <= i < |clock.subNets| ==> fresh(clock.subNets[i]))
    && clock.clockBuffers == old(clock.clockBuffers) + bufs
    && (forall x :: x in bufs ==> fresh(x))
  }

  /** The finished tree: complete, and one tree in which each sink and each buffer is attached exactly
      once, with its leaf nets marked. */
  ghost predicate AllAttached(l: Leaves<ClockInst>, clock: Clock, top: seq<Point>)
    reads clock, clock.subNets
  {
    && Complete(l, clock.Nets(), top) && TreeGrowth.OneTree(l.n0, clock.Nets(), l.bufs, Insts(l.m, top))
    && forall b :: 0 <= b < |l.at| && l.at[b].Some? ==>
         l.at[b].value < |clock.subNets| && clock.subNets[l.at[b].value].leafLevel
  }

  class HTreeBuilder {
    const clock: Clock
    /** How many buffers each wire segment of the look-up table has. */
    const buffers: seq<nat>
    var topologyForEachLevel: seq<LevelTopology>
    var topLevelSinksClustered: seq<Point>
    var mapLocationToSink: map<Point, ClockInst>
    var treeBufLevels: nat

    constructor (clock: Clock, buffers: seq<nat>)
      ensures this.clock == clock && this.buffers == buffers && topologyForEachLevel == [] && treeBufLevels == 0
      ensures topLevelSinksClustered == [] && mapLocationToSink == map[]
    {
      this.clock, this.buffers := clock, buffers;
      topologyForEachLevel, topLevelSinksClustered, mapLocationToSink, treeBufLevels := [], [], map[], 0;
    }

    /** Build the segments of one branch below the given net. */
    method BuildSegments(wires: seq<nat>, tag: string, parentNet: ClockSubNet, last: bool, ghost k: nat)
      returns (net: ClockSubNet, levels: nat, ghost bufs: seq<ClockInst>, ghost t: nat)
      requires clock.Valid() && k < |clock.subNets| && clock.subNets[k] == parentNet && WiresKnown(wires, buffers)
      modifies clock, parentNet
      ensures Chain(clock, old(clock.Nets()), k, bufs)
      ensures |bufs| == levels == LevelBuffers(wires, buffers, last)
      ensures t == Tail(|old(clock.Nets())|, k, |bufs|) && clock.subNets[t] == net
    {
      var builder := new SegmentBuilder("clkbuf_" + tag, "clknet_" + tag, wires, clock, parentNet);
      bufs, t := builder.Build(buffers, k);
      if last {
        ghost var more, t' := builder.ForceBufferInSegment(t);
        if bufs == [] {
          bufs, t := more, t';
        }
      }
      net, levels := builder.drivingSubNet, builder.numBufferLevels;
    }

    /** Build the segments of a branch and note which net drives it. */
    method BuildAndNote(topology: LevelTopology, levelNo: nat, idx: nat, parentNet: ClockSubNet, last: bool, ghost k: nat)
      returns (levels: nat, ghost more: seq<ClockInst>, ghost t: nat)
      requires clock.Valid() && k < |clock.subNets| && clock.subNets[k] == parentNet
      requires OnClock(topology, clock) && idx < |topology.drivingIdx| && WiresKnown(topology.wireSegments, buffers)
      modifies clock, parentNet, topology`branchDrivingSubNet, topology`drivingIdx
      ensures Extended(clock, more) && clock.Nets() == Links(old(clock.Nets()), k, more, |more|)
      ensures |more| == levels == LevelBuffers(topology.wireSegments, buffers, last)
      ensures t == Tail(|old(clock.Nets())|, k, |more|)
      ensures OnClock(topology, clock) && topology.drivingIdx == old(topology.drivingIdx)[idx := Some(t)]
    {
      var net;
      net, levels, more, t := BuildSegments(topology.wireSegments, LevelNames.Decimal(levelNo) + "_" + LevelNames.Decimal(idx) + "_",
                                            parentNet, last, k);
      topology.SetBranchDrivingSubNet(idx, net, t);
    }

    /** The first n branches of a level have been built. */
    ghost predicate Built(topology: LevelTopology, p: Plan<ClockInst>, bufs: seq<ClockInst>, n: nat)
      reads clock, clock.subNets, topology
    {
      && clock.Valid() && OnClock(topology, clock) && p.sinks == topology.branchSinkLocs
      && Stage(p, clock.Nets(), bufs, topology.drivingIdx, n)
    }

    /** Build one branch that has sinks, below the net of branch a above. */
    method BuildBranch(topology: LevelTopology, levelNo: nat, idx: nat, parentNet: ClockSubNet, last: bool,
                       ghost p: Plan<ClockInst>, ghost bufs: seq<ClockInst>, ghost a: nat, ghost k: nat)
      returns (levels: nat, ghost more: seq<ClockInst>)
      requires Built(topology, p, bufs, idx) && idx < |p.sinks| && p.sinks[idx] != []
      requires a < |p.aboveAt| && p.aboveAt[a] == Some(k) && k < |clock.subNets| && clock.subNets[k] == parentNet
      requires WiresKnown(topology.wireSegments, buffers)
      requires p.levels == LevelBuffers(topology.wireSegments, buffers, last)
      modifies clock, parentNet, topology`branchDrivingSubNet, topology`drivingIdx
      ensures Extended(clock, more) && levels == p.levels
      ensures Built(topology, p, bufs + more, idx + 1)
    {
      ghost var nets, at := clock.Nets(), topology.drivingIdx;
      ghost var t;
      levels, more, t := BuildAndNote(topology, levelNo, idx, parentNet, last, k);
      StageStep(p, nets, clock.Nets(), bufs, more, at, idx, a, k, t);
    }

    /** The branches of the first level. */
    method BuildTopLevel(topology: LevelTopology, rootNet: ClockSubNet, last: bool, ghost top: seq<Point>,
                         ghost p: Plan<ClockInst>, ghost bufs: seq<ClockInst>)
      returns (ghost more: seq<ClockInst>)
      requires Built(topology, p, bufs, 0) && TopHalves(top, topology.branchSinkLocs, topology.parents)
      requires p.above == [top] && p.aboveAt == RootAt(top, p.Root())
      requires p.Root() < |clock.subNets| && clock.subNets[p.Root()] == rootNet
      requires WiresKnown(topology.wireSegments, buffers)
      requires p.levels == LevelBuffers(topology.wireSegments, buffers, last)
      modifies `treeBufLevels, clock, rootNet, topology`branchDrivingSubNet, topology`drivingIdx
      ensures Extended(clock, more) && Built(topology, p, bufs + more, |p.sinks|)
      ensures treeBufLevels == old(treeBufLevels) + if NoSinks(p.sinks, |p.sinks|) then 0 else p.levels
    {
      var isFirstPoint := true;
      more := [];
      assert bufs + more == bufs;
      var idx := 0;
      while idx < |topology.branchSinkLocs|
        invariant idx <= |p.sinks| && Extended(clock, more) && Built(topology, p, bufs + more, idx)
        invariant p.Root() < |clock.subNets| && clock.subNets[p.Root()] == rootNet
        invariant isFirstPoint <==> NoSinks(p.sinks, idx)
        invariant treeBufLevels == old(treeBufLevels) + if isFirstPoint then 0 else p.levels
      {
        if topology.branchSinkLocs[idx] == [] {
          StageSkip(p, clock.Nets(), bufs + more, topology.drivingIdx, idx);
        } else {
          assert topology.branchSinkLocs[idx][0] in multiset(top);
          ghost var m;
          var levels;
          levels, m := BuildBranch(topology, 1, idx, rootNet, last, p, bufs + more, 0, p.Root());
          if isFirstPoint {
            treeBufLevels := treeBufLevels + levels;
            isFirstPoint := false;
          }
          Regroup(bufs, more, m);
          Regroup(old(clock.clockBuffers), more, m);
          more := more + m;
        }
        idx := idx + 1;
      }
    }

    /** The branches of a further level, each below its parent branch. */
    method BuildNextLevel(topology: LevelTopology, parentTopology: LevelTopology, levelIdx: nat, last: bool,
                          ghost p: Plan<ClockInst>, ghost bufs: seq<ClockInst>)
      returns (ghost more: seq<ClockInst>)
      requires topology != parentTopology && Built(topology, p, bufs, 0) && OnClock(parentTopology, clock)
      requires p.above == parentTopology.branchSinkLocs && p.aboveAt == parentTopology.drivingIdx
      requires Halves(p.above, topology.branchSinkLocs, topology.parents, |p.above|)
      requires p.start == |clock.subNets| && WiresKnown(topology.wireSegments, buffers)
      requires p.levels == LevelBuffers(topology.wireSegments, buffers, last)
      modifies `treeBufLevels, clock, clock.subNets, topology`branchDrivingSubNet, topology`drivingIdx
      ensures Extended(clock, more) && Built(topology, p, bufs + more, |p.sinks|)
      ensures treeBufLevels == old(treeBufLevels) + if NoSinks(p.sinks, |p.sinks|) then 0 else p.levels
    {
      var isFirstPoint := true;
      more := [];
      assert bufs + more == bufs;
      var idx := 0;
      while idx < |topology.branchSinkLocs|
        invariant idx <= |p.sinks| && Extended(clock, more) && Built(topology, p, bufs + more, idx)
        invariant isFirstPoint <==> NoSinks(p.sinks, idx)
        invariant treeBufLevels == old(treeBufLevels) + if isFirstPoint then 0 else p.levels
      {
        if topology.branchSinkLocs[idx] == [] {
          StageSkip(p, clock.Nets(), bufs + more, topology.drivingIdx, idx);
        } else {
          ParentHasSinks(p.above, p.sinks, topology.parents, idx);
          var parentIdx := topology.parents[idx].value;
          StageAbove(p, clock.Nets(), bufs + more, topology.drivingIdx, idx, parentIdx);
          var parentNet: ClockSubNet := parentTopology.branchDrivingSubNet[parentIdx];
          ghost var m;
          var levels;
          levels, m := BuildBranch(topology, levelIdx + 1, idx, parentNet, last, p, bufs + more, parentIdx,
                                   p.aboveAt[parentIdx].value);
          if isFirstPoint {
            treeBufLevels := treeBufLevels + levels;
            isFirstPoint := false;
          }
          Regroup(bufs, more, m);
          Regroup(old(clock.clockBuffers), more, m);
          more := more + m;
        }
        idx := idx + 1;
      }
    }

    // ----- all levels -----

    /** The levels are as their branching points were computed. */
    ghost predicate Laid(levels: seq<Level>)
      reads `topologyForEachLevel, `topLevelSinksClustered, topologyForEachLevel
    {
      && |levels| == |topologyForEachLevel| && Halving(topLevelSinksClustered, levels)
      && (forall i, j :: 0 <= i < j < |topologyForEachLevel| ==> topologyForEachLevel[i] != topologyForEachLevel[j])
      && forall i {:trigger levels[i]} :: 0 <= i < |levels| ==> LaidAt(levels[i], topologyForEachLevel[i])
    }

    ghost predicate LaidAt(level: Level, topology: LevelTopology)
      reads topology
    {
      && topology.Valid() && level == Level(topology.wireSegments, topology.parents, topology.branchSinkLocs)
      && WiresKnown(level.wires, buffers)
    }

    /** Compute the branching points of one more level.  Which wire segments it gets has been
        decided before. */
    method AddLevel(wires: seq<nat>, halve: bool, fraction: real, rounds: nat -> Clusterings.Rounds, ghost levels: seq<Level>)
      returns (ghost level: Level)
      requires Laid(levels) && Bare(0) && WiresKnown(wires, buffers) && fraction >= 0.0
      modifies `topologyForEachLevel
      ensures level.wires == wires && Laid(levels + [level]) && Bare(0)
      ensures exists topology :: fresh(topology) && topologyForEachLevel == old(topologyForEachLevel) + [topology]
    {
      var topology := new LevelTopology();
      for i := 0 to |wires|
        invariant topology.Valid() && topology.parents == [] && topology.wireSegments == wires[..i]
        invariant topologyForEachLevel == old(topologyForEachLevel)
      {
        topology.AddWireSegment(wires[i]);
      }
      assert wires[..|wires|] == wires;
      var n := |topologyForEachLevel|;
      assert n > 0 ==> LaidAt(levels[n - 1], topologyForEachLevel[n - 1]);
      if n == 0 {
        ComputeTopBranchingPoints(topology, topLevelSinksClustered, halve, fraction, rounds(0));
      } else {
        ComputeBranchingPoints(topology, topologyForEachLevel[n - 1], halve, fraction, rounds);
      }
      level := Level(topology.wireSegments, topology.parents, topology.branchSinkLocs);
      HalvingSnoc(topLevelSinksClustered, levels, level);
      topologyForEachLevel := topologyForEachLevel + [topology];
    }

    /** No branch of the levels from n on has a net yet. */
    ghost predicate Bare(n: nat)
      reads `topologyForEachLevel, topologyForEachLevel
    {
      forall i :: n <= i < |topologyForEachLevel| ==> NoNets(topologyForEachLevel[i].drivingIdx)
    }

    /** The first n levels have been built. */
    ghost predicate UpTo(levels: seq<Level>, n: nat, p: Plan<ClockInst>, bufs: seq<ClockInst>)
      reads this, clock, clock.subNets, topologyForEachLevel
    {
      && Laid(levels) && Bare(n) && 0 < n <= |levels|
      && Built(topologyForEachLevel[n - 1], p, bufs, |p.sinks|)
      && (forall i :: 0 <= i < |levels| ==> WiresKnown(levels[i].wires, buffers))
      && p.depth + p.levels == DepthTo(levels, buffers, n) && p.last == (n == |levels|)
    }

    /** Build the level after the first n. */
    method BuildLevel(n: nat, topology: LevelTopology, ghost levels: seq<Level>, ghost p: Plan<ClockInst>, ghost bufs: seq<ClockInst>)
      returns (ghost q: Plan<ClockInst>, ghost more: seq<ClockInst>)
      requires UpTo(levels, n, p, bufs) && n < |levels| && topologyForEachLevel[n] == topology
      modifies `treeBufLevels, clock, clock.subNets
      modifies topology`branchDrivingSubNet, topology`drivingIdx
      ensures Extended(clock, more) && UpTo(levels, n + 1, q, bufs + more) && q.n0 == p.n0
      ensures treeBufLevels == old(treeBufLevels)
              + if NoSinks(levels[n].sinks, |levels[n].sinks|) then 0 else LevelBuffers(levels[n].wires, buffers, n + 1 == |levels|)
    {
      var parentTopology := topologyForEachLevel[n - 1];
      var last := n == |topologyForEachLevel| - 1;
      assert LaidAt(levels[n], topology) && LaidAt(levels[n - 1], parentTopology) && HalvesAt(levels, n);
      ghost var wide := LevelBuffers(levels[n].wires, buffers, last);
      StageNext(p, clock.Nets(), bufs, parentTopology.drivingIdx, levels[n].sinks, topology.drivingIdx, wide, last);
      q := Plan(p.n0, p.sinks, parentTopology.drivingIdx, p.depth + p.levels, levels[n].sinks, wide, |clock.Nets()|, last);
      more := BuildNextLevel(topology, parentTopology, n, last, q, bufs);
    }

    /** The root buffer and its net. */
    method CreateRoot() returns (rootNet: ClockSubNet, ghost root: ClockInst)
      requires clock.Valid()
      modifies `treeBufLevels, clock
      ensures Extended(clock, [root]) && root.name == "clkbuf_0_" + clock.netName
      ensures clock.Nets() == old(clock.Nets()) + [[root]] && clock.subNets == old(clock.subNets) + [rootNet]
      ensures treeBufLevels == old(treeBufLevels) + 1
    {
      ghost var nets := clock.Nets();
      var rootBuffer := clock.AddClockBuffer("clkbuf_0");
      rootNet := clock.AddSubNet("clknet_0");
      Connect(clock, rootNet, |clock.subNets| - 1, rootBuffer);
      assert [] + [rootBuffer] == [rootBuffer];
      assert Attach(nets + [[]], |nets|, [rootBuffer]) == nets + [[rootBuffer]];
      assert "clkbuf_0" + "_" == "clkbuf_0_";
      treeBufLevels := treeBufLevels + 1;
      root := rootBuffer;
    }

    /** The first level, below the root. */
    method BuildFirstLevel(topology: LevelTopology, rootNet: ClockSubNet, ghost n0: Netlist<ClockInst>, ghost root: ClockInst,
                           ghost levels: seq<Level>)
      returns (ghost p: Plan<ClockInst>, ghost more: seq<ClockInst>)
      requires clock.Valid() && Laid(levels) && Bare(0) && levels != [] && topologyForEachLevel[0] == topology
      requires Driven(n0) && clock.Nets() == n0 + [[root]] && clock.subNets[|n0|] == rootNet
      modifies `treeBufLevels, clock, rootNet, topology`branchDrivingSubNet, topology`drivingIdx
      ensures Extended(clock, more) && UpTo(levels, 1, p, [root] + more) && p.n0 == n0
      ensures treeBufLevels == old(treeBufLevels) + if topLevelSinksClustered == [] then 0 else DepthTo(levels, buffers, 1)
    {
      var last := |topologyForEachLevel| == 1;
      ghost var top := topLevelSinksClustered;
      assert LaidAt(levels[0], topology);
      ghost var wide := LevelBuffers(levels[0].wires, buffers, last);
      StageFirst(n0, root, top, levels[0].sinks, topology.drivingIdx, wide, last);
      p := Plan(n0, [top], RootAt(top, |n0|), 0, levels[0].sinks, wide, |n0| + 1, last);
      SinksOrNot(top, levels, 0);
      assert DepthTo(levels, buffers, 1) == DepthTo(levels, buffers, 0) + wide by {
        assert forall i :: 0 <= i < |levels| ==> LaidAt(levels[i], topologyForEachLevel[i]);
      }
      more := BuildTopLevel(topology, rootNet, last, top, p, [root]);
    }

    /** All levels, from the root down. */
    method BuildLevels(rootNet: ClockSubNet, ghost n0: Netlist<ClockInst>, ghost root: ClockInst, ghost levels: seq<Level>)
      returns (ghost p: Plan<ClockInst>, ghost more: seq<ClockInst>)
      requires clock.Valid() && Laid(levels) && Bare(0) && levels != []
      requires Driven(n0) && clock.Nets() == n0 + [[root]] && clock.subNets[|n0|] == rootNet
      modifies `treeBufLevels, clock, clock.subNets, topologyForEachLevel
      ensures Extended(clock, more) && UpTo(levels, |levels|, p, [root] + more) && p.n0 == n0
      ensures treeBufLevels == old(treeBufLevels) + if topLevelSinksClustered == [] then 0 else DepthTo(levels, buffers, |levels|)
    {
      p, more := BuildFirstLevel(topologyForEachLevel[0], rootNet, n0, root, levels);
      var n := 1;
      while n < |topologyForEachLevel|
        invariant 1 <= n <= |levels| && Extended(clock, more) && UpTo(levels, n, p, [root] + more) && p.n0 == n0
        invariant treeBufLevels == old(treeBufLevels) + if topLevelSinksClustered == [] then 0 else DepthTo(levels, buffers, n)
      {
        SinksOrNot(topLevelSinksClustered, levels, n);
        ghost var m;
        p, m := BuildLevel(n, topologyForEachLevel[n], levels, p, [root] + more);
        Regroup([root], more, m);
        Regroup(old(clock.clockBuffers), more, m);
        more := more + m;
        n := n + 1;
      }
    }

    // ----- the sinks -----

    /** Attach the sinks at the given locations to a bare leaf net.  It fails if a location is
        unknown. */
    method AttachSinks(net: ClockSubNet, ghost t: nat, locs: seq<Point>) returns (ok: bool)
      requires clock.Valid() && t < |clock.subNets| && clock.subNets[t] == net
      requires |net.instances| == 1 && net.instances[0] !in mapLocationToSink.Values
      requires Distinct(locs) && Injective(mapLocationToSink)
      modifies net
      ensures clock.Valid() && ok == Known(mapLocationToSink, locs)
      ensures ok ==> clock.Nets() == Attach(old(clock.Nets()), t, Insts(mapLocationToSink, locs))
      ensures net.leafLevel == old(net.leafLevel)
    {
      ghost var nets := clock.Nets();
      AttachTwice(nets, t, [], []);
      assert Insts(mapLocationToSink, locs[..0]) == [];
      for i := 0 to |locs|
        invariant clock.Valid() && Known(mapLocationToSink, locs[..i])
        invariant clock.Nets() == Attach(nets, t, Insts(mapLocationToSink, locs[..i]))
        invariant net.instances == nets[t] + Insts(mapLocationToSink, locs[..i]) && net.leafLevel == old(net.leafLevel)
      {
        var loc := locs[i];
        if loc !in mapLocationToSink {
          return false;
        }
        assert locs[..i + 1] == locs[..i] + [loc] && loc !in locs[..i];
        assert Insts(mapLocationToSink, locs[..i + 1]) == Insts(mapLocationToSink, locs[..i]) + [mapLocationToSink[loc]];
        assert mapLocationToSink[loc] in mapLocationToSink.Values;
        Connect(clock, net, t, mapLocationToSink[loc]);
        AttachTwice(nets, t, Insts(mapLocationToSink, locs[..i]), [mapLocationToSink[loc]]);
      }
      assert locs[..|locs|] == locs;
      ok := true;
    }

    /** One leaf: mark its net and attach its sinks.  A leaf without a net has no sinks. */
    method AttachLeaf(topology: LevelTopology, idx: nat, ghost l: Leaves<ClockInst>) returns (ok: bool)
      requires clock.Valid() && OnClock(topology, clock) && l.sinks == topology.branchSinkLocs && l.at == topology.drivingIdx
      requires l.m == mapLocationToSink && Hanging(l, clock.Nets(), idx) && idx < |l.sinks|
      requires (forall x :: x in l.bufs ==> x !in l.m.Values) && Injective(l.m) && Distinct(Flat(l.sinks, |l.sinks|))
      modifies clock.subNets
      ensures clock.Valid() && ok == Known(l.m, l.sinks[idx])
      ensures ok ==> Hanging(l, clock.Nets(), idx + 1)
      ensures l.at[idx].Some? ==> clock.subNets[l.at[idx].value].leafLevel
      ensures forall n :: n in clock.subNets && old(n.leafLevel) ==> n.leafLevel
    {
      ghost var nets := clock.Nets();
      BareLeaf(l, nets, idx);
      var subNet := topology.branchDrivingSubNet[idx];
      if subNet == null {
        EmptyLeaf(l, nets, idx);
        return true;
      }
      ghost var k := l.at[idx].value;
      subNet.SetLeafLevel(true);
      assert clock.Nets() == nets;
      PartDistinct(l.sinks, idx);
      ok := AttachSinks(subNet, k, topology.branchSinkLocs[idx]);
      if ok {
        FullLeaf(l, nets, idx, k);
      }
    }

    /** All leaves, until a location is unknown. */
    method AttachLeaves(leafTopology: LevelTopology, ghost l: Leaves<ClockInst>) returns (ok: bool)
      requires clock.Valid() && OnClock(leafTopology, clock)
      requires l.sinks == leafTopology.branchSinkLocs && l.at == leafTopology.drivingIdx
      requires l.m == mapLocationToSink && Hanging(l, clock.Nets(), 0)
      requires (forall x :: x in l.bufs ==> x !in l.m.Values) && Injective(l.m) && Distinct(Flat(l.sinks, |l.sinks|))
      modifies clock.subNets
      ensures clock.Valid() && ok == Known(l.m, Flat(l.sinks, |l.sinks|))
      ensures ok ==> Hanging(l, clock.Nets(), |l.sinks|)
      ensures ok ==> forall b :: 0 <= b < |l.at| && l.at[b].Some? ==> clock.subNets[l.at[b].value].leafLevel
    {
      KnownFlat(l.m, l.sinks, |l.sinks|);
      var idx := 0;
      while idx < |leafTopology.branchSinkLocs|
        invariant idx <= |l.sinks| && clock.Valid() && Hanging(l, clock.Nets(), idx)
        invariant forall b :: 0 <= b < idx ==> Known(l.m, l.sinks[b])
        invariant forall b :: 0 <= b < idx && l.at[b].Some? ==> clock.subNets[l.at[b].value].leafLevel
      {
        ok := AttachLeaf(leafTopology, idx, l);
        if !ok {
          return;
        }
        idx := idx + 1;
      }
      ok := true;
    }

    /** The depth of the levels laid out. */
    ghost predicate DepthIs(levels: seq<Level>, depth: nat) {
      (forall i :: 0 <= i < |levels| ==> WiresKnown(levels[i].wires, buffers)) && depth == DepthTo(levels, buffers, |levels|)
    }

    /** All nets of the tree, with the leaf nets still bare. */
    method BuildTree(ghost levels: seq<Level>) returns (leafTopology: LevelTopology, ghost l: Leaves<ClockInst>)
      requires clock.Valid() && Driven(clock.Nets()) && Laid(levels) && Bare(0) && levels != []
      modifies `treeBufLevels, clock, clock.subNets, topologyForEachLevel
      ensures Extended(clock, l.bufs) && l.bufs != [] && l.bufs[0].name == "clkbuf_0_" + clock.netName
      ensures OnClock(leafTopology, clock) && l.sinks == leafTopology.branchSinkLocs && l.at == leafTopology.drivingIdx
      ensures l.n0 == old(clock.Nets()) && l.m == mapLocationToSink && l.sinks == levels[|levels| - 1].sinks
      ensures Hanging(l, clock.Nets(), 0) && OwnBuffers(l) && DepthIs(levels, l.depth)
      ensures topLevelSinksClustered != [] ==> treeBufLevels == old(treeBufLevels) + 1 + l.depth
    {
      ghost var n0, n := clock.Nets(), |levels|;
      var rootNet;
      ghost var root, p, more;
      rootNet, root := CreateRoot();
      p, more := BuildLevels(rootNet, n0, root, levels);
      leafTopology := topologyForEachLevel[|topologyForEachLevel| - 1];
      assert LaidAt(levels[n - 1], leafTopology);
      BareLeaves(p, clock.Nets(), [root] + more, leafTopology.drivingIdx, mapLocationToSink);
      Regroup(old(clock.clockBuffers), [root], more);
      l := Leaves(n0, [root] + more, p.depth + p.levels, p.sinks, leafTopology.drivingIdx, mapLocationToSink);
      FreshAreNew(n0, l.bufs);
      LastDiffer(old(clock.clockBuffers), l.bufs);
    }

    /** All leaves, seen from the sinks there were to begin with. */
    method FinishLeaves(leafTopology: LevelTopology, ghost l: Leaves<ClockInst>) returns (ok: bool)
      requires clock.Valid() && OnClock(leafTopology, clock)
      requires l.sinks == leafTopology.branchSinkLocs && l.at == leafTopology.drivingIdx
      requires l.m == mapLocationToSink && Hanging(l, clock.Nets(), 0)
      requires OwnBuffers(l) && Injective(l.m) && NoSinksYet(l.m, topLevelSinksClustered, l.n0)
      requires Distinct(topLevelSinksClustered) && multiset(Flat(l.sinks, |l.sinks|)) == multiset(topLevelSinksClustered)
      modifies clock.subNets
      ensures clock.Valid() && ok == Known(l.m, topLevelSinksClustered)
      ensures ok ==> AllAttached(l, clock, topLevelSinksClustered)
    {
      DistinctPerm(topLevelSinksClustered, Flat(l.sinks, |l.sinks|));
      KnownPerm(l.m, Flat(l.sinks, |l.sinks|), topLevelSinksClustered);
      ok := AttachLeaves(leafTopology, l);
      if ok {
        AllLeaves(l, clock.Nets(), topLevelSinksClustered);
        CompleteIsOne(l, clock.Nets(), topLevelSinksClustered);
      }
    }

    /** The clock nets of the whole tree.  It fails if a sink location is unknown. */
    method CreateClockSubNets(ghost levels: seq<Level>) returns (ok: bool, ghost l: Leaves<ClockInst>)
      requires clock.Valid() && Driven(clock.Nets()) && Laid(levels) && Bare(0) && levels != []
      requires Injective(mapLocationToSink) && Distinct(topLevelSinksClustered)
      requires NoSinksYet(mapLocationToSink, topLevelSinksClustered, clock.Nets())
      modifies `treeBufLevels, clock, clock.subNets, topologyForEachLevel
      ensures Extended(clock, l.bufs) && l.bufs != [] && l.bufs[0].name == "clkbuf_0_" + clock.netName
      ensures ok == Known(mapLocationToSink, topLevelSinksClustered)
      ensures l.n0 == old(clock.Nets()) && l.m == mapLocationToSink && l.sinks == levels[|levels| - 1].sinks
      ensures ok ==> AllAttached(l, clock, topLevelSinksClustered)
      ensures DepthIs(levels, l.depth)
      ensures topLevelSinksClustered != [] ==> treeBufLevels == old(treeBufLevels) + 1 + l.depth
    {
      LevelHoldsAll(topLevelSinksClustered, levels, |levels| - 1);
      var leafTopology;
      leafTopology, l := BuildTree(levels);
      ok := FinishLeaves(leafTopology, l);
    }
  }
}
