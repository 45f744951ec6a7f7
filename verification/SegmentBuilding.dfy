/** Building the wire segments of one branch: a chain of buffers below a driving net. */
module SegmentBuilding {
  import opened Netlists
  import opened ClockNets
  import opened LevelNames

  /** The buffers of the first n of the chosen wire segments; `buffers` tells how many each segment
      of the look-up table has. */
  function TotalBuffers(wires: seq<nat>, buffers: seq<nat>, n: nat): nat
    requires n <= |wires| && forall i :: 0 <= i < |wires| ==> wires[i] < |buffers|
  {
    if n == 0 then 0 else TotalBuffers(wires, buffers, n - 1) + buffers[wires[n - 1]]
  }

  /** Names of buffers added in a row, numbered from `from` on. */
  ghost predicate Numbered(bufs: seq<ClockInst>, prefix: string, netName: string, from: nat) {
    forall i {:trigger bufs[i]} :: 0 <= i < |bufs| ==> NumberedOne(bufs[i], prefix, netName, from + i)
  }

  ghost predicate NumberedOne(b: ClockInst, prefix: string, netName: string, i: nat) {
    b.gate == None && b.name == prefix + Decimal(i) + "_" + netName
  }

  lemma {:induction false} NumberedJoin(a: seq<ClockInst>, b: seq<ClockInst>, prefix: string, netName: string)
    requires Numbered(a, prefix, netName, 0) && Numbered(b, prefix, netName, |a|)
    ensures Numbered(a + b, prefix, netName, 0)
  {
  }

  lemma {:induction false} Regroup<T>(a: seq<T>, b: seq<T>, c: seq<T>)
    ensures a + b + c == a + (b + c)
  {
  }

  /** Two chains in a row are one. */
  lemma {:induction false} LinksJoin<T>(nets: Netlist<T>, k: nat, a: seq<T>, b: seq<T>, i: nat)
    requires k < |nets| && i <= |b|
    ensures Tail(|nets| + |a|, Tail(|nets|, k, |a|), i) == Tail(|nets|, k, |a| + i)
    ensures Links(Links(nets, k, a, |a|), Tail(|nets|, k, |a|), b, i) == Links(nets, k, a + b, |a| + i)
  {
    if i > 0 {
      LinksJoin(nets, k, a, b, i - 1);
    } else {
      LinksPrefix(nets, k, a, a + b, |a|);
    }
  }

  lemma {:induction false} ChainOn<T>(n0: Netlist<T>, k: nat, a: seq<T>, n1: Netlist<T>, t: nat, b: seq<T>)
    requires k < |n0| && n1 == Links(n0, k, a, |a|) && t == Tail(|n0|, k, |a|)
    ensures Links(n1, t, b, |b|) == Links(n0, k, a + b, |a + b|)
    ensures Tail(|n1|, t, |b|) == Tail(|n0|, k, |a + b|)
  {
    LinksJoin(n0, k, a, b, |b|);
  }

  /** Two chains in a row, and the buffers of the clock then. */
  lemma {:induction false} ChainsJoin<T>(bufs0: seq<T>, bufs1: seq<T>, bufs2: seq<T>, n0: Netlist<T>, n1: Netlist<T>,
                                         n2: Netlist<T>, k: nat, t1: nat, t: nat, a: seq<T>, b: seq<T>)
    requires k < |n0| && n1 == Links(n0, k, a, |a|) && t1 == Tail(|n0|, k, |a|)
    requires n2 == Links(n1, t1, b, |b|) && t == Tail(|n1|, t1, |b|) && bufs1 == bufs0 + a && bufs2 == bufs1 + b
    ensures n2 == Links(n0, k, a + b, |a + b|) && t == Tail(|n0|, k, |a + b|) && bufs2 == bufs0 + (a + b)
  {
    ChainOn(n0, k, a, n1, t1, b);
    Regroup(bufs0, a, b);
  }

  lemma {:induction false} NumberedSnoc(bufs: seq<ClockInst>, b: ClockInst, prefix: string, netName: string, from: nat)
    requires Numbered(bufs, prefix, netName, from) && NumberedOne(b, prefix, netName, from + |bufs|)
    ensures Numbered(bufs + [b], prefix, netName, from)
  {
  }

  class SegmentBuilder {
    const instPrefix: string
    const netPrefix: string
    const techCharWires: seq<nat>
    const clock: Clock
    var drivingSubNet: ClockSubNet
    var numBufferLevels: nat

    constructor (instPrefix: string, netPrefix: string, techCharWires: seq<nat>, clock: Clock, drivingSubNet: ClockSubNet)
      ensures this.instPrefix == instPrefix && this.netPrefix == netPrefix && this.techCharWires == techCharWires
      ensures this.clock == clock && this.drivingSubNet == drivingSubNet && numBufferLevels == 0
    {
      this.instPrefix, this.netPrefix, this.techCharWires := instPrefix, netPrefix, techCharWires;
      this.clock, this.drivingSubNet, numBufferLevels := clock, drivingSubNet, 0;
    }

    /** Hang a new buffer on the driving net; the net it drives is the driving net from now on. */
    method AddBuffer(instName: string, netName: string, ghost t: nat) returns (newBuffer: ClockInst)
      requires clock.Valid() && t < |clock.subNets| && clock.subNets[t] == drivingSubNet
      modifies this, clock, drivingSubNet
      ensures clock.Valid() && fresh(drivingSubNet) && clock.subNets == old(clock.subNets) + [drivingSubNet]
      ensures fresh(newBuffer) && clock.clockBuffers == old(clock.clockBuffers) + [newBuffer]
      ensures newBuffer.gate == None && newBuffer.name == instName + "_" + clock.netName
      ensures numBufferLevels == old(numBufferLevels) + 1
      ensures clock.Nets() == OneLink(old(clock.Nets()), t, newBuffer)
    {
      newBuffer := clock.AddClockBuffer(instName);
      Connect(clock, drivingSubNet, t, newBuffer);
      ghost var hung := clock.Nets();
      drivingSubNet := clock.AddSubNet(netName);
      Connect(clock, drivingSubNet, |clock.subNets| - 1, newBuffer);
      assert [] + [newBuffer] == [newBuffer];
      assert Attach(hung + [[]], |hung|, [newBuffer]) == OneLink(old(clock.Nets()), t, newBuffer);
      numBufferLevels := numBufferLevels + 1;
    }

    /** The same, with the names the next buffer gets. */
    method NextBuffer(ghost t: nat) returns (newBuffer: ClockInst)
      requires clock.Valid() && t < |clock.subNets| && clock.subNets[t] == drivingSubNet
      modifies this, clock, drivingSubNet
      ensures clock.Valid() && fresh(drivingSubNet) && clock.subNets == old(clock.subNets) + [drivingSubNet]
      ensures fresh(newBuffer) && clock.clockBuffers == old(clock.clockBuffers) + [newBuffer]
      ensures NumberedOne(newBuffer, instPrefix, clock.netName, old(numBufferLevels))
      ensures numBufferLevels == old(numBufferLevels) + 1
      ensures clock.Nets() == OneLink(old(clock.Nets()), t, newBuffer)
    {
      newBuffer := AddBuffer(instPrefix + Decimal(numBufferLevels), netPrefix + Decimal(numBufferLevels), t);
    }

    /** The buffers of one wire segment. */
    method BuildSegment(count: nat, ghost k: nat) returns (ghost bufs: seq<ClockInst>, ghost t: nat)
      requires clock.Valid() && k < |clock.subNets| && clock.subNets[k] == drivingSubNet
      modifies this, clock, drivingSubNet
      ensures Chain(clock, old(clock.Nets()), k, bufs) && |bufs| == count
      ensures numBufferLevels == old(numBufferLevels) + count
      ensures Numbered(bufs, instPrefix, clock.netName, old(numBufferLevels))
      ensures t == Tail(|old(clock.Nets())|, k, count) && drivingSubNet == clock.subNets[t]
      ensures count > 0 ==> fresh(drivingSubNet)
    {
      ghost var n0 := clock.Nets();
      bufs, t := [], k;
      var buffer := 0;
      while buffer < count
        invariant |bufs| == buffer <= count && numBufferLevels == old(numBufferLevels) + buffer
        invariant Chain(clock, n0, k, bufs)
        invariant Numbered(bufs, instPrefix, clock.netName, old(numBufferLevels))
        invariant t == Tail(|n0|, k, buffer) && drivingSubNet == clock.subNets[t]
        invariant if buffer == 0 then drivingSubNet == old(drivingSubNet) else fresh(drivingSubNet)
      {
        ghost var nets1, n1 := clock.subNets, clock.Nets();
        var newBuffer := NextBuffer(t);
        ChainLinked(clock, n0, n1, k, nets1, bufs, newBuffer, drivingSubNet);
        NumberedSnoc(bufs, newBuffer, instPrefix, clock.netName, old(numBufferLevels));
        bufs, t := bufs + [newBuffer], |clock.subNets| - 1;
        buffer := buffer + 1;
      }
    }

    /** The buffers of all segments. */
    method Build(buffers: seq<nat>, ghost k: nat) returns (ghost bufs: seq<ClockInst>, ghost t: nat)
      requires clock.Valid() && k < |clock.subNets| && clock.subNets[k] == drivingSubNet && numBufferLevels == 0
      requires forall i :: 0 <= i < |techCharWires| ==> techCharWires[i] < |buffers|
      modifies this, clock, drivingSubNet
      ensures Chain(clock, old(clock.Nets()), k, bufs)
      ensures |bufs| == numBufferLevels == TotalBuffers(techCharWires, buffers, |techCharWires|)
      ensures Numbered(bufs, instPrefix, clock.netName, 0)
      ensures t == Tail(|old(clock.Nets())|, k, |bufs|) && drivingSubNet == clock.subNets[t]
      ensures |bufs| > 0 ==> fresh(drivingSubNet)
    {
      ghost var n0 := clock.Nets();
      bufs, t := [], k;
      var i := 0;
      while i < |techCharWires|
        invariant i <= |techCharWires| && |bufs| == numBufferLevels == TotalBuffers(techCharWires, buffers, i)
        invariant Chain(clock, n0, k, bufs)
        invariant Numbered(bufs, instPrefix, clock.netName, 0)
        invariant t == Tail(|n0|, k, |bufs|) && drivingSubNet == clock.subNets[t]
        invariant if |bufs| == 0 then drivingSubNet == old(drivingSubNet) else fresh(drivingSubNet)
      {
        ghost var n1, t1, bufs1 := clock.Nets(), t, clock.clockBuffers;
        ghost var more;
        assert TotalBuffers(techCharWires, buffers, i + 1) == TotalBuffers(techCharWires, buffers, i) + buffers[techCharWires[i]];
        more, t := BuildSegment(buffers[techCharWires[i]], t1);
        ChainsJoin(old(clock.clockBuffers), bufs1, clock.clockBuffers, n0, n1, clock.Nets(), k, t1, t, bufs, more);
        NumberedJoin(bufs, more, instPrefix, clock.netName);
        bufs := bufs + more;
        i := i + 1;
      }
    }

    /** Make sure that the branch has a buffer at all. */
    method ForceBufferInSegment(ghost k: nat) returns (ghost bufs: seq<ClockInst>, ghost t: nat)
      requires clock.Valid() && k < |clock.subNets| && clock.subNets[k] == drivingSubNet
      modifies this, clock, drivingSubNet
      ensures Chain(clock, old(clock.Nets()), k, bufs)
      ensures |bufs| == (if old(numBufferLevels) == 0 then 1 else 0) && numBufferLevels == old(numBufferLevels) + |bufs|
      ensures bufs != [] ==> bufs[0].gate == None && bufs[0].name == instPrefix + "_f" + "_" + clock.netName
      ensures t == Tail(|old(clock.Nets())|, k, |bufs|) && drivingSubNet == clock.subNets[t]
      ensures |bufs| > 0 ==> fresh(drivingSubNet)
    {
      bufs, t := [], k;
      if numBufferLevels != 0 {
        return;
      }
      ghost var n0 := clock.Nets();
      var newBuffer := AddBuffer(instPrefix + "_f", netPrefix + "_leaf", k);
      bufs, t := [newBuffer], |clock.subNets| - 1;
      LinksSnoc(n0, k, [], newBuffer);
      assert [] + [newBuffer] == bufs;
    }
  }
}
