/** The clock netlist that the tree builders edit: instances, subnets and the clock itself. */
module ClockNets {
  import opened Netlists

  datatype Option<T> = None | Some(value: T)

  /** An instance on the clock tree.  `gate` is the database instance that owns its input pin;
      the buffers that the tree builders add have no input pin yet. */
  class ClockInst {
    const name: string
    const gate: Option<nat>

    constructor (name: string, gate: Option<nat>)
      ensures this.name == name && this.gate == gate
    {
      this.name, this.gate := name, gate;
    }
  }

  /** Of the first n instances of s, those that are not to be removed, in order. */
  function Without(s: seq<ClockInst>, n: nat, gone: set<ClockInst>): (r: seq<ClockInst>)
    requires n <= |s|
    ensures forall x :: x in r ==> x in s[..n] && x !in gone
    ensures forall x :: x in s[..n] && x !in gone ==> x in r
  {
    if n == 0 then []
    else
      assert s[..n] == s[..n - 1] + [s[n - 1]];
      Without(s, n - 1, gone) + if s[n - 1] in gone then [] else [s[n - 1]]
  }

  predicate Distinct<T(==)>(s: seq<T>) {
    forall p, q :: 0 <= p < q < |s| ==> s[p] != s[q]
  }

  lemma {:induction false} WithoutDistinct(s: seq<ClockInst>, n: nat, gone: set<ClockInst>)
    requires n <= |s| && Distinct(s)
    ensures Distinct(Without(s, n, gone))
  {
    if n > 0 {
      WithoutDistinct(s, n - 1, gone);
      var r := Without(s, n - 1, gone);
      assert forall p :: 0 <= p < |r| ==> r[p] in r;
      assert s[n - 1] !in s[..n - 1];
    }
  }

  lemma {:induction false} LastDiffer(a: seq<ClockInst>, b: seq<ClockInst>)
    requires Distinct(a + b)
    ensures Distinct(b)
  {
    forall p, q | 0 <= p < q < |b|
      ensures b[p] != b[q]
    {
      assert b[p] == (a + b)[|a| + p] && b[q] == (a + b)[|a| + q];
    }
  }

  class ClockSubNet {
    const name: string
    var instances: seq<ClockInst>
    var mapInstToIdx: map<ClockInst, nat>
    var leafLevel: bool

    /** The index map is the inverse of the instance list. */
    ghost predicate Valid()
      reads this
    {
      && (forall i :: 0 <= i < |instances| ==> instances[i] in mapInstToIdx && mapInstToIdx[instances[i]] == i)
      && (forall x :: x in mapInstToIdx ==> mapInstToIdx[x] < |instances| && instances[mapInstToIdx[x]] == x)
    }

    constructor (name: string)
      ensures Valid() && this.name == name && instances == [] && !leafLevel
    {
      this.name, instances, mapInstToIdx, leafLevel := name, [], map[], false;
    }

    method SetLeafLevel(isLeaf: bool)
      modifies `leafLevel
      ensures leafLevel == isLeaf
    {
      leafLevel := isLeaf;
    }

    /** The map stays the inverse of the list exactly if the instance is new to the net. */
    method AddInst(inst: ClockInst)
      modifies `instances, `mapInstToIdx
      ensures instances == old(instances) + [inst] && mapInstToIdx == old(mapInstToIdx)[inst := |old(instances)|]
      ensures old(Valid()) ==> (Valid() <==> inst !in old(instances))
    {
      instances := instances + [inst];
      mapInstToIdx := mapInstToIdx[inst := |instances| - 1];
      assert forall i :: 0 <= i < |old(instances)| ==> instances[i] == old(instances)[i];
    }

    function FindIndex(inst: ClockInst): (i: nat)
      requires Valid() && inst in instances
      reads this
      ensures i < |instances| && instances[i] == inst
    {
      mapInstToIdx[inst]
    }

    /** The new sink takes the place of the current one, and nothing else moves.  The map stays the
        inverse of the list exactly if the new sink is not elsewhere on the net. */
    method ReplaceSink(curSink: ClockInst, newSink: ClockInst)
      requires Valid() && curSink in instances
      modifies `instances, `mapInstToIdx
      ensures instances == old(instances)[old(FindIndex(curSink)) := newSink]
      ensures mapInstToIdx == (old(mapInstToIdx) - {curSink})[newSink := old(FindIndex(curSink))]
      ensures Valid() <==> newSink !in old(instances) || newSink == curSink
    {
      var idx := FindIndex(curSink);
      instances := instances[idx := newSink];
      mapInstToIdx := mapInstToIdx - {curSink};
      mapInstToIdx := mapInstToIdx[newSink := idx];
      assert forall i :: 0 <= i < |instances| && i != idx ==> instances[i] == old(instances)[i];
    }

    /** The driver stays at position 0, and the other sinks keep their order. */
    method RemoveSinks(sinksToRemove: set<ClockInst>)
      requires Valid() && instances != []
      modifies `instances, `mapInstToIdx
      ensures Valid()
      ensures var sinks := old(instances)[1..];
              instances == [old(instances)[0]] + Without(sinks, |sinks|, sinksToRemove)
    {
      var driver := instances[0];
      ghost var sinks := instances[1..];
      var instsToPreserve: seq<ClockInst> := [];
      var i := 1;
      while i < |instances|
        invariant 1 <= i <= |instances|
        invariant instsToPreserve == Without(sinks, i - 1, sinksToRemove)
      {
        assert sinks[i - 1] == instances[i];
        if instances[i] !in sinksToRemove {
          instsToPreserve := instsToPreserve + [instances[i]];
        }
        i := i + 1;
      }
      WithoutDistinct(sinks, |sinks|, sinksToRemove);
      Refill(driver, instsToPreserve);
    }

    method Refill(driver: ClockInst, sinks: seq<ClockInst>)
      requires Distinct(sinks) && driver !in sinks
      modifies `instances, `mapInstToIdx
      ensures Valid() && instances == [driver] + sinks
    {
      instances, mapInstToIdx := [], map[];
      AddInst(driver);
      var j := 0;
      while j < |sinks|
        invariant j <= |sinks|
        invariant Valid() && instances == [driver] + sinks[..j]
      {
        AddInst(sinks[j]);
        j := j + 1;
      }
    }
  }

  class Clock {
    const netName: string
    var clockBuffers: seq<ClockInst>
    var subNets: seq<ClockSubNet>

    ghost predicate Valid()
      reads this, subNets
    {
      && Distinct(clockBuffers)
      && (forall i, j :: 0 <= i < j < |subNets| ==> subNets[i] != subNets[j])
      && (forall i :: 0 <= i < |subNets| ==> subNets[i].Valid())
    }

    ghost function Nets(): (nets: Netlist<ClockInst>)
      reads this, subNets
      ensures |nets| == |subNets|
    {
      seq(|subNets|, i requires 0 <= i < |subNets| reads this, subNets => subNets[i].instances)
    }

    constructor (netName: string)
      ensures Valid() && Nets() == [] && clockBuffers == [] && this.netName == netName
    {
      this.netName, clockBuffers, subNets := netName, [], [];
    }

    method AddClockBuffer(name: string) returns (buffer: ClockInst)
      requires Valid()
      modifies `clockBuffers
      ensures Valid() && Nets() == old(Nets())
      ensures fresh(buffer) && buffer.name == name + "_" + netName && buffer.gate == None
      ensures clockBuffers == old(clockBuffers) + [buffer]
    {
      buffer := new ClockInst(name + "_" + netName, None);
      clockBuffers := clockBuffers + [buffer];
    }

    method AddSubNet(name: string) returns (net: ClockSubNet)
      requires Valid()
      modifies `subNets
      ensures Valid() && fresh(net) && net.name == name + "_" + netName
      ensures net.Valid() && net.instances == []
      ensures subNets == old(subNets) + [net]
      ensures Nets() == old(Nets()) + [[]]
    {
      net := new ClockSubNet(name + "_" + netName);
      subNets := subNets + [net];
    }
  }

  /** Adding an instance to net t of a clock appends it there and touches no other net. */
  method Connect(clock: Clock, net: ClockSubNet, ghost t: nat, inst: ClockInst)
    requires clock.Valid() && t < |clock.subNets| && clock.subNets[t] == net && inst !in net.instances
    modifies net
    ensures clock.Valid() && net.instances == old(net.instances) + [inst] && net.leafLevel == old(net.leafLevel)
    ensures clock.Nets() == Attach(old(clock.Nets()), t, [inst])
  {
    ghost var nets := clock.Nets();
    net.AddInst(inst);
    forall i | 0 <= i < |clock.subNets| && i != t
      ensures clock.subNets[i].Valid() && clock.subNets[i].instances == nets[i]
    {
      assert clock.subNets[i] != net;
    }
    assert clock.Nets() == Attach(nets, t, [inst]);
  }

  /** Marking a net of a clock changes none of its instances. */
  method Mark(clock: Clock, net: ClockSubNet, isLeaf: bool)
    requires clock.Valid() && net in clock.subNets
    modifies net`leafLevel
    ensures clock.Valid() && clock.Nets() == old(clock.Nets()) && net.leafLevel == isLeaf
  {
    net.SetLeafLevel(isLeaf);
    assert clock.Nets() == old(clock.Nets());
  }

  /** Add several instances to one net of a clock. */
  method ConnectAll(clock: Clock, net: ClockSubNet, ghost t: nat, cluster: seq<ClockInst>)
    requires clock.Valid() && t < |clock.subNets| && clock.subNets[t] == net
    requires Distinct(cluster) && forall x :: x in cluster ==> x !in net.instances
    modifies net
    ensures net.leafLevel == old(net.leafLevel)
    ensures clock.Valid() && clock.Nets() == Attach(old(clock.Nets()), t, cluster)
  {
    for i := 0 to |cluster|
      invariant clock.Valid() && net.instances == old(net.instances) + cluster[..i]
      invariant net.leafLevel == old(net.leafLevel)
      invariant clock.Nets() == Attach(old(clock.Nets()), t, cluster[..i])
    {
      Connect(clock, net, t, cluster[i]);
    }
    assert cluster[..|cluster|] == cluster;
  }

  /** Since the start, `clock` has got the given buffers as a chain below net k of n0. */
  twostate predicate Chain(clock: Clock, new n0: Netlist<ClockInst>, k: nat, new bufs: seq<ClockInst>)
    reads clock, clock.subNets
  {
    && clock.Valid() && k < |n0| && old(clock.subNets) <= clock.subNets
    && (forall i :: |old(clock.subNets)| <= i < |clock.subNets| ==> fresh(clock.subNets[i]))
    && clock.clockBuffers == old(clock.clockBuffers) + bufs
    && (forall x :: x in bufs ==> fresh(x))
    && clock.Nets() == Links(n0, k, bufs, |bufs|)
  }

  /** One more link: what the chain, the nets and the buffers are then. */
  lemma {:induction false} ChainGrows(nets0: seq<ClockSubNet>, nets1: seq<ClockSubNet>, nets2: seq<ClockSubNet>,
                                      bufs0: seq<ClockInst>, bufs1: seq<ClockInst>, bufs2: seq<ClockInst>,
                                      n0: Netlist<ClockInst>, n1: Netlist<ClockInst>, n2: Netlist<ClockInst>,
                                      k: nat, bufs: seq<ClockInst>, b: ClockInst, net: ClockSubNet)
    requires nets0 <= nets1 && nets2 == nets1 + [net] && |nets1| == |n1| && |nets2| == |n2|
    requires bufs1 == bufs0 + bufs && bufs2 == bufs1 + [b]
    requires k < |n0| && n1 == Links(n0, k, bufs, |bufs|) && n2 == OneLink(n1, Tail(|n0|, k, |bufs|), b)
    ensures nets0 <= nets2 && nets2[Tail(|n0|, k, |bufs| + 1)] == net && bufs2 == bufs0 + (bufs + [b])
    ensures n2 == Links(n0, k, bufs + [b], |bufs + [b]|) && Tail(|n0|, k, |bufs| + 1) == |nets2| - 1
  {
    LinksSnoc(n0, k, bufs, b);
  }

  /** Behind a chain of new buffers, one more buffer and its net have been added. */
  twostate predicate LinkAdded(clock: Clock, new n0: Netlist<ClockInst>, new n1: Netlist<ClockInst>, k: nat, new nets1: seq<ClockSubNet>,
                               new bufs: seq<ClockInst>, new b: ClockInst, new net: ClockSubNet)
    reads clock, clock.subNets
  {
    && clock.Valid() && k < |n0| && old(clock.subNets) <= nets1 && clock.subNets == nets1 + [net] && |nets1| == |n1|
    && (forall i :: |old(clock.subNets)| <= i < |nets1| ==> fresh(nets1[i]))
    && fresh(net) && fresh(b) && (forall x :: x in bufs ==> fresh(x))
    && clock.clockBuffers == old(clock.clockBuffers) + bufs + [b]
    && n1 == Links(n0, k, bufs, |bufs|) && clock.Nets() == OneLink(n1, Tail(|n0|, k, |bufs|), b)
  }

  /** The same, seen from the clock. */
  twostate lemma {:induction false} ChainLinked(clock: Clock, new n0: Netlist<ClockInst>, new n1: Netlist<ClockInst>, new k: nat,
                                              new nets1: seq<ClockSubNet>, new bufs: seq<ClockInst>, new b: ClockInst,
                                              new net: ClockSubNet)
    requires LinkAdded(clock, n0, n1, k, nets1, bufs, b, net)
    ensures Chain(clock, n0, k, bufs + [b])
  {
    ChainGrows(old(clock.subNets), nets1, clock.subNets, old(clock.clockBuffers), old(clock.clockBuffers) + bufs, clock.clockBuffers,
               n0, n1, clock.Nets(), k, bufs, b, net);
  }

  /** Instances that have just been created are on none of the nets there were before. */
  twostate lemma {:induction false} FreshAreNew(nets: Netlist<ClockInst>, new bufs: seq<ClockInst>)
    requires forall x :: x in bufs ==> fresh(x)
    ensures forall x :: x in bufs ==> Absent(nets, x)
  {
  }
}
