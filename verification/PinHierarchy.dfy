/** Nets across a module hierarchy: which nets and pins belong together. */
module PinHierarchy {

  datatype Pin = ITerm(id: nat) | BTerm(id: nat) | ModITerm(id: nat) | ModBTerm(id: nat)

  /** A net is a flat one, or one inside a module, or missing. */
  datatype NetRef = NoNet | FlatNet(id: nat) | ModNet(id: nat)

  datatype FlatTerms = FlatTerms(iterms: seq<nat>, bterms: seq<nat>)

  datatype ModTerms = ModTerms(iterms: seq<nat>, bterms: seq<nat>, modBTerms: seq<nat>, modITerms: seq<nat>)

  /** The netlist: the terms of each net, the net of each module pin that has one, the port of the
      module below each instance pin, and the instance pin above each port that has one. */
  datatype Hierarchy = Hierarchy(flatNets: map<nat, FlatTerms>, modNets: map<nat, ModTerms>,
                                 netOfModITerm: map<nat, nat>, netOfModBTerm: map<nat, nat>,
                                 below: map<nat, nat>, above: map<nat, nat>) {

    function NetOf(pin: Pin): NetRef {
      match pin
      case ModITerm(id) => if id in netOfModITerm then ModNet(netOfModITerm[id]) else NoNet
      case ModBTerm(id) => if id in netOfModBTerm then ModNet(netOfModBTerm[id]) else NoNet
      case _ => NoNet
    }

    /** Every instance pin on a net has its port, and every pin's net exists. */
    ghost predicate WellFormed() {
      && (forall n, i :: n in modNets && 0 <= i < |modNets[n].modITerms| ==> modNets[n].modITerms[i] in below)
      && (forall t :: t in netOfModITerm ==> netOfModITerm[t] in modNets)
      && (forall t :: t in netOfModBTerm ==> netOfModBTerm[t] in modNets)
    }

    ghost predicate Known(net: NetRef) {
      match net
      case NoNet => true
      case FlatNet(id) => id in flatNets
      case ModNet(id) => id in modNets
    }

    ghost function AllNets(): set<NetRef> {
      {NoNet} + (set id | id in flatNets :: FlatNet(id)) + (set id | id in modNets :: ModNet(id))
    }

    /** The pins on a net itself. */
    ghost function OwnPins(net: NetRef): set<Pin>
      requires Known(net)
    {
      match net
      case NoNet => {}
      case FlatNet(id) => (set t | t in flatNets[id].iterms :: ITerm(t)) + (set t | t in flatNets[id].bterms :: BTerm(t))
      case ModNet(id) =>
        (set t | t in modNets[id].iterms :: ITerm(t)) + (set t | t in modNets[id].bterms :: BTerm(t))
        + (set t | t in modNets[id].modBTerms :: ModBTerm(t)) + (set t | t in modNets[id].modITerms :: ModITerm(t))
    }

    /** The ports below its instance pins and the instance pins above its ports. */
    ghost function Counterparts(net: NetRef): set<Pin>
      requires WellFormed() && Known(net)
    {
      if net.ModNet? then
        (set t | t in modNets[net.id].modITerms :: ModBTerm(below[t]))
        + (set t | t in modNets[net.id].modBTerms && t in above :: ModITerm(above[t]))
      else {}
    }

    /** The nets one step away. */
    ghost function Next(net: NetRef): set<NetRef>
      requires WellFormed() && Known(net)
    {
      set p | p in Counterparts(net) && NetOf(p) != NoNet :: NetOf(p)
    }

    lemma {:induction false} NextKnown(net: NetRef, other: NetRef)
      requires WellFormed() && Known(net) && other in Next(net)
      ensures Known(other)
    {
    }

    /** Everything that is reported when the given nets are expanded. */
    ghost function Reported(nets: set<NetRef>): set<Pin>
      requires WellFormed()
    {
      set n, p | n in nets && Known(n) && p in OwnPins(n) + Counterparts(n) :: p
    }

    lemma {:induction false} ReportedJoin(a: set<NetRef>, b: set<NetRef>)
      requires WellFormed()
      ensures Reported(a + b) == Reported(a) + Reported(b)
    {
    }

    // ----- connected nets -----

    ghost predicate Way(p: seq<NetRef>)
      requires WellFormed()
    {
      && p != [] && (forall i :: 0 <= i < |p| ==> Known(p[i]))
      && forall i {:trigger StepAt(p, i)} :: 0 <= i < |p| - 1 ==> StepAt(p, i)
    }

    ghost predicate StepAt(p: seq<NetRef>, i: nat)
      requires WellFormed() && i < |p| - 1
    {
      Known(p[i]) && p[i + 1] in Next(p[i])
    }

    ghost predicate WayBetween(p: seq<NetRef>, a: NetRef, b: NetRef)
      requires WellFormed()
    {
      Way(p) && p[0] == a && p[|p| - 1] == b
    }

    ghost predicate Reaches(a: NetRef, b: NetRef)
      requires WellFormed()
    {
      exists p :: WayBetween(p, a, b)
    }

    lemma {:induction false} ReachesSelf(a: NetRef)
      requires WellFormed() && Known(a)
      ensures Reaches(a, a)
    {
      assert WayBetween([a], a, a);
    }

    lemma {:induction false} WaysJoin(p: seq<NetRef>, q: seq<NetRef>)
      requires WellFormed() && Way(p) && Way(q) && q[0] in Next(p[|p| - 1])
      ensures Way(p + q)
    {
      var r := p + q;
      forall i {:trigger StepAt(r, i)} | 0 <= i < |r| - 1
        ensures StepAt(r, i)
      {
        if i < |p| - 1 {
          assert StepAt(p, i);
        } else if i >= |p| {
          assert StepAt(q, i - |p|);
        }
      }
    }

    lemma {:induction false} ReachesOn(a: NetRef, b: NetRef, c: NetRef)
      requires WellFormed() && Known(a) && b in Next(a) && Reaches(b, c)
      ensures Reaches(a, c)
    {
      var q :| WayBetween(q, b, c);
      WaysJoin([a], q);
      assert WayBetween([a] + q, a, c);
    }

    lemma {:induction false} ReachesThrough(a: NetRef, b: NetRef, c: NetRef)
      requires WellFormed() && Reaches(a, b) && Reaches(b, c)
      ensures Reaches(a, c)
    {
      var p :| WayBetween(p, a, b);
      AlongTheWay(p, 0, c);
    }

    lemma {:induction false} AlongTheWay(p: seq<NetRef>, i: nat, c: NetRef)
      requires WellFormed() && Way(p) && i < |p| && Reaches(p[|p| - 1], c)
      ensures Reaches(p[i], c)
      decreases |p| - i
    {
      if i < |p| - 1 {
        AlongTheWay(p, i + 1, c);
        assert StepAt(p, i);
        ReachesOn(p[i], p[i + 1], c);
      }
    }

    /** All nets that a net reaches. */
    ghost function Component(net: NetRef): set<NetRef>
      requires WellFormed()
    {
      set n | n in AllNets() && Reaches(net, n)
    }

    /** A set that leads nowhere else holds all that is reached from its members. */
    ghost predicate Closed(nets: set<NetRef>)
      requires WellFormed()
    {
      forall n :: n in nets && Known(n) ==> Next(n) <= nets
    }

    lemma {:induction false} WayStays(nets: set<NetRef>, p: seq<NetRef>, i: nat)
      requires WellFormed() && Closed(nets) && Way(p) && p[0] in nets && i < |p|
      ensures p[i] in nets
    {
      if i > 0 {
        WayStays(nets, p, i - 1);
        assert StepAt(p, i - 1);
      }
    }

    lemma {:induction false} ReachedInside(nets: set<NetRef>, a: NetRef, b: NetRef)
      requires WellFormed() && Closed(nets) && a in nets && Reaches(a, b)
      ensures b in nets
    {
      var p :| WayBetween(p, a, b);
      WayStays(nets, p, |p| - 1);
    }

    // ----- hierarchies whose ports match -----

    /** Ports and instance pins belong to each other both ways, and nets list exactly their pins. */
    ghost predicate Consistent() {
      && WellFormed()
      && (forall t :: t in below ==> below[t] in above && above[below[t]] == t)
      && (forall t :: t in above ==> above[t] in below && below[above[t]] == t)
      && (forall n, t :: n in modNets ==> (t in modNets[n].modITerms <==> t in netOfModITerm && netOfModITerm[t] == n))
      && (forall n, t :: n in modNets ==> (t in modNets[n].modBTerms <==> t in netOfModBTerm && netOfModBTerm[t] == n))
    }

    lemma {:induction false} DownBack(a: NetRef, b: NetRef, t: nat)
      requires Consistent() && a.ModNet? && Known(a) && Known(b) && b != NoNet
      requires t in modNets[a.id].modITerms && NetOf(ModBTerm(below[t])) == b
      ensures a in Next(b)
    {
      assert ModITerm(above[below[t]]) in Counterparts(b);
      assert NetOf(ModITerm(t)) == a;
    }

    lemma {:induction false} UpBack(a: NetRef, b: NetRef, t: nat)
      requires Consistent() && a.ModNet? && Known(a) && Known(b) && b != NoNet
      requires t in modNets[a.id].modBTerms && t in above && NetOf(ModITerm(above[t])) == b
      ensures a in Next(b)
    {
      assert ModBTerm(below[above[t]]) in Counterparts(b);
      assert NetOf(ModBTerm(t)) == a;
    }

    lemma {:induction false} NextBack(a: NetRef, b: NetRef)
      requires Consistent() && Known(a) && b in Next(a)
      ensures Known(b) && a in Next(b)
    {
      NextKnown(a, b);
      var p :| p in Counterparts(a) && NetOf(p) == b;
      if p.ModBTerm? {
        var t :| t in modNets[a.id].modITerms && below[t] == p.id;
        DownBack(a, b, t);
      } else {
        var t :| t in modNets[a.id].modBTerms && t in above && above[t] == p.id;
        UpBack(a, b, t);
      }
    }

    /** With matching ports, connection works both ways. */
    lemma {:induction false} ReachesBack(a: NetRef, b: NetRef)
      requires Consistent() && Reaches(a, b)
      ensures Reaches(b, a)
    {
      var p :| WayBetween(p, a, b);
      WayBack(p, |p| - 1);
    }

    lemma {:induction false} WayBack(p: seq<NetRef>, i: nat)
      requires Consistent() && Way(p) && i < |p|
      ensures Reaches(p[i], p[0])
    {
      if i == 0 {
        ReachesSelf(p[0]);
      } else {
        WayBack(p, i - 1);
        StepBack(p, i);
        ReachesOn(p[i], p[i - 1], p[0]);
      }
    }

    lemma {:induction false} StepBack(p: seq<NetRef>, i: nat)
      requires Consistent() && Way(p) && 0 < i < |p|
      ensures Known(p[i]) && p[i - 1] in Next(p[i])
    {
      assert StepAt(p, i - 1);
      NextBack(p[i - 1], p[i]);
    }
  }
}
