/** The connected pins once more, in terms of the terms that the nets list and of the ports that
    belong to instance pins. */
module PinRoutes {
  import opened PinHierarchy

  /** The net lists the pin among its terms. */
  ghost predicate Lists(h: Hierarchy, net: NetRef, pin: Pin) {
    match net
    case NoNet => false
    case FlatNet(n) =>
      n in h.flatNets && (match pin
                          case ITerm(t) => t in h.flatNets[n].iterms
                          case BTerm(t) => t in h.flatNets[n].bterms
                          case _ => false)
    case ModNet(n) =>
      n in h.modNets && (match pin
                         case ITerm(t) => t in h.modNets[n].iterms
                         case BTerm(t) => t in h.modNets[n].bterms
                         case ModITerm(t) => t in h.modNets[n].modITerms
                         case ModBTerm(t) => t in h.modNets[n].modBTerms)
  }

  /** From pin p the other side of a module boundary is pin q: the port below an instance pin, or the
      instance pin above a port. */
  predicate Across(h: Hierarchy, p: Pin, q: Pin) {
    || (p.ModITerm? && p.id in h.below && q == ModBTerm(h.below[p.id]))
    || (p.ModBTerm? && p.id in h.above && q == ModITerm(h.above[p.id]))
  }

  /** The net that pin q names as its own. */
  predicate Names(h: Hierarchy, q: Pin, net: NetRef) {
    || (q.ModITerm? && q.id in h.netOfModITerm && net == ModNet(h.netOfModITerm[q.id]))
    || (q.ModBTerm? && q.id in h.netOfModBTerm && net == ModNet(h.netOfModBTerm[q.id]))
  }

  /** Two nets meet at a module boundary. */
  ghost predicate Meets(h: Hierarchy, a: NetRef, b: NetRef) {
    exists p, q :: Lists(h, a, p) && Across(h, p, q) && Names(h, q, b)
  }

  ghost predicate MeetsAt(h: Hierarchy, route: seq<NetRef>, i: nat)
    requires i < |route| - 1
  {
    Meets(h, route[i], route[i + 1])
  }

  /** From net to net across module boundaries. */
  ghost predicate Route(h: Hierarchy, route: seq<NetRef>, a: NetRef, b: NetRef) {
    && route != [] && route[0] == a && route[|route| - 1] == b
    && forall i {:trigger MeetsAt(h, route, i)} :: 0 <= i < |route| - 1 ==> MeetsAt(h, route, i)
  }

  /** A pin that the net lists, or one on the other side of such a pin. */
  ghost predicate AtNet(h: Hierarchy, net: NetRef, pin: Pin) {
    Lists(h, net, pin) || exists p :: Lists(h, net, p) && Across(h, p, pin)
  }

  ghost predicate Connected(h: Hierarchy, net: NetRef, pin: Pin) {
    exists route, end :: Route(h, route, net, end) && AtNet(h, end, pin)
  }

  lemma {:induction false} OwnIsListed(h: Hierarchy, net: NetRef, pin: Pin)
    requires h.Known(net)
    ensures pin in h.OwnPins(net) <==> Lists(h, net, pin)
  {
  }

  lemma {:induction false} CounterpartIsAcross(h: Hierarchy, net: NetRef, pin: Pin)
    requires h.WellFormed() && h.Known(net)
    ensures pin in h.Counterparts(net) <==> exists p :: Lists(h, net, p) && Across(h, p, pin)
  {
    if pin in h.Counterparts(net) {
      if pin.ModBTerm? {
        var t :| t in h.modNets[net.id].modITerms && h.below[t] == pin.id;
        assert Lists(h, net, ModITerm(t)) && Across(h, ModITerm(t), pin);
      } else {
        var t :| t in h.modNets[net.id].modBTerms && t in h.above && h.above[t] == pin.id;
        assert Lists(h, net, ModBTerm(t)) && Across(h, ModBTerm(t), pin);
      }
    }
  }

  lemma {:induction false} NextMeets(h: Hierarchy, a: NetRef, b: NetRef)
    requires h.WellFormed() && h.Known(a)
    ensures b in h.Next(a) <==> Meets(h, a, b)
  {
    if b in h.Next(a) {
      var q :| q in h.Counterparts(a) && h.NetOf(q) == b && b != NoNet;
      CounterpartIsAcross(h, a, q);
      var p :| Lists(h, a, p) && Across(h, p, q);
      assert Names(h, q, b);
    }
    if Meets(h, a, b) {
      var p, q :| Lists(h, a, p) && Across(h, p, q) && Names(h, q, b);
      CounterpartIsAcross(h, a, q);
      assert h.NetOf(q) == b;
    }
  }

  lemma {:induction false} WayIsRoute(h: Hierarchy, way: seq<NetRef>, a: NetRef, b: NetRef)
    requires h.WellFormed() && h.Known(a)
    ensures h.WayBetween(way, a, b) <==> Route(h, way, a, b)
  {
    if h.WayBetween(way, a, b) {
      forall i {:trigger MeetsAt(h, way, i)} | 0 <= i < |way| - 1 ensures MeetsAt(h, way, i) {
        assert h.StepAt(way, i);
        NextMeets(h, way[i], way[i + 1]);
      }
    }
    if Route(h, way, a, b) {
      forall i | 0 <= i < |way| ensures h.Known(way[i]) {
        RouteKnown(h, way, a, b, i);
      }
      forall i {:trigger h.StepAt(way, i)} | 0 <= i < |way| - 1 ensures h.StepAt(way, i) {
        assert MeetsAt(h, way, i);
        RouteKnown(h, way, a, b, i);
        NextMeets(h, way[i], way[i + 1]);
      }
    }
  }

  lemma {:induction false} RouteKnown(h: Hierarchy, route: seq<NetRef>, a: NetRef, b: NetRef, i: nat)
    requires h.WellFormed() && h.Known(a) && Route(h, route, a, b) && i < |route|
    ensures h.Known(route[i])
  {
    if i > 0 {
      RouteKnown(h, route, a, b, i - 1);
      assert MeetsAt(h, route, i - 1);
      NextMeets(h, route[i - 1], route[i]);
      h.NextKnown(route[i - 1], route[i]);
    }
  }

  lemma {:induction false} PinsAtNet(h: Hierarchy, net: NetRef, pin: Pin)
    requires h.WellFormed() && h.Known(net)
    ensures pin in h.OwnPins(net) + h.Counterparts(net) <==> AtNet(h, net, pin)
  {
    OwnIsListed(h, net, pin);
    CounterpartIsAcross(h, net, pin);
  }

  lemma {:induction false} InAllNets(h: Hierarchy, net: NetRef)
    requires h.Known(net)
    ensures net in h.AllNets()
  {
  }

  lemma {:induction false} ReportedIsConnected(h: Hierarchy, net: NetRef, pin: Pin)
    requires h.WellFormed() && h.Known(net) && pin in h.Reported(h.Component(net))
    ensures Connected(h, net, pin)
  {
    var n :| n in h.Component(net) && h.Known(n) && pin in h.OwnPins(n) + h.Counterparts(n);
    var way :| h.WayBetween(way, net, n);
    WayIsRoute(h, way, net, n);
    PinsAtNet(h, n, pin);
  }

  lemma {:induction false} ConnectedIsReported(h: Hierarchy, net: NetRef, pin: Pin)
    requires h.WellFormed() && h.Known(net) && Connected(h, net, pin)
    ensures pin in h.Reported(h.Component(net))
  {
    var route, end :| Route(h, route, net, end) && AtNet(h, end, pin);
    WayIsRoute(h, route, net, end);
    RouteKnown(h, route, net, end, |route| - 1);
    InAllNets(h, end);
    PinsAtNet(h, end, pin);
  }

  /** The pins that are reported from a net are exactly those it is connected to: on a net, or across from
      one on it, to which a route of nets leads that meet at module boundaries. */
  lemma {:induction false} ReportedIffConnected(h: Hierarchy, net: NetRef, pin: Pin)
    requires h.WellFormed() && h.Known(net)
    ensures pin in h.Reported(h.Component(net)) <==> Connected(h, net, pin)
  {
    if pin in h.Reported(h.Component(net)) { ReportedIsConnected(h, net, pin); }
    if Connected(h, net, pin) { ConnectedIsReported(h, net, pin); }
  }
}
