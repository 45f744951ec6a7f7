/** Visiting all pins that are connected to a net, up and down the module hierarchy. */
module ConnectedPins {
  import opened PinHierarchy
  import PinRoutes

  class PinVisitor {
    var pins: seq<Pin>

    constructor ()
      ensures pins == []
    {
      pins := [];
    }

    method Visit(pin: Pin)
      modifies this
      ensures pins == old(pins) + [pin]
    {
      pins := pins + [pin];
    }

    ghost function Seen(): set<Pin>
      reads this
    {
      set p | p in pins
    }
  }

  /** The visited nets, and in which order they were expanded. */
  class NetSet {
    var nets: set<NetRef>
    ghost var expanded: seq<NetRef>

    constructor ()
      ensures nets == {} && expanded == []
    {
      nets, expanded := {}, [];
    }

    method Insert(net: NetRef)
      modifies this
      ensures nets == old(nets) + {net} && expanded == old(expanded) + [net]
    {
      nets, expanded := nets + {net}, expanded + [net];
    }

    /** Every net in the set has been expanded exactly once. */
    ghost predicate OnceEach()
      reads this
    {
      multiset(expanded) == multiset(nets)
    }
  }

  // ----- what a walk does to the set of visited nets -----

  /** From `before` to `after`, the walk that began at `net` has added only nets connected to it,
      and has followed each of those it added but `net` itself to the end. */
  ghost predicate Walked(h: Hierarchy, before: set<NetRef>, after: set<NetRef>, net: NetRef)
    requires h.WellFormed()
  {
    && before + {net} <= after
    && forall m {:trigger WalkedAt(h, after, net, m)} :: m in after - before ==> WalkedAt(h, after, net, m)
  }

  ghost predicate WalkedAt(h: Hierarchy, after: set<NetRef>, net: NetRef, m: NetRef)
    requires h.WellFormed()
  {
    h.Known(m) && (m == NoNet || h.Reaches(net, m)) && (m != net ==> h.Next(m) <= after)
  }

  lemma {:induction false} WalkBegins(h: Hierarchy, before: set<NetRef>, net: NetRef)
    requires h.WellFormed() && h.Known(net)
    ensures Walked(h, before, before + {net}, net)
  {
    h.ReachesSelf(net);
  }

  /** A walk from a net next to `net`, started and finished in between, is part of the walk. */
  lemma {:induction false} WalkOn(h: Hierarchy, before: set<NetRef>, mid: set<NetRef>, after: set<NetRef>, net: NetRef, next: NetRef)
    requires h.WellFormed() && h.Known(net) && Walked(h, before, mid, net)
    requires next == NoNet || next in h.Next(net)
    requires Walked(h, mid, after, next) && (next !in mid ==> h.Known(next) && h.Next(next) <= after)
    ensures Walked(h, before, after, net)
  {
    forall m {:trigger WalkedAt(h, after, net, m)} | m in after - before
      ensures WalkedAt(h, after, net, m)
    {
      if m in mid {
        assert WalkedAt(h, mid, net, m);
      } else {
        assert WalkedAt(h, after, next, m);
        WalkOnAt(h, net, next, m);
      }
    }
  }

  lemma {:induction false} WalkOnAt(h: Hierarchy, net: NetRef, next: NetRef, m: NetRef)
    requires h.WellFormed() && h.Known(net) && (next == NoNet || next in h.Next(net))
    requires m == NoNet || h.Reaches(next, m)
    ensures m == NoNet || h.Reaches(net, m)
  {
    if m != NoNet {
      if next == NoNet {
        FromNowhere(h, m);
      } else {
        h.ReachesOn(net, next, m);
      }
    }
  }

  lemma {:induction false} FromNowhere(h: Hierarchy, m: NetRef)
    requires h.WellFormed() && h.Reaches(NoNet, m)
    ensures m == NoNet
  {
    var p :| h.WayBetween(p, NoNet, m);
    assert |p| > 1 ==> h.StepAt(p, 0);
  }

  // ----- the walk -----

  method ReportOwnPins(h: Hierarchy, net: NetRef, visitor: PinVisitor)
    requires h.Known(net)
    modifies visitor
    ensures visitor.Seen() == old(visitor.Seen()) + h.OwnPins(net)
  {
    match net {
      case NoNet =>
      case FlatNet(id) =>
        ReportAll(visitor, h.flatNets[id].iterms, (t: nat) => ITerm(t));
        ReportAll(visitor, h.flatNets[id].bterms, (t: nat) => BTerm(t));
      case ModNet(id) =>
        ReportAll(visitor, h.modNets[id].iterms, (t: nat) => ITerm(t));
        ReportAll(visitor, h.modNets[id].bterms, (t: nat) => BTerm(t));
        ReportAll(visitor, h.modNets[id].modBTerms, (t: nat) => ModBTerm(t));
        ReportAll(visitor, h.modNets[id].modITerms, (t: nat) => ModITerm(t));
    }
  }

  /** Report the pins that stand for the given terms. */
  method ReportAll(visitor: PinVisitor, terms: seq<nat>, pin: nat -> Pin)
    modifies visitor
    ensures visitor.Seen() == old(visitor.Seen()) + set t | t in terms :: pin(t)
  {
    for i := 0 to |terms|
      invariant visitor.Seen() == old(visitor.Seen()) + set t | t in terms[..i] :: pin(t)
    {
      ghost var seen := visitor.Seen();
      visitor.Visit(pin(terms[i]));
      assert visitor.Seen() == seen + {pin(terms[i])};
      assert terms[..i + 1] == terms[..i] + [terms[i]];
      assert (set t | t in terms[..i + 1] :: pin(t)) == (set t | t in terms[..i] :: pin(t)) + {pin(terms[i])};
    }
    assert terms[..|terms|] == terms;
  }

  /** A finished visit: besides what the walk has done to the visited nets, it has gone beyond the
      first net too, and has reported exactly the pins of the nets it has added. */
  ghost predicate Explored(h: Hierarchy, before: set<NetRef>, after: set<NetRef>, net: NetRef, seen: set<Pin>, seen': set<Pin>)
    requires h.WellFormed()
  {
    && Walked(h, before, after, net)
    && (net !in before && h.Known(net) ==> h.Next(net) <= after)
    && seen' == seen + h.Reported(after - before)
  }

  /** A visit that has come to `net` and has followed some of its counterpart pins. */
  ghost predicate OnTheWay(h: Hierarchy, before: set<NetRef>, after: set<NetRef>, net: NetRef, seen: set<Pin>, seen': set<Pin>,
                           followed: set<Pin>)
    requires h.WellFormed()
  {
    && net !in before && h.Known(net) && Walked(h, before, after, net)
    && (forall p :: p in followed ==> h.NetOf(p) == NoNet || h.NetOf(p) in after)
    && seen' == seen + h.OwnPins(net) + followed + h.Reported(after - before - {net})
  }

  /** How far a visit has got. */
  datatype Stage = Finished | Following(pins: set<Pin>)

  ghost predicate At(h: Hierarchy, before: set<NetRef>, after: set<NetRef>, net: NetRef,
                     seen: set<Pin>, seen': set<Pin>, stage: Stage)
    requires h.WellFormed()
  {
    match stage
    case Finished => Explored(h, before, after, net, seen, seen')
    case Following(pins) => OnTheWay(h, before, after, net, seen, seen', pins)
  }

  /** A net that has been visited before is left alone. */
  lemma {:induction false} NothingNew(h: Hierarchy, nets: set<NetRef>, net: NetRef, seen: set<Pin>)
    requires h.WellFormed() && net in nets
    ensures At(h, nets, nets, net, seen, seen, Finished)
  {
    assert nets - nets == {};
    assert h.Reported({}) == {};
  }

  lemma {:induction false} SetOut(h: Hierarchy, before: set<NetRef>, net: NetRef, seen: set<Pin>)
    requires h.WellFormed() && h.Known(net) && net !in before
    ensures At(h, before, before + {net}, net, seen, seen + h.OwnPins(net), Following({}))
  {
    WalkBegins(h, before, net);
    assert before + {net} - before - {net} == {};
    assert h.Reported({}) == {};
  }

  /** One more counterpart pin, with the visit to its net. */
  lemma {:induction false} Followed(h: Hierarchy, before: set<NetRef>, mid: set<NetRef>, after: set<NetRef>, net: NetRef,
                                    seen: set<Pin>, seen': set<Pin>, seen'': set<Pin>, followed: set<Pin>, pin: Pin)
    requires h.WellFormed() && h.Known(net) && pin in h.Counterparts(net)
    requires At(h, before, mid, net, seen, seen', Following(followed))
    requires At(h, mid, after, h.NetOf(pin), seen' + {pin}, seen'', Finished)
    ensures At(h, before, after, net, seen, seen'', Following(followed + {pin}))
  {
    var next := h.NetOf(pin);
    WalkOn(h, before, mid, after, net, next);
    FollowedPins(h, before, mid, after, net, seen, seen', seen'', followed, pin);
  }

  lemma {:induction false} FollowedPins(h: Hierarchy, before: set<NetRef>, mid: set<NetRef>, after: set<NetRef>, net: NetRef,
                                        seen: set<Pin>, seen': set<Pin>, seen'': set<Pin>, followed: set<Pin>, pin: Pin)
    requires h.WellFormed() && h.Known(net) && before + {net} <= mid <= after
    requires seen' == seen + h.OwnPins(net) + followed + h.Reported(mid - before - {net})
    requires seen'' == seen' + {pin} + h.Reported(after - mid)
    ensures seen'' == seen + h.OwnPins(net) + (followed + {pin}) + h.Reported(after - before - {net})
  {
    h.ReportedJoin(mid - before - {net}, after - mid);
    assert (mid - before - {net}) + (after - mid) == after - before - {net};
  }

  /** One more counterpart pin that has no net. */
  lemma {:induction false} FollowedNowhere(h: Hierarchy, before: set<NetRef>, mid: set<NetRef>, net: NetRef,
                                           seen: set<Pin>, seen': set<Pin>, followed: set<Pin>, pin: Pin)
    requires h.WellFormed() && h.NetOf(pin) == NoNet && At(h, before, mid, net, seen, seen', Following(followed))
    ensures At(h, before, mid, net, seen, seen' + {pin}, Following(followed + {pin}))
  {
  }

  /** When all counterpart pins have been followed, the visit is finished. */
  lemma {:induction false} Arrived(h: Hierarchy, before: set<NetRef>, after: set<NetRef>, net: NetRef,
                                   seen: set<Pin>, seen': set<Pin>, followed: set<Pin>)
    requires h.WellFormed() && h.Known(net) && followed == h.Counterparts(net)
    requires At(h, before, after, net, seen, seen', Following(followed))
    ensures At(h, before, after, net, seen, seen', Finished)
  {
    h.ReportedJoin({net}, after - before - {net});
    assert {net} + (after - before - {net}) == after - before;
    assert h.Reported({net}) == h.OwnPins(net) + h.Counterparts(net);
  }

  // ----- the methods -----

  /** Visit everything that is connected to a net, unless the net has been visited before. */
  method VisitConnectedPins(h: Hierarchy, net: NetRef, visitor: PinVisitor, visited: NetSet)
    requires h.WellFormed() && h.Known(net) && visited.OnceEach() && visited.nets <= h.AllNets()
    modifies visitor, visited
    ensures visited.OnceEach() && old(visited.nets) <= visited.nets <= h.AllNets()
    ensures At(h, old(visited.nets), visited.nets, net, old(visitor.Seen()), visitor.Seen(), Finished)
    decreases h.AllNets() - visited.nets, 0
  {
    if net in visited.nets {
      NothingNew(h, visited.nets, net, visitor.Seen());
      return;
    }
    ghost var before, seen := visited.nets, visitor.Seen();
    visited.Insert(net);
    ReportOwnPins(h, net, visitor);
    SetOut(h, before, net, seen);
    if net.ModNet? {
      VisitBelow(h, net, visitor, visited, before, seen);
      VisitAbove(h, net, visitor, visited, before, seen);
    }
    Arrived(h, before, visited.nets, net, seen, visitor.Seen(), h.Counterparts(net));
  }

  ghost function Below(h: Hierarchy, net: NetRef, n: nat): set<Pin>
    requires h.WellFormed() && net.ModNet? && h.Known(net) && n <= |h.modNets[net.id].modITerms|
  {
    set t | t in h.modNets[net.id].modITerms[..n] :: ModBTerm(h.below[t])
  }

  ghost function Above(h: Hierarchy, net: NetRef, n: nat): set<Pin>
    requires h.WellFormed() && net.ModNet? && h.Known(net) && n <= |h.modNets[net.id].modBTerms|
  {
    set t | t in h.modNets[net.id].modBTerms[..n] && t in h.above :: ModITerm(h.above[t])
  }

  lemma {:induction false} BelowStep(h: Hierarchy, net: NetRef, i: nat)
    requires h.WellFormed() && net.ModNet? && h.Known(net) && i < |h.modNets[net.id].modITerms|
    ensures Below(h, net, i + 1) == Below(h, net, i) + {ModBTerm(h.below[h.modNets[net.id].modITerms[i]])}
    ensures ModBTerm(h.below[h.modNets[net.id].modITerms[i]]) in h.Counterparts(net)
  {
    var terms := h.modNets[net.id].modITerms;
    assert terms[..i + 1] == terms[..i] + [terms[i]];
  }

  lemma {:induction false} AboveStep(h: Hierarchy, net: NetRef, i: nat)
    requires h.WellFormed() && net.ModNet? && h.Known(net) && i < |h.modNets[net.id].modBTerms|
    ensures var t := h.modNets[net.id].modBTerms[i];
            if t in h.above
            then Above(h, net, i + 1) == Above(h, net, i) + {ModITerm(h.above[t])} && ModITerm(h.above[t]) in h.Counterparts(net)
            else Above(h, net, i + 1) == Above(h, net, i)
  {
    var terms := h.modNets[net.id].modBTerms;
    assert terms[..i + 1] == terms[..i] + [terms[i]];
  }

  lemma {:induction false} BothWays(h: Hierarchy, net: NetRef)
    requires h.WellFormed() && net.ModNet? && h.Known(net)
    ensures Below(h, net, |h.modNets[net.id].modITerms|) + Above(h, net, |h.modNets[net.id].modBTerms|) == h.Counterparts(net)
    ensures Below(h, net, 0) == Above(h, net, 0) == {}
  {
    var down, up := h.modNets[net.id].modITerms, h.modNets[net.id].modBTerms;
    assert down[..|down|] == down && up[..|up|] == up;
  }

  /** The ports below the instance pins of the net. */
  method VisitBelow(h: Hierarchy, net: NetRef, visitor: PinVisitor, visited: NetSet,
                    ghost before: set<NetRef>, ghost seen: set<Pin>)
    requires h.WellFormed() && h.Known(net) && net.ModNet? && visited.OnceEach() && visited.nets <= h.AllNets()
    requires At(h, before, visited.nets, net, seen, visitor.Seen(), Following({}))
    modifies visitor, visited
    ensures visited.OnceEach() && old(visited.nets) <= visited.nets <= h.AllNets()
    ensures At(h, before, visited.nets, net, seen, visitor.Seen(), Following(Below(h, net, |h.modNets[net.id].modITerms|)))
    decreases h.AllNets() - visited.nets, 2
  {
    var terms := h.modNets[net.id].modITerms;
    BothWays(h, net);
    for i := 0 to |terms|
      invariant visited.OnceEach() && old(visited.nets) <= visited.nets <= h.AllNets()
      invariant At(h, before, visited.nets, net, seen, visitor.Seen(), Following(Below(h, net, i)))
    {
      BelowStep(h, net, i);
      Follow(h, net, ModBTerm(h.below[terms[i]]), true, visitor, visited, before, seen, Below(h, net, i));
    }
  }

  /** The instance pins above the ports of the net. */
  method VisitAbove(h: Hierarchy, net: NetRef, visitor: PinVisitor, visited: NetSet,
                    ghost before: set<NetRef>, ghost seen: set<Pin>)
    requires h.WellFormed() && h.Known(net) && net.ModNet? && visited.OnceEach() && visited.nets <= h.AllNets()
    requires At(h, before, visited.nets, net, seen, visitor.Seen(), Following(Below(h, net, |h.modNets[net.id].modITerms|)))
    modifies visitor, visited
    ensures visited.OnceEach() && old(visited.nets) <= visited.nets <= h.AllNets()
    ensures At(h, before, visited.nets, net, seen, visitor.Seen(), Following(h.Counterparts(net)))
    decreases h.AllNets() - visited.nets, 2
  {
    ghost var down := Below(h, net, |h.modNets[net.id].modITerms|);
    var terms := h.modNets[net.id].modBTerms;
    BothWays(h, net);
    assert down + {} == down;
    for i := 0 to |terms|
      invariant visited.OnceEach() && old(visited.nets) <= visited.nets <= h.AllNets()
      invariant At(h, before, visited.nets, net, seen, visitor.Seen(), Following(down + Above(h, net, i)))
    {
      AboveStep(h, net, i);
      if terms[i] in h.above {
        Follow(h, net, ModITerm(h.above[terms[i]]), false, visitor, visited, before, seen, down + Above(h, net, i));
        assert down + Above(h, net, i + 1) == down + Above(h, net, i) + {ModITerm(h.above[terms[i]])};
      }
    }
  }

  /** Report one counterpart pin and visit its net.  On the way down, a pin without a net ends there. */
  method Follow(h: Hierarchy, net: NetRef, pin: Pin, down: bool, visitor: PinVisitor, visited: NetSet,
                ghost before: set<NetRef>, ghost seen: set<Pin>, ghost followed: set<Pin>)
    requires h.WellFormed() && h.Known(net) && pin in h.Counterparts(net) && visited.OnceEach() && visited.nets <= h.AllNets()
    requires At(h, before, visited.nets, net, seen, visitor.Seen(), Following(followed))
    modifies visitor, visited
    ensures visited.OnceEach() && old(visited.nets) <= visited.nets <= h.AllNets()
    ensures At(h, before, visited.nets, net, seen, visitor.Seen(), Following(followed + {pin}))
    decreases h.AllNets() - visited.nets, 1
  {
    ghost var mid, seenMid := visited.nets, visitor.Seen();
    visitor.Visit(pin);
    assert visitor.Seen() == seenMid + {pin};
    var next := h.NetOf(pin);
    if down && next == NoNet {
      FollowedNowhere(h, before, mid, net, seen, seenMid, followed, pin);
    } else {
      VisitConnectedPins(h, next, visitor, visited);
      Followed(h, before, mid, visited.nets, net, seen, seenMid, visitor.Seen(), followed, pin);
    }
  }

  // ----- from a fresh start -----

  /** A visit from a fresh start finds exactly the nets that the first one reaches, and reports
      exactly the pins of these. */
  lemma {:induction false} WholeComponent(h: Hierarchy, after: set<NetRef>, net: NetRef, seen: set<Pin>)
    requires h.WellFormed() && h.Known(net) && after <= h.AllNets() && At(h, {}, after, net, {}, seen, Finished)
    ensures forall n :: n != NoNet ==> (n in after <==> h.Reaches(net, n))
    ensures seen == h.Reported(h.Component(net))
  {
    assert after - {} == after;
    AfterIsClosed(h, after, net);
    forall n | n != NoNet
      ensures n in after <==> h.Reaches(net, n)
    {
      if n in after {
        assert WalkedAt(h, after, net, n);
      }
      if h.Reaches(net, n) {
        h.ReachedInside(after, net, n);
      }
    }
    WithoutNoNet(h, after, net);
  }

  lemma {:induction false} AfterIsClosed(h: Hierarchy, after: set<NetRef>, net: NetRef)
    requires h.WellFormed() && h.Known(net) && Walked(h, {}, after, net) && h.Next(net) <= after
    ensures h.Closed(after)
  {
    forall n | n in after && h.Known(n)
      ensures h.Next(n) <= after
    {
      assert n in after - {};
      assert WalkedAt(h, after, net, n);
    }
  }

  lemma {:induction false} WithoutNoNet(h: Hierarchy, after: set<NetRef>, net: NetRef)
    requires h.WellFormed() && after <= h.AllNets() && forall n :: n != NoNet ==> (n in after <==> h.Reaches(net, n))
    ensures h.Reported(after) == h.Reported(h.Component(net))
  {
    assert forall n :: n in after && n != NoNet ==> n in h.Component(net);
    assert forall n :: n in h.Component(net) && n != NoNet ==> n in after;
    assert h.OwnPins(NoNet) + h.Counterparts(NoNet) == {};
  }

  /** Report all pins connected to a net. */
  method AllConnectedPins(h: Hierarchy, net: NetRef) returns (visitor: PinVisitor, visited: NetSet)
    requires h.WellFormed() && h.Known(net)
    ensures forall pin :: pin in visitor.Seen() <==> PinRoutes.Connected(h, net, pin)
    ensures visited.OnceEach() && forall n :: n != NoNet ==> (n in visited.nets <==> h.Reaches(net, n))
  {
    visitor := new PinVisitor();
    visited := new NetSet();
    assert visitor.Seen() == {};
    VisitConnectedPins(h, net, visitor, visited);
    WholeComponent(h, visited.nets, net, visitor.Seen());
    forall pin ensures pin in visitor.Seen() <==> PinRoutes.Connected(h, net, pin) {
      PinRoutes.ReportedIffConnected(h, net, pin);
    }
  }

  /** With matching ports, any net of a component leads to the same pins. */
  lemma {:induction false} SamePinsFromAnyStart(h: Hierarchy, a: NetRef, b: NetRef)
    requires h.Consistent() && h.Reaches(a, b)
    ensures h.Reported(h.Component(a)) == h.Reported(h.Component(b))
  {
    h.ReachesBack(a, b);
    forall n | n in h.AllNets()
      ensures h.Reaches(a, n) <==> h.Reaches(b, n)
    {
      if h.Reaches(a, n) { h.ReachesThrough(b, a, n); }
      if h.Reaches(b, n) { h.ReachesThrough(a, b, n); }
    }
    assert h.Component(a) == h.Component(b);
  }
}
