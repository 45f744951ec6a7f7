/** Which nets drive the branches of an H-tree level, on values. */
module BranchNets {
  import opened Netlists
  import opened ClockNets
  import opened Branching
  import SegmentBuilding
  import opened TreeGrowth

  /** What does not change about a level once its branching points are computed. */
  datatype Level = Level(wires: seq<nat>, parents: seq<Option<nat>>, sinks: seq<seq<Point>>)

  ghost predicate WiresKnown(wires: seq<nat>, buffers: seq<nat>) {
    forall i :: 0 <= i < |wires| ==> wires[i] < |buffers|
  }

  /** The buffers in a row on each branch of a level: those of its segments, and one in any case on
      the last level. */
  function LevelBuffers(wires: seq<nat>, buffers: seq<nat>, last: bool): nat
    requires WiresKnown(wires, buffers)
  {
    var total := SegmentBuilding.TotalBuffers(wires, buffers, |wires|);
    if last && total == 0 then 1 else total
  }

  /** The buffers in a row on the first n levels. */
  function DepthTo(levels: seq<Level>, buffers: seq<nat>, n: nat): nat
    requires n <= |levels| && forall i :: 0 <= i < |levels| ==> WiresKnown(levels[i].wires, buffers)
  {
    if n == 0 then 0 else DepthTo(levels, buffers, n - 1) + LevelBuffers(levels[n - 1].wires, buffers, n == |levels|)
  }

  /** How many buffers each of some segments has. */
  function Counts(wires: seq<nat>, buffers: seq<nat>): (r: seq<nat>)
    requires WiresKnown(wires, buffers)
    ensures |r| == |wires|
  {
    seq(|wires|, i requires 0 <= i < |wires| => buffers[wires[i]])
  }

  function Total(s: seq<nat>, n: nat): nat
    requires n <= |s|
  {
    if n == 0 then 0 else Total(s, n - 1) + s[n - 1]
  }

  ghost predicate AllKnown(wires: seq<seq<nat>>, buffers: seq<nat>) {
    forall i :: 0 <= i < |wires| ==> WiresKnown(wires[i], buffers)
  }

  /** The buffers of each level. */
  function EachLevel(wires: seq<seq<nat>>, buffers: seq<nat>): (r: seq<nat>)
    requires AllKnown(wires, buffers)
    ensures |r| == |wires|
  {
    seq(|wires|, i requires 0 <= i < |wires| => Total(Counts(wires[i], buffers), |wires[i]|))
  }

  /** The buffers in a row from the top of the levels down: all those of the segments, and one more if
      the last level has none. */
  function TreeBuffers(wires: seq<seq<nat>>, buffers: seq<nat>): nat
    requires AllKnown(wires, buffers) && wires != []
  {
    var each := EachLevel(wires, buffers);
    Total(each, |each|) + if each[|each| - 1] == 0 then 1 else 0
  }

  lemma {:induction false} TotalIs(wires: seq<nat>, buffers: seq<nat>, n: nat)
    requires WiresKnown(wires, buffers) && n <= |wires|
    ensures SegmentBuilding.TotalBuffers(wires, buffers, n) == Total(Counts(wires, buffers), n)
  {
    if n > 0 { TotalIs(wires, buffers, n - 1); }
  }

  ghost predicate WiresOf(levels: seq<Level>, wires: seq<seq<nat>>) {
    |levels| == |wires| && forall i :: 0 <= i < |levels| ==> levels[i].wires == wires[i]
  }

  lemma {:induction false} DepthIsTotal(levels: seq<Level>, wires: seq<seq<nat>>, buffers: seq<nat>, n: nat)
    requires AllKnown(wires, buffers) && WiresOf(levels, wires) && n <= |levels|
    requires forall i :: 0 <= i < |levels| ==> WiresKnown(levels[i].wires, buffers)
    ensures n < |levels| ==> DepthTo(levels, buffers, n) == Total(EachLevel(wires, buffers), n)
    ensures 0 < n == |levels| ==> DepthTo(levels, buffers, n) == TreeBuffers(wires, buffers)
  {
    if n > 0 {
      DepthIsTotal(levels, wires, buffers, n - 1);
      TotalIs(wires[n - 1], buffers, |wires[n - 1]|);
    }
  }

  /** The levels halve the sinks, one after the other. */
  ghost predicate Halving(top: seq<Point>, levels: seq<Level>) {
    && (levels != [] ==> TopHalves(top, levels[0].sinks, levels[0].parents))
    && forall i {:trigger HalvesAt(levels, i)} :: 0 < i < |levels| ==> HalvesAt(levels, i)
  }

  ghost predicate HalvesAt(levels: seq<Level>, i: nat)
    requires 0 < i < |levels|
  {
    Halves(levels[i - 1].sinks, levels[i].sinks, levels[i].parents, |levels[i - 1].sinks|)
  }

  /** Every level holds each sink exactly as often as there is one to begin with. */
  lemma {:induction false} LevelHoldsAll(top: seq<Point>, levels: seq<Level>, i: nat)
    requires Halving(top, levels) && i < |levels|
    ensures multiset(Flat(levels[i].sinks, |levels[i].sinks|)) == multiset(top)
  {
    if i == 0 {
      FirstHoldsAll(top, levels[0].sinks, levels[0].parents);
    } else {
      LevelHoldsAll(top, levels, i - 1);
      NextHoldsAll(levels, i);
    }
  }

  lemma {:induction false} FirstHoldsAll(top: seq<Point>, sinks: seq<seq<Point>>, parents: seq<Option<nat>>)
    requires TopHalves(top, sinks, parents)
    ensures multiset(Flat(sinks, |sinks|)) == multiset(top)
  {
    FlatTwo(sinks, 0);
    assert Flat(sinks, 2) == sinks[0] + sinks[1];
  }

  lemma {:induction false} NextHoldsAll(levels: seq<Level>, i: nat)
    requires 0 < i < |levels| && HalvesAt(levels, i)
    ensures multiset(Flat(levels[i].sinks, |levels[i].sinks|))
            == multiset(Flat(levels[i - 1].sinks, |levels[i - 1].sinks|))
  {
    HalvesKeep(levels[i - 1].sinks, levels[i].sinks, levels[i].parents, |levels[i - 1].sinks|, |levels[i].sinks|);
  }

  ghost predicate NoSinks(sinks: seq<seq<Point>>, n: nat)
    requires n <= |sinks|
  {
    forall b :: 0 <= b < n ==> sinks[b] == []
  }

  lemma {:induction false} FlatEmpty<T>(s: seq<seq<T>>, n: nat)
    requires n <= |s|
    ensures Flat(s, n) == [] <==> forall b :: 0 <= b < n ==> s[b] == []
  {
    if n > 0 { FlatEmpty(s, n - 1); }
  }

  /** A level has a branch with sinks exactly if there are sinks at all. */
  lemma {:induction false} SinksOrNot(top: seq<Point>, levels: seq<Level>, i: nat)
    requires Halving(top, levels) && i < |levels|
    ensures NoSinks(levels[i].sinks, |levels[i].sinks|) <==> top == []
  {
    var sinks := levels[i].sinks;
    LevelHoldsAll(top, levels, i);
    FlatEmpty(sinks, |sinks|);
    assert |multiset(Flat(sinks, |sinks|))| == |Flat(sinks, |sinks|)| && |multiset(top)| == |top|;
  }

  lemma {:induction false} HalvingSnoc(top: seq<Point>, levels: seq<Level>, level: Level)
    requires Halving(top, levels)
    requires if levels == [] then TopHalves(top, level.sinks, level.parents)
             else var above := levels[|levels| - 1].sinks; Halves(above, level.sinks, level.parents, |above|)
    ensures Halving(top, levels + [level])
  {
    var levels' := levels + [level];
    forall i {:trigger HalvesAt(levels', i)} | 0 < i < |levels'|
      ensures HalvesAt(levels', i)
    {
      assert i < |levels| ==> HalvesAt(levels, i);
    }
  }

  // ----- branches and their nets -----

  /** A branch has a net exactly if it has been built and has sinks; the net hangs d nets below r. */
  ghost predicate BranchAt<T>(nets: Netlist<T>, r: nat, sinks: seq<Point>, at: Option<nat>, built: bool, d: nat) {
    && (at.Some? <==> built && sinks != [])
    && (at.Some? ==> r <= at.value < |nets| && HangsAt(nets, r, at.value, d))
  }

  /** The first n branches of a level have been built. */
  ghost predicate BranchesAt<T>(nets: Netlist<T>, r: nat, sinks: seq<seq<Point>>, at: seq<Option<nat>>, n: nat, d: nat) {
    && |at| == |sinks| && n <= |sinks|
    && forall b {:trigger at[b]} :: 0 <= b < |at| ==> BranchAt(nets, r, sinks[b], at[b], b < n, d)
  }

  lemma {:induction false} BranchesKept<T>(a: Netlist<T>, z: Netlist<T>, r: nat, sinks: seq<seq<Point>>,
                                           at: seq<Option<nat>>, n: nat, d: nat)
    requires BranchesAt(a, r, sinks, at, n, d) && Grown(a, z)
    ensures BranchesAt(z, r, sinks, at, n, d)
  {
    forall b | 0 <= b < |at|
      ensures BranchAt(z, r, sinks[b], at[b], b < n, d)
    {
      if at[b].Some? { HangsKept(a, z, r, at[b].value, d); }
    }
  }

  lemma {:induction false} BranchBuilt<T>(nets: Netlist<T>, r: nat, sinks: seq<seq<Point>>, at: seq<Option<nat>>,
                                          n: nat, d: nat, t: nat)
    requires BranchesAt(nets, r, sinks, at, n, d) && n < |sinks| && sinks[n] != []
    requires r <= t < |nets| && HangsAt(nets, r, t, d)
    ensures BranchesAt(nets, r, sinks, at[n := Some(t)], n + 1, d)
  {
    var at' := at[n := Some(t)];
    forall b | 0 <= b < |at'|
      ensures BranchAt(nets, r, sinks[b], at'[b], b < n + 1, d)
    {
      assert BranchAt(nets, r, sinks[b], at[b], b < n, d);
    }
  }

  lemma {:induction false} BranchSkipped<T>(nets: Netlist<T>, r: nat, sinks: seq<seq<Point>>, at: seq<Option<nat>>, n: nat, d: nat)
    requires BranchesAt(nets, r, sinks, at, n, d) && n < |sinks| && sinks[n] == []
    ensures BranchesAt(nets, r, sinks, at, n + 1, d)
  {
    forall b | 0 <= b < |at|
      ensures BranchAt(nets, r, sinks[b], at[b], b < n + 1, d)
    {
      assert BranchAt(nets, r, sinks[b], at[b], b < n, d);
    }
  }

  // ----- leaf branches -----

  /** Among the first n branches, those with a net have one of their own, added at or after
      `start`, with nothing but its driver on it. */
  ghost predicate OwnNets<T>(nets: Netlist<T>, at: seq<Option<nat>>, n: nat, start: nat) {
    && n <= |at|
    && (forall b {:trigger at[b]} :: 0 <= b < n ==> OwnNet(nets, at[b], start))
    && forall b, c {:trigger at[b], at[c]} :: 0 <= b < c < n && at[b].Some? ==> at[b] != at[c]
  }

  ghost predicate OwnNet<T>(nets: Netlist<T>, at: Option<nat>, start: nat) {
    at.Some? ==> start <= at.value < |nets| && |nets[at.value]| == 1
  }

  /** A chain with at least one buffer below an older net leaves the leaf nets alone and ends in
      a net of its own. */
  lemma {:induction false} OwnNetBuilt<T>(nets: Netlist<T>, at: seq<Option<nat>>, n: nat, start: nat, k: nat, more: seq<T>, t: nat)
    requires OwnNets(nets, at, n, start) && k < start <= |nets| && n < |at|
    requires more != [] && t == Tail(|nets|, k, |more|)
    ensures OwnNets(Links(nets, k, more, |more|), at[n := Some(t)], n + 1, start)
  {
    var z, at' := Links(nets, k, more, |more|), at[n := Some(t)];
    LinksFrame(nets, k, more, |more|);
    forall b | 0 <= b < n + 1
      ensures OwnNet(z, at'[b], start)
    {
      assert b < n ==> OwnNet(nets, at[b], start);
    }
    forall b, c | 0 <= b < c < n + 1 && at'[b].Some?
      ensures at'[b] != at'[c]
    {
      assert OwnNet(nets, at[b], start);
    }
  }

  /** One more branch with a chain of its own. */
  lemma {:induction false} BranchStep<T>(n0: Netlist<T>, nets: Netlist<T>, nets': Netlist<T>, bufs: seq<T>, k: nat,
                                         more: seq<T>, d: nat, levels: nat, sinks: seq<seq<Point>>, at: seq<Option<nat>>,
                                         n: nat, t: nat)
    requires Tree(n0, nets, bufs, multiset{}) && |n0| <= k < |nets| && HangsAt(nets, |n0|, k, d)
    requires levels == |more| && BranchesAt(nets, |n0|, sinks, at, n, d + levels) && n < |sinks| && sinks[n] != []
    requires nets' == Links(nets, k, more, |more|) && t == Tail(|nets|, k, |more|)
    ensures Tree(n0, nets', bufs + more, multiset{}) && Grown(nets, nets')
    ensures BranchesAt(nets', |n0|, sinks, at[n := Some(t)], n + 1, d + levels)
  {
    TreeChain(n0, nets, bufs, multiset{}, k, more, d);
    LinksGrow(nets, |n0|, k, more, |more|, d);
    BranchesKept(nets, nets', |n0|, sinks, at, n, d + levels);
    BranchBuilt(nets', |n0|, sinks, at, n, d + levels, t);
  }

  // ----- one level -----

  /** What stays the same while one level is built: the nets before the tree, the branches above
      with their nets, how deep these hang, the branches of the level, how many buffers each gets,
      how many nets there were before the level, and whether it is the last one. */
  datatype Plan<T> = Plan(n0: Netlist<T>, above: seq<seq<Point>>, aboveAt: seq<Option<nat>>, depth: nat,
                          sinks: seq<seq<Point>>, levels: nat, start: nat, last: bool) {
    function Root(): nat {
      |n0|
    }
  }

  /** The first n branches of the level have been built. */
  ghost predicate InLevel<T>(p: Plan<T>, nets: Netlist<T>, bufs: seq<T>, at: seq<Option<nat>>, n: nat) {
    && Tree(p.n0, nets, bufs, multiset{}) && p.start <= |nets|
    && BranchesAt(nets, p.Root(), p.above, p.aboveAt, |p.above|, p.depth)
    && (forall b :: 0 <= b < |p.aboveAt| && p.aboveAt[b].Some? ==> p.aboveAt[b].value < p.start)
    && BranchesAt(nets, p.Root(), p.sinks, at, n, p.depth + p.levels)
    && (p.last ==> p.levels > 0 && OwnNets(nets, at, n, p.start))
  }

  /** The same, under a seal: the methods hand it on without looking inside, and only the lemmas
      that open it see what it says. */
  ghost predicate SealedStage<T>(seal: nat, p: Plan<T>, nets: Netlist<T>, bufs: seq<T>, at: seq<Option<nat>>, n: nat) {
    if seal > 0 then SealedStage(seal - 1, p, nets, bufs, at, n) else InLevel(p, nets, bufs, at, n)
  }

  ghost predicate Stage<T>(p: Plan<T>, nets: Netlist<T>, bufs: seq<T>, at: seq<Option<nat>>, n: nat) {
    SealedStage(3, p, nets, bufs, at, n)
  }

  lemma {:induction false} OpenedStage<T>(p: Plan<T>, nets: Netlist<T>, bufs: seq<T>, at: seq<Option<nat>>, n: nat)
    ensures Stage(p, nets, bufs, at, n) <==> InLevel(p, nets, bufs, at, n)
  {
    assert SealedStage(3, p, nets, bufs, at, n) == SealedStage(2, p, nets, bufs, at, n);
    assert SealedStage(2, p, nets, bufs, at, n) == SealedStage(1, p, nets, bufs, at, n);
    assert SealedStage(1, p, nets, bufs, at, n) == SealedStage(0, p, nets, bufs, at, n);
  }

  /** The branch above a branch with sinks has a net that was there before the level. */
  lemma {:induction false} StageAbove<T>(p: Plan<T>, nets: Netlist<T>, bufs: seq<T>, at: seq<Option<nat>>, n: nat, b: nat)
    requires Stage(p, nets, bufs, at, n) && b < |p.above| && p.above[b] != []
    ensures b < |p.aboveAt| && p.aboveAt[b].Some? && p.Root() <= p.aboveAt[b].value < p.start <= |nets|
  {
    OpenedStage(p, nets, bufs, at, n);
    assert BranchAt(nets, p.Root(), p.above[b], p.aboveAt[b], true, p.depth);
  }

  /** One more branch, with a chain below the net of branch b above. */
  lemma {:induction false} StageStep<T>(p: Plan<T>, nets: Netlist<T>, nets': Netlist<T>, bufs: seq<T>, more: seq<T>,
                                        at: seq<Option<nat>>, n: nat, b: nat, k: nat, t: nat)
    requires Stage(p, nets, bufs, at, n) && n < |p.sinks| && p.sinks[n] != [] && n < |at|
    requires b < |p.aboveAt| && p.aboveAt[b] == Some(k) && |more| == p.levels && k < |nets|
    requires nets' == Links(nets, k, more, |more|) && t == Tail(|nets|, k, |more|)
    ensures Stage(p, nets', bufs + more, at[n := Some(t)], n + 1)
  {
    OpenedStage(p, nets, bufs, at, n);
    assert BranchAt(nets, p.Root(), p.above[b], p.aboveAt[b], true, p.depth);
    BranchStep(p.n0, nets, nets', bufs, k, more, p.depth, p.levels, p.sinks, at, n, t);
    BranchesKept(nets, nets', p.Root(), p.above, p.aboveAt, |p.above|, p.depth);
    if p.last {
      OwnNetBuilt(nets, at, n, p.start, k, more, t);
    }
    OpenedStage(p, nets', bufs + more, at[n := Some(t)], n + 1);
  }

  lemma {:induction false} StageSkip<T>(p: Plan<T>, nets: Netlist<T>, bufs: seq<T>, at: seq<Option<nat>>, n: nat)
    requires Stage(p, nets, bufs, at, n) && n < |p.sinks| && p.sinks[n] == []
    ensures Stage(p, nets, bufs, at, n + 1)
  {
    OpenedStage(p, nets, bufs, at, n);
    BranchSkipped(nets, p.Root(), p.sinks, at, n, p.depth + p.levels);
    assert BranchAt(nets, p.Root(), p.sinks[n], at[n], false, p.depth + p.levels);
    OpenedStage(p, nets, bufs, at, n + 1);
  }

  ghost predicate NoNets(at: seq<Option<nat>>) {
    forall b :: 0 <= b < |at| ==> at[b] == None
  }

  /** The next level begins where the one above has ended. */
  lemma {:induction false} StageNext<T>(p: Plan<T>, nets: Netlist<T>, bufs: seq<T>, aboveAt: seq<Option<nat>>,
                                        sinks: seq<seq<Point>>, at: seq<Option<nat>>, levels: nat, last: bool)
    requires Stage(p, nets, bufs, aboveAt, |p.sinks|)
    requires |at| == |sinks| && NoNets(at) && (last ==> levels > 0)
    ensures Stage(Plan(p.n0, p.sinks, aboveAt, p.depth + p.levels, sinks, levels, |nets|, last), nets, bufs, at, 0)
  {
    OpenedStage(p, nets, bufs, aboveAt, |p.sinks|);
    var q := Plan(p.n0, p.sinks, aboveAt, p.depth + p.levels, sinks, levels, |nets|, last);
    forall b | 0 <= b < |aboveAt| && aboveAt[b].Some?
      ensures aboveAt[b].value < |nets|
    {
      assert BranchAt(nets, p.Root(), p.sinks[b], aboveAt[b], true, p.depth + p.levels);
    }
    OpenedStage(q, nets, bufs, at, 0);
  }

  /** The root, taken for a branch with all sinks. */
  function RootAt(top: seq<Point>, r: nat): seq<Option<nat>> {
    if top == [] then [None] else [Some(r)]
  }

  /** The first level begins below the root net. */
  lemma {:induction false} StageFirst<T>(n0: Netlist<T>, root: T, top: seq<Point>, sinks: seq<seq<Point>>,
                                         at: seq<Option<nat>>, levels: nat, last: bool)
    requires Driven(n0) && |at| == |sinks| && NoNets(at) && (last ==> levels > 0)
    ensures Stage(Plan(n0, [top], RootAt(top, |n0|), 0, sinks, levels, |n0| + 1, last), n0 + [[root]], [root], at, 0)
  {
    var p := Plan(n0, [top], RootAt(top, |n0|), 0, sinks, levels, |n0| + 1, last);
    TreeRoot(n0, root);
    assert BranchAt(n0 + [[root]], |n0|, top, RootAt(top, |n0|)[0], true, 0);
    OpenedStage(p, n0 + [[root]], [root], at, 0);
  }

  // ----- attaching the sinks -----

  /** The instances at the given locations. */
  function Insts<T>(m: map<Point, T>, locs: seq<Point>): (r: seq<T>)
    requires forall p :: p in locs ==> p in m
    ensures |r| == |locs|
  {
    seq(|locs|, i requires 0 <= i < |locs| => m[locs[i]])
  }

  /** The same sinks in another order are the same instances. */
  lemma {:induction false} SameInsts<T>(m: map<Point, T>, a: seq<Point>, b: seq<Point>)
    requires multiset(a) == multiset(b) && forall p :: p in a ==> p in m
    ensures forall p :: p in b ==> p in m
    ensures multiset(Insts(m, a)) == multiset(Insts(m, b))
  {
    assert forall p :: p in b ==> p in multiset(b);
    if a == [] {
      assert |b| == |multiset(b)| == 0;
    } else {
      var i := DropOne(a, b);
      SameInsts(m, a[..|a| - 1], b[..i] + b[i + 1..]);
      InstsSnoc(m, a);
      InstsRemove(m, b, i);
    }
  }

  /** The last element of a, found in b and left out of both. */
  lemma {:induction false} DropOne<T>(a: seq<T>, b: seq<T>) returns (i: nat)
    requires multiset(a) == multiset(b) && a != []
    ensures i < |b| && b[i] == a[|a| - 1] && multiset(a[..|a| - 1]) == multiset(b[..i] + b[i + 1..])
  {
    var x := a[|a| - 1];
    assert a == a[..|a| - 1] + [x];
    assert x in multiset(b);
    i :| 0 <= i < |b| && b[i] == x;
    RemoveOne(b, i);
  }

  lemma {:induction false} RemoveOne<T>(b: seq<T>, i: nat)
    requires i < |b|
    ensures multiset(b[..i] + b[i + 1..]) == multiset(b) - multiset{b[i]}
    ensures multiset(b) == multiset(b[..i] + b[i + 1..]) + multiset{b[i]}
  {
    assert b == b[..i] + [b[i]] + b[i + 1..];
  }

  lemma {:induction false} InstsSnoc<T>(m: map<Point, T>, a: seq<Point>)
    requires a != [] && forall p :: p in a ==> p in m
    ensures multiset(Insts(m, a)) == multiset(Insts(m, a[..|a| - 1])) + multiset{m[a[|a| - 1]]}
  {
    assert Insts(m, a) == Insts(m, a[..|a| - 1]) + [m[a[|a| - 1]]];
  }

  lemma {:induction false} InstsRemove<T>(m: map<Point, T>, b: seq<Point>, i: nat)
    requires i < |b| && forall p :: p in b ==> p in m
    ensures forall p :: p in b[..i] + b[i + 1..] ==> p in m
    ensures multiset(Insts(m, b)) == multiset(Insts(m, b[..i] + b[i + 1..])) + multiset{m[b[i]]}
  {
    var y := Insts(m, b);
    assert Insts(m, b[..i] + b[i + 1..]) == y[..i] + y[i + 1..];
    RemoveOne(y, i);
  }
}
