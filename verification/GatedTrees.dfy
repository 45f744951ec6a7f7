/** From the shape of a builder tree to the assumptions of balancing, and from its result to the
    level of every sink of the tree. */
module GatedTrees {
  import opened Netlists
  import opened ClockNets
  import opened BuilderTrees

  // ----- the recorded gates -----

  /** The gates among the sinks of a builder drive children of that builder only, and each occurs
      once.  Any builder below the root may be meant by a gate. */
  ghost predicate InPlace(b: Builder, root: Builder, s: Shots)
    decreases b
  {
    && b.clock in s && Driven(s[b.clock].nets)
    && (forall x, c :: x in AllSinks(s[b.clock].nets) && c in Below(root, |root.children|) && Drives(x, c) ==> c in b.children)
    && DriversOnce(root, s[b.clock].nets)
    && (forall c :: c in b.children ==> InPlace(c, root, s))
  }

  predicate Drives(x: ClockInst, c: Builder) {
    x.gate.Some? && c.driver == x.gate
  }

  ghost predicate DriversOnce(root: Builder, nets: Netlist<ClockInst>) {
    forall j: nat, p: nat, k: nat, q: nat {:trigger SinkPos(nets, j, p), SinkPos(nets, k, q)}
      | SinkPos(nets, j, p) && SinkPos(nets, k, q) && nets[j][p].gate == nets[k][q].gate ::
      (exists c :: c in Below(root, |root.children|) && Drives(nets[j][p], c)) ==> j == k && p == q
  }

  /** A sink is a gater of the recorded map exactly if it drives a builder below the root. */
  lemma {:induction false} RecordedGater(root: Builder, x: ClockInst) returns (c: Builder)
    requires DriversDiffer(root)
    requires IsGater(Record(map[], root, |root.children|), x)
    ensures c in Below(root, |root.children|) && Drives(x, c) && Entry(Record(map[], root, |root.children|), c)
    ensures DrivenBy(Record(map[], root, |root.children|), x) == c
  {
    RecordSound(map[], root, |root.children|, x.gate.value);
    c :| c in Below(root, |root.children|) && c.driver == Some(x.gate.value);
    RecordExact(root, c);
  }

  /** Once the whole tree is recorded, every gate is where it belongs. */
  lemma {:induction false} RecordedGated(b: Builder, root: Builder, s: Shots)
    requires InPlace(b, root, s) && DriversDiffer(root)
    ensures Gated(b, Record(map[], root, |root.children|), s)
    decreases b
  {
    var m := Record(map[], root, |root.children|);
    forall x | x in AllSinks(s[b.clock].nets) && IsGater(m, x)
      ensures DrivesChild(m, x, b)
    {
      var c := RecordedGater(root, x);
    }
    RecordedOnce(root, s[b.clock].nets);
    forall c | c in b.children
      ensures Gated(c, m, s)
    {
      RecordedGated(c, root, s);
    }
  }

  lemma {:induction false} RecordedOnce(root: Builder, nets: Netlist<ClockInst>)
    requires DriversOnce(root, nets) && DriversDiffer(root)
    ensures GatersOnce(Record(map[], root, |root.children|), nets)
  {
    var m := Record(map[], root, |root.children|);
    forall j: nat, p: nat, k: nat, q: nat
      | SinkPos(nets, j, p) && SinkPos(nets, k, q) && IsGater(m, nets[j][p]) && nets[j][p].gate == nets[k][q].gate
      ensures j == k && p == q
    {
      var c := RecordedGater(root, nets[j][p]);
    }
  }

  // ----- every sink of the tree -----

  /** Every child hangs below a sink of its parent. */
  ghost predicate Hangs(b: Builder, s: Shots)
    decreases b
  {
    && b.clock in s
    && forall c :: c in b.children ==> Hangs(c, s) && exists x :: x in AllSinks(s[b.clock].nets) && Drives(x, c)
  }

  /** x is a sink behind d buffers added below one of the first nets of b. */
  ghost predicate Behind(b: Builder, s: Shots, t: Shots, x: ClockInst, d: nat)
    requires b.clock in s && b.clock in t
  {
    Placed(t[b.clock].nets, |s[b.clock].nets|, |s[b.clock].nets|, x, d)
  }

  /** A way down to a sink: in each builder the buffers added before it or before the gater that
      drives the next builder. */
  datatype Way = Here(bufs: nat) | Via(gater: ClockInst, bufs: nat, rest: Way)

  /** The way leads from b to the sink x of builder c. */
  ghost predicate Leads(b: Builder, m: Gaters, s: Shots, t: Shots, way: Way, c: Builder, x: ClockInst)
    decreases way
  {
    && b.clock in s && b.clock in t
    && match way
       case Here(d) => c == b && Behind(b, s, t, x, d)
       case Via(y, d, rest) =>
         && y in AllSinks(s[b.clock].nets) && IsGater(m, y) && DrivenBy(m, y) in b.children
         && Behind(b, s, t, y, d) && Leads(DrivenBy(m, y), m, s, t, rest, c, x)
  }

  /** The levels on a way: the tree levels of each builder, the added buffers and the gates. */
  function LevelsAlong(b: Builder, m: Gaters, way: Way): nat
    decreases way
  {
    b.treeBufLevels + way.bufs
    + if way.Via? && IsGater(m, way.gater) then 1 + LevelsAlong(DrivenBy(m, way.gater), m, way.rest) else 0
  }

  /** In a balanced tree every sink that is no gater, of whichever builder, is on the same level. */
  lemma {:induction false} EverySinkLevel(b: Builder, above: nat, maxDepth: nat, m: Gaters, s: Shots, t: Shots,
                                          c: Builder, x: ClockInst) returns (way: Way)
    requires Balanced(b, above, maxDepth, m, s, t) && Hangs(b, s)
    requires forall e :: e in Below(b, |b.children|) && e.driver.Some? ==> Entry(m, e)
    requires c == b || c in Below(b, |b.children|)
    requires c.clock in s && x in AllSinks(s[c.clock].nets) && x.gate.Some? && !IsGater(m, x)
    ensures Leads(b, m, s, t, way, c, x) && above + LevelsAlong(b, m, way) == maxDepth
    decreases b
  {
    if c == b {
      var d := ToSink(b, above, maxDepth, m, s, t, x);
      way := Here(d);
    } else {
      var e := ChildAbove(b, |b.children|, c);
      var y, d := ToChild(b, above, maxDepth, m, s, t, e);
      BelowChild(b, e);
      var rest := EverySinkLevel(e, above + b.treeBufLevels + d + 1, maxDepth, m, s, t, c, x);
      way := Via(y, d, rest);
    }
  }

  lemma {:induction false} ToSink(b: Builder, above: nat, maxDepth: nat, m: Gaters, s: Shots, t: Shots, x: ClockInst) returns (d: nat)
    requires Balanced(b, above, maxDepth, m, s, t) && x in AllSinks(s[b.clock].nets) && x.gate.Some?
    ensures Behind(b, s, t, x, d) && LevelRight(b, above + b.treeBufLevels + d, maxDepth, m, s, t, x)
  {
    assert SinkDone(b, above, maxDepth, m, s, t, |s[b.clock].nets|, x);
    d :| && Placed(t[b.clock].nets, |s[b.clock].nets|, |s[b.clock].nets|, x, d)
         && LevelRight(b, above + b.treeBufLevels + d, maxDepth, m, s, t, x);
  }

  /** The gater that a child hangs below, and the child balanced below it. */
  lemma {:induction false} ToChild(b: Builder, above: nat, maxDepth: nat, m: Gaters, s: Shots, t: Shots, e: Builder)
    returns (y: ClockInst, d: nat)
    requires Balanced(b, above, maxDepth, m, s, t) && Hangs(b, s) && e in b.children
    requires e.driver.Some? ==> Entry(m, e)
    ensures y in AllSinks(s[b.clock].nets) && IsGater(m, y) && DrivenBy(m, y) == e && Behind(b, s, t, y, d)
    ensures Balanced(e, above + b.treeBufLevels + d + 1, maxDepth, m, s, t)
  {
    y :| y in AllSinks(s[b.clock].nets) && Drives(y, e);
    d := ToSink(b, above, maxDepth, m, s, t, y);
  }

  /** The child whose tree a builder below belongs to. */
  lemma {:induction false} ChildAbove(b: Builder, n: nat, c: Builder) returns (e: Builder)
    requires n <= |b.children| && c in Below(b, n)
    ensures e in b.children && e in Below(b, n) && (c == e || c in Below(e, |e.children|))
  {
    e := b.children[n - 1];
    if c != e && c !in Below(e, |e.children|) {
      e := ChildAbove(b, n - 1, c);
    }
  }

  lemma {:induction false} BelowChild(b: Builder, e: Builder)
    requires e in b.children
    ensures e in Below(b, |b.children|) && Below(e, |e.children|) <= Below(b, |b.children|)
  {
    var i :| 0 <= i < |b.children| && b.children[i] == e;
    BelowFrom(b, i, |b.children|);
  }

  lemma {:induction false} BelowFrom(b: Builder, i: nat, n: nat)
    requires i < n <= |b.children|
    ensures b.children[i] in Below(b, n) && Below(b.children[i], |b.children[i].children|) <= Below(b, n)
  {
    if i < n - 1 { BelowFrom(b, i, n - 1); }
  }

  // ----- a sink has one level only -----

  /** No instance is a sink twice. */
  ghost predicate Simple<T>(nets: Netlist<T>) {
    forall x :: x in AllSinks(nets) ==> AllSinks(nets)[x] == 1
  }

  lemma {:induction false} OneNet<T>(nets: Netlist<T>, i: nat, k: nat, x: T)
    requires Simple(nets) && SinkOn(nets, i, x) && SinkOn(nets, k, x)
    ensures i == k
  {
    if i < k {
      SinkTwice(nets, i, k, x);
    } else if k < i {
      SinkTwice(nets, k, i, x);
    }
  }

  lemma {:induction false} OneDepth<T>(nets: Netlist<T>, base: nat, j: nat, d: nat, d': nat)
    requires Simple(nets) && AtDepth(nets, base, base, j, d) && AtDepth(nets, base, base, j, d')
    ensures d == d'
    decreases d
  {
    if d > 0 && d' > 0 {
      var i: nat :| AtDepth(nets, base, base, i, d - 1) && Feeds(nets, i, j);
      var k: nat :| AtDepth(nets, base, base, k, d' - 1) && Feeds(nets, k, j);
      OneNet(nets, i, k, nets[j][0]);
      OneDepth(nets, base, i, d - 1, d' - 1);
    }
  }

  lemma {:induction false} BehindOnce(b: Builder, s: Shots, t: Shots, x: ClockInst, d: nat, d': nat)
    requires b.clock in s && b.clock in t && Simple(t[b.clock].nets)
    requires Behind(b, s, t, x, d) && Behind(b, s, t, x, d')
    ensures d == d'
  {
    var nets, base := t[b.clock].nets, |s[b.clock].nets|;
    var j: nat :| AtDepth(nets, base, base, j, d) && SinkOn(nets, j, x);
    var k: nat :| AtDepth(nets, base, base, k, d') && SinkOn(nets, k, x);
    OneNet(nets, j, k, x);
    OneDepth(nets, base, j, d, d');
  }

  lemma {:induction false} LeadsBelow(b: Builder, m: Gaters, s: Shots, t: Shots, way: Way, c: Builder, x: ClockInst)
    requires Leads(b, m, s, t, way, c, x)
    ensures c.clock in TreeClocks(b)
    decreases way
  {
    if way.Via? {
      LeadsBelow(DrivenBy(m, way.gater), m, s, t, way.rest, c, x);
      ChildClocks(b, DrivenBy(m, way.gater));
    }
  }

  lemma {:induction false} SameGater(b: Builder, m: Gaters, s: Shots, y: ClockInst, y': ClockInst)
    requires Gated(b, m, s) && y in AllSinks(s[b.clock].nets) && y' in AllSinks(s[b.clock].nets)
    requires IsGater(m, y) && IsGater(m, y') && DrivenBy(m, y) == DrivenBy(m, y')
    ensures y == y'
  {
    var nets := s[b.clock].nets;
    var j, p := FindSink(nets, y);
    var k, q := FindSink(nets, y');
    assert SinkPos(nets, j, p) && SinkPos(nets, k, q);
    assert DrivesChild(m, y, b) && DrivesChild(m, y', b);
  }

  /** There is only one way from the root to a sink, so its level is well defined. */
  lemma {:induction false} OneWay(b: Builder, m: Gaters, s: Shots, t: Shots, way: Way, way': Way, c: Builder, x: ClockInst)
    requires Gated(b, m, s) && ClocksDiffer(b)
    requires forall e :: e in TreeClocks(b) ==> e in t && Simple(t[e].nets)
    requires Leads(b, m, s, t, way, c, x) && Leads(b, m, s, t, way', c, x)
    ensures way == way'
    decreases way
  {
    LeadsOn(b, m, s, t, way, c, x);
    LeadsOn(b, m, s, t, way', c, x);
    if way.Here? {
      BehindOnce(b, s, t, x, way.bufs, way'.bufs);
    } else {
      assert DrivenBy(m, way.gater) == DrivenBy(m, way'.gater);
      SameGater(b, m, s, way.gater, way'.gater);
      BehindOnce(b, s, t, way.gater, way.bufs, way'.bufs);
      ChildClocks(b, DrivenBy(m, way.gater));
      OneWay(DrivenBy(m, way.gater), m, s, t, way.rest, way'.rest, c, x);
    }
  }

  /** A way goes on exactly while the builder it leads to is further down. */
  lemma {:induction false} LeadsOn(b: Builder, m: Gaters, s: Shots, t: Shots, way: Way, c: Builder, x: ClockInst)
    requires Leads(b, m, s, t, way, c, x) && ClocksDiffer(b)
    ensures way.Here? <==> c == b
    ensures way.Via? ==> c.clock in TreeClocks(DrivenBy(m, way.gater))
  {
    if way.Via? {
      LeadsBelow(DrivenBy(m, way.gater), m, s, t, way.rest, c, x);
      ChildClocks(b, DrivenBy(m, way.gater));
    }
  }
}
