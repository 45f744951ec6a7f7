/** Trees of clock builders, and what it means for such a tree to be balanced: all on values,
    with the netlists of the clocks taken as snapshots. */
module BuilderTrees {
  import opened Netlists
  import opened ClockNets

  /** A builder owns the clock of one net.  `driver` is the database instance that drives it, if
      it hangs below a clock gate of its parent. */
  datatype Builder = Builder(clock: Clock, treeBufLevels: nat, driver: Option<nat>, children: seq<Builder>)

  /** The netlist and the buffers of a clock at one moment. */
  datatype Shot = Shot(nets: Netlist<ClockInst>, bufs: seq<ClockInst>)

  type Shots = map<Clock, Shot>

  /** For each gate that drives a builder: the depth below it, itself included, and the builder. */
  type Gaters = map<nat, (nat, Builder)>

  // ----- depths -----

  /** Tree levels of a builder plus those of its deepest child and the gate in between. */
  function Depth(b: Builder): nat
    decreases b, |b.children| + 1
  {
    b.treeBufLevels + DeepestChild(b, |b.children|)
  }

  function DeepestChild(b: Builder, n: nat): nat
    requires n <= |b.children|
    decreases b, n
  {
    if n == 0 then 0
    else
      var deepest, d := DeepestChild(b, n - 1), Depth(b.children[n - 1]) + 1;
      if d > deepest then d else deepest
  }

  lemma {:induction false} ChildShallower(b: Builder, i: nat, n: nat)
    requires i < n <= |b.children|
    ensures Depth(b.children[i]) + 1 <= DeepestChild(b, n)
  {
    if i < n - 1 { ChildShallower(b, i, n - 1); }
  }

  lemma {:induction false} ChildDepth(b: Builder, c: Builder)
    requires c in b.children
    ensures b.treeBufLevels + Depth(c) + 1 <= Depth(b)
  {
    var i :| 0 <= i < |b.children| && b.children[i] == c;
    ChildShallower(b, i, |b.children|);
  }

  // ----- lines of builders -----

  /** A way down from a builder: which child, which child of that one, and so on. */
  predicate IsLine(b: Builder, line: seq<nat>)
    decreases line
  {
    line == [] || (line[0] < |b.children| && IsLine(b.children[line[0]], line[1..]))
  }

  /** The levels on the way: those of the builders on it, and one for the gate of each step. */
  function LineLevels(b: Builder, line: seq<nat>): nat
    requires IsLine(b, line)
    decreases line
  {
    b.treeBufLevels + if line == [] then 0 else 1 + LineLevels(b.children[line[0]], line[1..])
  }

  /** The number of levels on the longest way down. */
  ghost predicate LongestLine(b: Builder, levels: nat) {
    && (exists line :: IsLine(b, line) && LineLevels(b, line) == levels)
    && forall line :: IsLine(b, line) ==> LineLevels(b, line) <= levels
  }

  lemma {:induction false} NoLineLonger(b: Builder, line: seq<nat>)
    requires IsLine(b, line)
    ensures LineLevels(b, line) <= Depth(b)
    decreases line
  {
    if line != [] {
      NoLineLonger(b.children[line[0]], line[1..]);
      ChildShallower(b, line[0], |b.children|);
    }
  }

  lemma {:induction false} SomeLine(b: Builder) returns (line: seq<nat>)
    ensures IsLine(b, line) && LineLevels(b, line) == Depth(b)
    decreases b, |b.children| + 1
  {
    line := SomeChildLine(b, |b.children|);
  }

  lemma {:induction false} SomeChildLine(b: Builder, n: nat) returns (line: seq<nat>)
    requires n <= |b.children|
    ensures IsLine(b, line) && LineLevels(b, line) == b.treeBufLevels + DeepestChild(b, n)
    decreases b, n
  {
    line := [];
    if n > 0 {
      if Depth(b.children[n - 1]) + 1 > DeepestChild(b, n - 1) {
        var below := SomeLine(b.children[n - 1]);
        line := [n - 1] + below;
        assert line[1..] == below;
      } else {
        line := SomeChildLine(b, n - 1);
      }
    }
  }

  /** The depth is what the longest way down takes. */
  lemma {:induction false} DepthIsLongest(b: Builder)
    ensures LongestLine(b, Depth(b))
  {
    var line := SomeLine(b);
    forall line | IsLine(b, line) ensures LineLevels(b, line) <= Depth(b) {
      NoLineLonger(b, line);
    }
  }

  // ----- the gate map -----

  /** The map after the first n children of b and everything below them have been recorded. */
  function Record(m: Gaters, b: Builder, n: nat): Gaters
    requires n <= |b.children|
    decreases b, n
  {
    if n == 0 then m
    else
      var c := b.children[n - 1];
      var below := Record(Record(m, b, n - 1), c, |c.children|);
      if c.driver.Some? then below[c.driver.value := (Depth(c) + 1, c)] else below
  }

  /** The first n children of b and everything below them. */
  ghost function Below(b: Builder, n: nat): set<Builder>
    requires n <= |b.children|
    decreases b, n
  {
    if n == 0 then {}
    else Below(b, n - 1) + {b.children[n - 1]} + Below(b.children[n - 1], |b.children[n - 1].children|)
  }

  predicate SameDriver(x: Builder, y: Builder) {
    x.driver.Some? && x.driver == y.driver
  }

  /** No two builders below b are driven by the same gate. */
  ghost predicate DriversDiffer(b: Builder) {
    forall x, y :: x in Below(b, |b.children|) && y in Below(b, |b.children|) && SameDriver(x, y) ==> x == y
  }

  ghost predicate Entry(m: Gaters, c: Builder) {
    c.driver.Some? && c.driver.value in m && m[c.driver.value] == (Depth(c) + 1, c)
  }

  /** Every key of the recorded map was there before or holds the entry of a builder below. */
  lemma {:induction false} RecordSound(m: Gaters, b: Builder, n: nat, g: nat)
    requires n <= |b.children| && g in Record(m, b, n)
    ensures (g in m && Record(m, b, n)[g] == m[g])
            || (exists c :: c in Below(b, n) && c.driver == Some(g) && Record(m, b, n)[g] == (Depth(c) + 1, c))
    decreases b, n
  {
    if n > 0 {
      var c := b.children[n - 1];
      var m1 := Record(m, b, n - 1);
      var m2 := Record(m1, c, |c.children|);
      if c.driver != Some(g) {
        assert g in m2 && Record(m, b, n)[g] == m2[g];
        RecordSound(m1, c, |c.children|, g);
        if g in m1 && m2[g] == m1[g] {
          RecordSound(m, b, n - 1, g);
        }
      } else {
        assert c in Below(b, n);
      }
    }
  }

  lemma {:induction false} RecordKeeps(m: Gaters, b: Builder, n: nat)
    requires n <= |b.children|
    ensures m.Keys <= Record(m, b, n).Keys
    ensures forall c :: c in Below(b, n) && c.driver.Some? ==> c.driver.value in Record(m, b, n)
    decreases b, n
  {
    if n > 0 {
      var c := b.children[n - 1];
      RecordKeeps(m, b, n - 1);
      RecordKeeps(Record(m, b, n - 1), c, |c.children|);
    }
  }

  /** Recording a whole tree from scratch gives every builder below its root its entry. */
  lemma {:induction false} RecordExact(b: Builder, c: Builder)
    requires DriversDiffer(b) && c in Below(b, |b.children|) && c.driver.Some?
    ensures Entry(Record(map[], b, |b.children|), c)
  {
    var g := c.driver.value;
    RecordKeeps(map[], b, |b.children|);
    RecordSound(map[], b, |b.children|, g);
    var e :| e in Below(b, |b.children|) && e.driver == Some(g)
             && Record(map[], b, |b.children|)[g] == (Depth(e) + 1, e);
    assert SameDriver(c, e);
  }

  // ----- clocks -----

  /** The clocks of the first n children of b and everything below them. */
  ghost function Kids(b: Builder, n: nat): set<Clock>
    requires n <= |b.children|
    decreases b, n
  {
    if n == 0 then {} else Kids(b, n - 1) + TreeClocks(b.children[n - 1])
  }

  ghost function TreeClocks(b: Builder): set<Clock>
    decreases b, |b.children| + 1
  {
    {b.clock} + Kids(b, |b.children|)
  }

  lemma {:induction false} KidsFrom(b: Builder, i: nat, n: nat)
    requires i < n <= |b.children|
    ensures TreeClocks(b.children[i]) <= Kids(b, n)
  {
    if i < n - 1 { KidsFrom(b, i, n - 1); }
  }

  lemma {:induction false} KidsOf(b: Builder, n: nat, c: Clock) returns (i: nat)
    requires n <= |b.children| && c in Kids(b, n)
    ensures i < n && c in TreeClocks(b.children[i])
  {
    if c in TreeClocks(b.children[n - 1]) {
      i := n - 1;
    } else {
      i := KidsOf(b, n - 1, c);
    }
  }

  lemma {:induction false} ChildClocks(b: Builder, c: Builder)
    requires c in b.children
    ensures TreeClocks(c) <= Kids(b, |b.children|)
  {
    var i :| 0 <= i < |b.children| && b.children[i] == c;
    KidsFrom(b, i, |b.children|);
  }

  /** No clock belongs to two builders of the tree. */
  ghost predicate ClocksDiffer(b: Builder)
    decreases b
  {
    && b.clock !in Kids(b, |b.children|)
    && (forall c, d :: c in b.children && d in b.children && c != d ==> TreeClocks(c) !! TreeClocks(d))
    && (forall c :: c in b.children ==> ClocksDiffer(c))
  }

  // ----- gates and levels -----

  predicate IsGater(m: Gaters, x: ClockInst) {
    x.gate.Some? && x.gate.value in m
  }

  /** What a sink adds to the level of its cluster. */
  function Extra(m: Gaters, x: ClockInst): nat {
    if IsGater(m, x) then m[x.gate.value].0 else 0
  }

  /** What the gater x drives. */
  function DrivenBy(m: Gaters, x: ClockInst): Builder
    requires IsGater(m, x)
  {
    m[x.gate.value].1
  }

  /** The gater x drives a child of b, and the map holds the right depth for it. */
  ghost predicate DrivesChild(m: Gaters, x: ClockInst, b: Builder)
    requires IsGater(m, x)
  {
    var c := DrivenBy(m, x);
    c in b.children && c.driver == x.gate && m[x.gate.value].0 == Depth(c) + 1
  }

  /** The gates of a tree are where they belong: each gater among the sinks of a builder drives one
      of its children, and no gater occurs twice. */
  ghost predicate Gated(b: Builder, m: Gaters, s: Shots)
    decreases b
  {
    && b.clock in s && Driven(s[b.clock].nets)
    && (forall x :: x in AllSinks(s[b.clock].nets) && IsGater(m, x) ==> DrivesChild(m, x, b))
    && GatersOnce(m, s[b.clock].nets)
    && (forall c :: c in b.children ==> Gated(c, m, s))
  }

  predicate SinkPos(nets: Netlist<ClockInst>, j: nat, p: nat) {
    j < |nets| && 1 <= p < |nets[j]|
  }

  ghost predicate GatersOnce(m: Gaters, nets: Netlist<ClockInst>) {
    forall j: nat, p: nat, k: nat, q: nat {:trigger SinkPos(nets, j, p), SinkPos(nets, k, q)}
      | SinkPos(nets, j, p) && SinkPos(nets, k, q) ::
      IsGater(m, nets[j][p]) && nets[j][p].gate == nets[k][q].gate ==> j == k && p == q
  }

  ghost predicate Agree(s: Shots, t: Shots, clocks: set<Clock>) {
    forall c :: c in clocks ==> c in s && c in t && s[c] == t[c]
  }

  lemma {:induction false} GatedFrame(b: Builder, m: Gaters, s: Shots, t: Shots)
    requires Gated(b, m, s) && Agree(s, t, TreeClocks(b))
    ensures Gated(b, m, t)
    decreases b
  {
    assert b.clock in TreeClocks(b);
    forall c | c in b.children
      ensures Gated(c, m, t)
    {
      ChildClocks(b, c);
      GatedFrame(c, m, s, t);
    }
  }

  // ----- balance -----

  /** After balancing, the sink x of b stands on the level it should: below `parentDepth` levels
      above b come the tree levels of b and d inserted buffers, and, for a gater, the gate itself
      and the child it drives.  Only the first `done` nets are finished. */
  ghost predicate SinkDone(b: Builder, parentDepth: nat, maxDepth: nat, m: Gaters, s: Shots, t: Shots,
                           done: nat, x: ClockInst)
    decreases b, 1
  {
    && b.clock in s && b.clock in t
    && (x.gate.Some? ==>
          exists d: nat ::
            && Placed(t[b.clock].nets, done, |s[b.clock].nets|, x, d)
            && LevelRight(b, parentDepth + b.treeBufLevels + d, maxDepth, m, s, t, x))
  }

  ghost predicate LevelRight(b: Builder, level: nat, maxDepth: nat, m: Gaters, s: Shots, t: Shots, x: ClockInst)
    decreases b, 0
  {
    if IsGater(m, x)
    then DrivenBy(m, x) in b.children && Balanced(DrivenBy(m, x), level + 1, maxDepth, m, s, t)
    else level == maxDepth
  }

  /** Every sink of b and, through its gaters, every sink below b ends at level maxDepth exactly. */
  ghost predicate Balanced(b: Builder, parentDepth: nat, maxDepth: nat, m: Gaters, s: Shots, t: Shots)
    decreases b, 2
  {
    && b.clock in s && b.clock in t
    && forall x :: x in AllSinks(s[b.clock].nets) ==>
         SinkDone(b, parentDepth, maxDepth, m, s, t, |s[b.clock].nets|, x)
  }

  /** Balance is about the clocks of the tree only. */
  lemma {:induction false} BalancedFrame(b: Builder, parentDepth: nat, maxDepth: nat, m: Gaters,
                                         s: Shots, t: Shots, s': Shots, t': Shots)
    requires Balanced(b, parentDepth, maxDepth, m, s, t)
    requires Agree(s, s', TreeClocks(b)) && Agree(t, t', TreeClocks(b))
    ensures Balanced(b, parentDepth, maxDepth, m, s', t')
    decreases b, 1
  {
    assert b.clock in TreeClocks(b);
    forall x | x in AllSinks(s'[b.clock].nets)
      ensures SinkDone(b, parentDepth, maxDepth, m, s', t', |s'[b.clock].nets|, x)
    {
      if x.gate.Some? {
        var d: nat :| && Placed(t[b.clock].nets, |s[b.clock].nets|, |s[b.clock].nets|, x, d)
                      && LevelRight(b, parentDepth + b.treeBufLevels + d, maxDepth, m, s, t, x);
        LevelFrame(b, parentDepth + b.treeBufLevels + d, maxDepth, m, s, t, s', t', x);
      }
    }
  }

  lemma {:induction false} LevelFrame(b: Builder, level: nat, maxDepth: nat, m: Gaters, s: Shots, t: Shots, s': Shots, t': Shots,
                   x: ClockInst)
    requires LevelRight(b, level, maxDepth, m, s, t, x)
    requires IsGater(m, x) ==>
               && Agree(s, s', TreeClocks(DrivenBy(m, x)) * TreeClocks(b))
               && Agree(t, t', TreeClocks(DrivenBy(m, x)) * TreeClocks(b))
    ensures LevelRight(b, level, maxDepth, m, s', t', x)
    decreases b, 0
  {
    if IsGater(m, x) {
      var c := DrivenBy(m, x);
      ChildClocks(b, c);
      assert TreeClocks(c) * TreeClocks(b) == TreeClocks(c);
      BalancedFrame(c, level + 1, maxDepth, m, s, t, s', t');
    }
  }

  /** A finished sink stays finished while finished nets only grow and what it drives is left alone. */
  lemma {:induction false} SinkDoneKept(b: Builder, parentDepth: nat, maxDepth: nat, m: Gaters, s: Shots, t: Shots, t': Shots,
                     done: nat, done': nat, x: ClockInst)
    requires SinkDone(b, parentDepth, maxDepth, m, s, t, done, x) && b.clock in t'
    requires done <= done' <= |s[b.clock].nets|
    requires Keeps(t[b.clock].nets, t'[b.clock].nets, done, |s[b.clock].nets|)
    requires IsGater(m, x) ==> Agree(t, t', TreeClocks(DrivenBy(m, x))) && Agree(s, s, TreeClocks(DrivenBy(m, x)))
    ensures SinkDone(b, parentDepth, maxDepth, m, s, t', done', x)
  {
    if x.gate.Some? {
      var base := |s[b.clock].nets|;
      var d: nat :| && Placed(t[b.clock].nets, done, base, x, d)
                    && LevelRight(b, parentDepth + b.treeBufLevels + d, maxDepth, m, s, t, x);
      PlacedKept(t[b.clock].nets, t'[b.clock].nets, done, done', base, x, d);
      LevelFrame(b, parentDepth + b.treeBufLevels + d, maxDepth, m, s, t, s, t', x);
    }
  }
}
