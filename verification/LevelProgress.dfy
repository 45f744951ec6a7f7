/** One builder while its nets are being balanced: what holds between two steps. */
module LevelProgress {
  import opened Netlists
  import opened ClockNets
  import opened BuilderTrees
  import opened LevelAccounting

  /** What balancing one builder is about: the builder, the depth above it, the target depth, the
      gates of the whole tree and the snapshot at the start. */
  datatype Job = Job(b: Builder, parentDepth: nat, maxDepth: nat, m: Gaters, s: Shots) {
    ghost predicate Valid() {
      && Gated(b, m, s) && ClocksDiffer(b) && TreeClocks(b) <= s.Keys
      && parentDepth + Depth(b) == maxDepth
    }

    /** The level of a cluster that sits behind d buffers. */
    function LevelAt(d: nat): nat {
      parentDepth + b.treeBufLevels + d
    }

    ghost function Start(): Shot {
      if b.clock in s then s[b.clock] else Shot([], [])
    }
  }

  /** From s to t, b has been balanced below the given depth: all sinks are on their level, none is
      lost, and no clock outside the tree of b has changed. */
  ghost predicate Fixed(b: Builder, depth: nat, maxDepth: nat, m: Gaters, s: Shots, t: Shots) {
    && s.Keys == t.Keys && Agree(s, t, s.Keys - TreeClocks(b))
    && Balanced(b, depth, maxDepth, m, s, t)
    && forall c :: c in TreeClocks(b) ==> c in s && c in t && Conserved(s[c], t[c])
  }

  /** The sinks finished so far are on their level. */
  ghost predicate AllDone(j: Job, t: Shots, done: nat, finished: set<ClockInst>) {
    forall x :: x in finished ==>
      x in AllSinks(j.Start().nets) && SinkDone(j.b, j.parentDepth, j.maxDepth, j.m, j.s, t, done, x)
  }

  /** What the other gaters drive has not been touched. */
  ghost predicate OthersWait(j: Job, t: Shots, finished: set<ClockInst>) {
    forall x :: x in AllSinks(j.Start().nets) && IsGater(j.m, x) && x !in finished ==>
      Agree(j.s, t, TreeClocks(DrivenBy(j.m, x)))
  }

  /** Every clock below is complete. */
  ghost predicate KidsKept(j: Job, t: Shots) {
    forall c :: c in Kids(j.b, |j.b.children|) ==> c in j.s && c in t && Conserved(j.s[c], t[c])
  }

  /** From the start to t: the first `done` nets are finished but for the `pending` sinks. */
  ghost predicate Progress(j: Job, t: Shots, done: nat, finished: set<ClockInst>, pending: multiset<ClockInst>) {
    && j.Valid() && TreeClocks(j.b) <= t.Keys
    && Accounted(j.Start(), t[j.b.clock], done, pending)
    && AllDone(j, t, done, finished)
    && OthersWait(j, t, finished)
    && KidsKept(j, t)
  }

  lemma {:induction false} GatedDriven(b: Builder, m: Gaters, s: Shots, c: Clock)
    requires Gated(b, m, s) && c in TreeClocks(b)
    ensures c in s && Driven(s[c].nets)
    decreases b
  {
    if c != b.clock {
      var i := KidsOf(b, |b.children|, c);
      GatedDriven(b.children[i], m, s, c);
    }
  }

  lemma {:induction false} Begin(j: Job)
    requires j.Valid()
    ensures Progress(j, j.s, 0, {}, multiset{})
  {
    GatedDriven(j.b, j.m, j.s, j.b.clock);
    Unmoved(j.Start());
    forall c | c in Kids(j.b, |j.b.children|)
      ensures Conserved(j.s[c], j.s[c])
    {
      GatedDriven(j.b, j.m, j.s, c);
      Unmoved(j.s[c]);
    }
    forall x | x in AllSinks(j.Start().nets) && IsGater(j.m, x)
      ensures Agree(j.s, j.s, TreeClocks(DrivenBy(j.m, x)))
    {
      GaterChild(j, x);
    }
  }

  /** What a gater drives is a child, and its clocks are other clocks than the builder's own. */
  lemma {:induction false} GaterChild(j: Job, x: ClockInst)
    requires j.Valid() && x in AllSinks(j.Start().nets) && IsGater(j.m, x)
    ensures DrivesChild(j.m, x, j.b)
    ensures TreeClocks(DrivenBy(j.m, x)) <= Kids(j.b, |j.b.children|) <= j.s.Keys
    ensures j.b.clock !in TreeClocks(DrivenBy(j.m, x))
  {
    ChildClocks(j.b, DrivenBy(j.m, x));
  }

  /** Two gaters that drive the same child are the same sink. */
  lemma {:induction false} SameChild(j: Job, x: ClockInst, y: ClockInst)
    requires j.Valid() && x in AllSinks(j.Start().nets) && y in AllSinks(j.Start().nets)
    requires IsGater(j.m, x) && IsGater(j.m, y) && DrivenBy(j.m, x) == DrivenBy(j.m, y)
    ensures x == y
  {
    var a, p := FindSink(j.Start().nets, x);
    var b, q := FindSink(j.Start().nets, y);
    assert SinkPos(j.Start().nets, a, p) && SinkPos(j.Start().nets, b, q);
    GaterChild(j, x);
    GaterChild(j, y);
  }

  lemma {:induction false} OtherChild(j: Job, x: ClockInst, y: ClockInst)
    requires j.Valid() && x in AllSinks(j.Start().nets) && y in AllSinks(j.Start().nets) && x != y
    requires IsGater(j.m, x) && IsGater(j.m, y)
    ensures TreeClocks(DrivenBy(j.m, y)) !! TreeClocks(DrivenBy(j.m, x))
    ensures TreeClocks(DrivenBy(j.m, y)) <= Kids(j.b, |j.b.children|) <= j.s.Keys
  {
    GaterChild(j, x);
    GaterChild(j, y);
    if DrivenBy(j.m, x) == DrivenBy(j.m, y) {
      SameChild(j, x, y);
    }
  }

  /** From t to t', only the clock of the builder itself has changed. */
  ghost predicate OwnOnly(j: Job, t: Shots, t': Shots) {
    j.b.clock in t && t.Keys == t'.Keys && Agree(t, t', t.Keys - {j.b.clock})
  }

  /** Only the clock of the builder itself changes, and there only unfinished nets or the ends of
      finished ones. */
  ghost predicate OwnChange(j: Job, t: Shots, t': Shots, done: nat, done': nat, pending: multiset<ClockInst>) {
    && OwnOnly(j, t, t') && done <= done' && j.b.clock in j.s
    && Accounted(j.Start(), t'[j.b.clock], done', pending)
    && Keeps(t[j.b.clock].nets, t'[j.b.clock].nets, done, |j.Start().nets|)
  }

  /** Such a step keeps the progress. */
  lemma {:induction false} OwnStep(j: Job, t: Shots, t': Shots, done: nat, done': nat, finished: set<ClockInst>,
                pending: multiset<ClockInst>, pending': multiset<ClockInst>)
    requires Progress(j, t, done, finished, pending) && OwnChange(j, t, t', done, done', pending')
    ensures Progress(j, t', done', finished, pending')
  {
    forall x | x in finished
      ensures SinkDone(j.b, j.parentDepth, j.maxDepth, j.m, j.s, t', done', x)
    {
      OwnStepSink(j, t, t', done, done', x);
    }
    forall x | x in AllSinks(j.Start().nets) && IsGater(j.m, x) && x !in finished
      ensures Agree(j.s, t', TreeClocks(DrivenBy(j.m, x)))
    {
      GaterChild(j, x);
    }
    assert AllDone(j, t', done', finished) && OthersWait(j, t', finished) && KidsKept(j, t');
  }

  lemma {:induction false} OwnStepSink(j: Job, t: Shots, t': Shots, done: nat, done': nat, x: ClockInst)
    requires j.Valid() && TreeClocks(j.b) <= t.Keys && x in AllSinks(j.Start().nets) && OwnOnly(j, t, t')
    requires SinkDone(j.b, j.parentDepth, j.maxDepth, j.m, j.s, t, done, x)
    requires done <= done' <= |j.Start().nets|
    requires Keeps(t[j.b.clock].nets, t'[j.b.clock].nets, done, |j.Start().nets|)
    ensures SinkDone(j.b, j.parentDepth, j.maxDepth, j.m, j.s, t', done', x)
  {
    if IsGater(j.m, x) {
      GaterChild(j, x);
    }
    SinkDoneKept(j.b, j.parentDepth, j.maxDepth, j.m, j.s, t, t', done, done', x);
  }

  /** A sink that needs nothing below it is finished once it is placed on the target level. */
  lemma {:induction false} LeafFinished(j: Job, t: Shots, done: nat, finished: set<ClockInst>, pending: multiset<ClockInst>,
                     x: ClockInst, d: nat)
    requires Progress(j, t, done, finished, pending)
    requires x in AllSinks(j.Start().nets) && !IsGater(j.m, x)
    requires Placed(t[j.b.clock].nets, done, |j.Start().nets|, x, d)
    requires j.LevelAt(d) == j.maxDepth
    ensures Progress(j, t, done, finished + {x}, pending)
  {
    SinkIsDone(j, t, done, x, d);
    assert AllDone(j, t, done, finished + {x}) && OthersWait(j, t, finished + {x});
  }

  /** A gater is finished once it is placed and the child it drives has been balanced. */
  lemma {:induction false} GaterFinished(j: Job, t: Shots, t': Shots, done: nat, finished: set<ClockInst>,
                      pending: multiset<ClockInst>, x: ClockInst, d: nat, depth: nat)
    requires Progress(j, t, done, finished, pending)
    requires x in AllSinks(j.Start().nets) && x !in finished && IsGater(j.m, x)
    requires Placed(t[j.b.clock].nets, done, |j.Start().nets|, x, d)
    requires depth == j.LevelAt(d) + 1 && Fixed(DrivenBy(j.m, x), depth, j.maxDepth, j.m, t, t')
    ensures Progress(j, t', done, finished + {x}, pending)
  {
    GaterChild(j, x);
    assert t'[j.b.clock] == t[j.b.clock];
    GaterAllDone(j, t, t', done, finished, x, d, depth);
    GaterLeavesOthers(j, t, t', finished, x, d, depth);
  }

  lemma {:induction false} GaterAllDone(j: Job, t: Shots, t': Shots, done: nat, finished: set<ClockInst>, x: ClockInst, d: nat,
                     depth: nat)
    requires j.Valid() && TreeClocks(j.b) <= t.Keys && Driven(t[j.b.clock].nets) && done <= |j.Start().nets|
    requires AllDone(j, t, done, finished) && OthersWait(j, t, finished)
    requires x in AllSinks(j.Start().nets) && x !in finished && IsGater(j.m, x)
    requires j.b.clock in t' && t'[j.b.clock] == t[j.b.clock]
    requires Placed(t[j.b.clock].nets, done, |j.Start().nets|, x, d)
    requires depth == j.LevelAt(d) + 1 && Fixed(DrivenBy(j.m, x), depth, j.maxDepth, j.m, t, t')
    ensures AllDone(j, t', done, finished + {x})
  {
    GaterDone(j, t, t', done, x, d, depth);
    forall y | y in finished
      ensures SinkDone(j.b, j.parentDepth, j.maxDepth, j.m, j.s, t', done, y)
    {
      FinishedStays(j, t, t', done, x, y);
    }
  }

  lemma {:induction false} GaterLeavesOthers(j: Job, t: Shots, t': Shots, finished: set<ClockInst>, x: ClockInst, d: nat,
                     depth: nat)
    requires j.Valid() && TreeClocks(j.b) <= t.Keys && OthersWait(j, t, finished) && KidsKept(j, t)
    requires x in AllSinks(j.Start().nets) && x !in finished && IsGater(j.m, x)
    requires depth == j.LevelAt(d) + 1 && Fixed(DrivenBy(j.m, x), depth, j.maxDepth, j.m, t, t')
    ensures OthersWait(j, t', finished + {x}) && KidsKept(j, t')
  {
    forall y | y in AllSinks(j.Start().nets) && IsGater(j.m, y) && y !in finished + {x}
      ensures Agree(j.s, t', TreeClocks(DrivenBy(j.m, y)))
    {
      OtherChild(j, x, y);
    }
    assert Agree(j.s, t, TreeClocks(DrivenBy(j.m, x)));
  }

  lemma {:induction false} GaterDone(j: Job, t: Shots, t': Shots, done: nat, x: ClockInst, d: nat, depth: nat)
    requires j.Valid() && j.b.clock in t && j.b.clock in t' && t'[j.b.clock] == t[j.b.clock]
    requires x in AllSinks(j.Start().nets) && IsGater(j.m, x) && Agree(j.s, t, TreeClocks(DrivenBy(j.m, x)))
    requires Placed(t[j.b.clock].nets, done, |j.Start().nets|, x, d)
    requires depth == j.LevelAt(d) + 1 && Fixed(DrivenBy(j.m, x), depth, j.maxDepth, j.m, t, t')
    ensures SinkDone(j.b, j.parentDepth, j.maxDepth, j.m, j.s, t', done, x)
  {
    GaterChild(j, x);
    SinceTheStart(j, t, t', depth, x);
    SinkIsDone(j, t', done, x, d);
  }

  lemma {:induction false} SinceTheStart(j: Job, t: Shots, t': Shots, depth: nat, x: ClockInst)
    requires IsGater(j.m, x) && Agree(j.s, t, TreeClocks(DrivenBy(j.m, x)))
    requires Fixed(DrivenBy(j.m, x), depth, j.maxDepth, j.m, t, t')
    ensures Balanced(DrivenBy(j.m, x), depth, j.maxDepth, j.m, j.s, t')
  {
    var c := DrivenBy(j.m, x);
    assert Agree(t, j.s, TreeClocks(c));
    assert Agree(t', t', TreeClocks(c));
    BalancedFrame(c, depth, j.maxDepth, j.m, t, t', j.s, t');
  }

  lemma {:induction false} SinkIsDone(j: Job, t: Shots, done: nat, x: ClockInst, d: nat)
    requires j.b.clock in j.s && j.b.clock in t
    requires Placed(t[j.b.clock].nets, done, |j.Start().nets|, x, d)
    requires LevelRight(j.b, j.LevelAt(d), j.maxDepth, j.m, j.s, t, x)
    ensures SinkDone(j.b, j.parentDepth, j.maxDepth, j.m, j.s, t, done, x)
  {
  }

  lemma {:induction false} FinishedStays(j: Job, t: Shots, t': Shots, done: nat, x: ClockInst, y: ClockInst)
    requires j.Valid() && TreeClocks(j.b) <= t.Keys <= t'.Keys
    requires Driven(t[j.b.clock].nets) && done <= |j.Start().nets|
    requires x in AllSinks(j.Start().nets) && y in AllSinks(j.Start().nets) && x != y && IsGater(j.m, x)
    requires t'[j.b.clock] == t[j.b.clock] && Agree(t, t', t.Keys - TreeClocks(DrivenBy(j.m, x)))
    requires SinkDone(j.b, j.parentDepth, j.maxDepth, j.m, j.s, t, done, y)
    ensures SinkDone(j.b, j.parentDepth, j.maxDepth, j.m, j.s, t', done, y)
  {
    if IsGater(j.m, y) {
      OtherChild(j, x, y);
    }
    SinkDoneKept(j.b, j.parentDepth, j.maxDepth, j.m, j.s, t, t', done, done, y);
  }

  /** When all nets are finished and all real sinks with them, the builder is balanced. */
  lemma {:induction false} End(j: Job, t: Shots, finished: set<ClockInst>)
    requires Progress(j, t, |j.Start().nets|, finished, multiset{})
    requires forall x :: x in AllSinks(j.Start().nets) && x.gate.Some? ==> x in finished
    ensures Balanced(j.b, j.parentDepth, j.maxDepth, j.m, j.s, t)
    ensures Accounted(j.Start(), t[j.b.clock], |j.Start().nets|, multiset{})
  {
  }

  /** A builder that already reaches the target depth drives no other builder, and all its sinks
      are on the target level as they stand. */
  lemma {:induction false} AlreadyLevel(j: Job)
    requires j.Valid() && j.parentDepth + j.b.treeBufLevels >= j.maxDepth
    ensures Balanced(j.b, j.parentDepth, j.maxDepth, j.m, j.s, j.s)
    ensures forall c :: c in TreeClocks(j.b) ==> Conserved(j.s[c], j.s[c])
  {
    Begin(j);
    if j.b.children != [] {
      ChildDepth(j.b, j.b.children[0]);
      assert false;
    }
    forall x | x in AllSinks(j.Start().nets)
      ensures SinkDone(j.b, j.parentDepth, j.maxDepth, j.m, j.s, j.s, |j.Start().nets|, x)
    {
      var k, p := FindSink(j.Start().nets, x);
      assert j.Start().nets[k][1..][p - 1] == x;
      assert SinkOn(j.Start().nets, k, x) && AtDepth(j.Start().nets, |j.Start().nets|, |j.Start().nets|, k, 0);
      assert Placed(j.Start().nets, |j.Start().nets|, |j.Start().nets|, x, 0);
    }
  }

  /** The level of a cluster never exceeds the target depth, so the number of buffers to add is
      never negative; and a gater's child starts at a depth that leaves it exactly its own depth. */
  lemma {:induction false} LevelsFit(j: Job, x: ClockInst)
    requires j.Valid() && x in AllSinks(j.Start().nets)
    ensures var level := LevelOf(j.m, j.parentDepth + j.b.treeBufLevels, x);
            && level <= j.maxDepth
            && (IsGater(j.m, x) ==>
                  && level != j.parentDepth + j.b.treeBufLevels
                  && j.parentDepth + j.b.treeBufLevels + (j.maxDepth - level) + 1 + Depth(DrivenBy(j.m, x)) == j.maxDepth)
  {
    if IsGater(j.m, x) {
      GaterChild(j, x);
      ChildDepth(j.b, DrivenBy(j.m, x));
    }
  }

  /** What a gater that is still to be finished drives can be balanced now, at a depth that leaves
      it exactly its own depth. */
  lemma {:induction false} ChildJob(j: Job, t: Shots, done: nat, finished: set<ClockInst>, pending: multiset<ClockInst>,
                 x: ClockInst, d: nat, depth: nat)
    requires Progress(j, t, done, finished, pending)
    requires x in AllSinks(j.Start().nets) && IsGater(j.m, x) && x !in finished
    requires depth == j.LevelAt(d) + 1 && d == j.maxDepth - LevelOf(j.m, j.LevelAt(0), x)
    ensures Job(DrivenBy(j.m, x), depth, j.maxDepth, j.m, t).Valid()
    ensures DrivenBy(j.m, x) in j.b.children
  {
    GaterChild(j, x);
    LevelsFit(j, x);
    GatedFrame(DrivenBy(j.m, x), j.m, j.s, t);
  }

  /** Every finished sink comes from a finished net. */
  ghost predicate FromFinished(j: Job, done: nat, finished: set<ClockInst>) {
    forall x :: x in finished ==> exists k: nat :: k < done && SinkOn(j.Start().nets, k, x)
  }

  /** All real sinks of the finished nets are finished. */
  ghost predicate Covers(j: Job, done: nat, finished: set<ClockInst>) {
    forall k :: 0 <= k < done && k < |j.Start().nets| && j.Start().nets[k] != [] ==>
                  RealSet(j.Start().nets[k][1..]) <= finished
  }

  lemma {:induction false} OnePlace(j: Job, k: nat, l: nat, x: ClockInst)
    requires j.Valid() && SinkOn(j.Start().nets, k, x) && SinkOn(j.Start().nets, l, x) && IsGater(j.m, x)
    ensures k == l
  {
    var p :| 0 <= p < |j.Start().nets[k][1..]| && j.Start().nets[k][1..][p] == x;
    var q :| 0 <= q < |j.Start().nets[l][1..]| && j.Start().nets[l][1..][q] == x;
    assert SinkPos(j.Start().nets, k, p + 1) && SinkPos(j.Start().nets, l, q + 1);
  }

  /** Putting a cluster of net k back behind a chain is such a step. */
  lemma {:induction false} ChainChange(j: Job, t: Shots, t': Shots, k: nat, cluster: seq<ClockInst>, bufs: seq<ClockInst>,
                                       pending: multiset<ClockInst>)
    requires OwnOnly(j, t, t') && j.b.clock in j.s
    requires ChainedTo(j.Start(), t[j.b.clock], t'[j.b.clock], k, cluster, bufs, pending)
    ensures OwnChange(j, t, t', k + 1, k + 1, pending)
  {
  }

  /** Taking the real sinks of net k off keeps the progress. */
  lemma {:induction false} StripStep(j: Job, t: Shots, t': Shots, k: nat, finished: set<ClockInst>)
    requires Progress(j, t, k, finished, multiset{}) && k < |j.Start().nets|
    requires t[j.b.clock].nets[k] != []
    requires OwnOnly(j, t, t') && t'[j.b.clock] == Stripped(t[j.b.clock], k, RealSet(j.Start().nets[k][1..]))
    ensures var sinks := j.Start().nets[k][1..];
            Progress(j, t', k + 1, finished,
                     multiset(Group(j.m, j.LevelAt(0), sinks, |sinks|, Levels(j.m, j.LevelAt(0), sinks))))
  {
    var z, sinks := t[j.b.clock], j.Start().nets[k][1..];
    StripAccounted(j.Start(), z, k, j.m, j.LevelAt(0));
    StripKeeps(z, k, |j.Start().nets|, RealSet(sinks));
    OwnStep(j, t, t', k, k + 1, finished, multiset{},
            multiset(Group(j.m, j.LevelAt(0), sinks, |sinks|, Levels(j.m, j.LevelAt(0), sinks))));
  }

  lemma {:induction false} AccountedOn(a: Shot, z: Shot, k: nat, pending: multiset<ClockInst>)
    requires Accounted(a, z, k, pending) && k < |a.nets|
    ensures Accounted(a, z, k + 1, pending) && Keeps(z.nets, z.nets, k, |a.nets|)
  {
  }

  /** A net without real sinks is finished as it is. */
  lemma {:induction false} SkipStep(j: Job, t: Shots, k: nat, finished: set<ClockInst>)
    requires Progress(j, t, k, finished, multiset{}) && k < |j.Start().nets|
    ensures Progress(j, t, k + 1, finished, multiset{})
  {
    AccountedOn(j.Start(), t[j.b.clock], k, multiset{});
    OwnStep(j, t, t, k, k + 1, finished, multiset{}, multiset{});
  }
}
