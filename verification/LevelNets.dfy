/** One net of a builder while its real sinks are taken off and put back, level by level. */
module LevelNets {
  import opened Netlists
  import opened ClockNets
  import opened BuilderTrees
  import opened LevelAccounting
  import opened LevelProgress
  import opened LevelStates

  ghost function SinksAt(j: Job, idx: nat): seq<ClockInst> {
    if idx < |j.Start().nets| && j.Start().nets[idx] != [] then j.Start().nets[idx][1..] else []
  }

  /** The levels of the real sinks of net idx. */
  ghost function AllLevels(j: Job, idx: nat): set<nat> {
    Levels(j.m, j.LevelAt(0), SinksAt(j, idx))
  }

  /** The real sinks of net idx on the given levels. */
  ghost function Part(j: Job, idx: nat, keys: set<nat>): seq<ClockInst> {
    Group(j.m, j.LevelAt(0), SinksAt(j, idx), |SinksAt(j, idx)|, keys)
  }

  /** The sinks finished so far, while those of net idx on the levels `keys` are not. */
  ghost function ButFor(j: Job, idx: nat, finished: set<ClockInst>, keys: set<nat>): set<ClockInst> {
    finished + Elements(Part(j, idx, AllLevels(j, idx) - keys))
  }

  /** The sinks of net idx on the levels `keys` are off the net. */
  ghost predicate Off(j: Job, t: Shots, idx: nat, keys: set<nat>) {
    && j.b.clock in t && idx < |t[j.b.clock].nets|
    && forall x :: x in Part(j, idx, keys) ==> x !in t[j.b.clock].nets[idx]
  }

  /** All real sinks of the first `done` nets are finished, and no others. */
  ghost predicate Through(j: Job, done: nat, finished: set<ClockInst>) {
    FromFinished(j, done, finished) && Covers(j, done, finished)
  }

  /** The first idx nets are through, and of net idx all but the sinks on the levels `keys`. */
  ghost predicate NetState(j: Job, t: Shots, idx: nat, finished: set<ClockInst>, keys: set<nat>,
                           clusterCnt: nat, count: nat) {
    && j.Valid() && idx < |j.Start().nets| && Through(j, idx, finished)
    && Distinct(SinksAt(j, idx)) && keys <= AllLevels(j, idx)
    && State(j, t, idx + 1, ButFor(j, idx, finished, keys), multiset(Part(j, idx, keys)), clusterCnt, count)
    && Off(j, t, idx, keys)
  }

  /** How far a builder has got: before net idx, or within it with the levels `keys` to do. */
  datatype Place = Before(idx: nat) | Within(idx: nat, keys: set<nat>)

  ghost predicate At(j: Job, t: Shots, place: Place, finished: set<ClockInst>, clusterCnt: nat, count: nat) {
    match place
    case Before(idx) => State(j, t, idx, finished, multiset{}, clusterCnt, count) && Through(j, idx, finished)
    case Within(idx, keys) => NetState(j, t, idx, finished, keys, clusterCnt, count)
  }

  /** Under a seal like the state itself. */
  ghost predicate SealedAt(seal: nat, j: Job, t: Shots, place: Place, finished: set<ClockInst>,
                           clusterCnt: nat, count: nat) {
    if seal > 0 then SealedAt(seal - 1, j, t, place, finished, clusterCnt, count)
    else At(j, t, place, finished, clusterCnt, count)
  }

  ghost predicate Reached(j: Job, t: Shots, place: Place, finished: set<ClockInst>, clusterCnt: nat, count: nat) {
    SealedAt(3, j, t, place, finished, clusterCnt, count)
  }

  lemma {:induction false} OpenedAt(j: Job, t: Shots, place: Place, finished: set<ClockInst>, clusterCnt: nat, count: nat)
    ensures Reached(j, t, place, finished, clusterCnt, count) <==> At(j, t, place, finished, clusterCnt, count)
  {
    assert SealedAt(3, j, t, place, finished, clusterCnt, count)
           == SealedAt(2, j, t, place, finished, clusterCnt, count);
    assert SealedAt(2, j, t, place, finished, clusterCnt, count)
           == SealedAt(1, j, t, place, finished, clusterCnt, count);
    assert SealedAt(1, j, t, place, finished, clusterCnt, count)
           == SealedAt(0, j, t, place, finished, clusterCnt, count);
  }

  /** The real sinks of net idx have been sorted by level. */
  ghost predicate NetSorted(j: Job, t: Shots, idx: nat, subClusters: map<nat, seq<ClockInst>>, gone: set<ClockInst>) {
    && j.b.clock in t && idx < |t[j.b.clock].nets| && t[j.b.clock].nets[idx] != []
    && Distinct(t[j.b.clock].nets[idx]) && gone == RealSet(SinksAt(j, idx))
    && subClusters.Keys == AllLevels(j, idx) && Parts(j, idx, subClusters)
  }

  /** Each cluster holds the real sinks of its level. */
  ghost predicate Parts(j: Job, idx: nat, subClusters: map<nat, seq<ClockInst>>) {
    forall l :: l in subClusters ==> subClusters[l] == Part(j, idx, {l})
  }

  lemma {:induction false} NetAsAtStart(j: Job, t: Shots, idx: nat, finished: set<ClockInst>, clusterCnt: nat, count: nat)
    requires Reached(j, t, Before(idx), finished, clusterCnt, count) && idx < |j.Start().nets|
    ensures j.Valid() && j.b.clock in t && idx < |t[j.b.clock].nets|
    ensures t[j.b.clock].nets[idx] == j.Start().nets[idx] != []
    ensures t[j.b.clock].nets[idx][1..] == SinksAt(j, idx)
  {
    OpenedAt(j, t, Before(idx), finished, clusterCnt, count);
    Opened(j, t, idx, finished, multiset{}, clusterCnt, count);
  }

  /** What has been sorted are the real sinks of the net, by level. */
  lemma {:induction false} SortedNet(j: Job, idx: nat, clusters: map<nat, seq<ClockInst>>, gated: set<ClockInst>)
    requires Sorted(j.m, j.LevelAt(0), SinksAt(j, idx), |SinksAt(j, idx)|, clusters, gated)
    ensures clusters.Keys == AllLevels(j, idx) && gated == RealSet(SinksAt(j, idx))
    ensures forall l :: l in clusters ==> clusters[l] == Part(j, idx, {l})
  {
    var sinks := SinksAt(j, idx);
    assert sinks[..|sinks|] == sinks;
    forall l | l in clusters
      ensures clusters[l] == Part(j, idx, {l})
    {
      assert Filed(clusters, l) == clusters[l];
    }
  }

  lemma {:induction false} PartIs(j: Job, idx: nat, keys: set<nat>, x: ClockInst)
    ensures x in Part(j, idx, keys)
            <==> x in SinksAt(j, idx) && x.gate.Some? && LevelOf(j.m, j.LevelAt(0), x) in keys
  {
    assert SinksAt(j, idx)[..|SinksAt(j, idx)|] == SinksAt(j, idx);
  }

  /** A net without real sinks is skipped. */
  lemma {:induction false} SkipNet(j: Job, t: Shots, idx: nat, finished: set<ClockInst>, clusterCnt: nat, count: nat)
    requires Reached(j, t, Before(idx), finished, clusterCnt, count) && idx < |j.Start().nets|
    requires AllLevels(j, idx) == {}
    ensures Reached(j, t, Before(idx + 1), finished, clusterCnt, count)
  {
    OpenedAt(j, t, Before(idx), finished, clusterCnt, count);
    Opened(j, t, idx, finished, multiset{}, clusterCnt, count);
    SkipStep(j, t, idx, finished);
    Opened(j, t, idx + 1, finished, multiset{}, clusterCnt, count);
    assert forall x :: x in RealSet(SinksAt(j, idx)) ==> LevelOf(j.m, j.LevelAt(0), x) in AllLevels(j, idx);
    OpenedAt(j, t, Before(idx + 1), finished, clusterCnt, count);
  }

  /** Once its real sinks are off, all levels of the net are still to do. */
  lemma {:induction false} StripNetState(j: Job, t: Shots, t': Shots, idx: nat, finished: set<ClockInst>,
                      clusterCnt: nat, clusterCnt': nat, count: nat)
    requires Reached(j, t, Before(idx), finished, clusterCnt, count) && idx < |j.Start().nets|
    requires clusterCnt <= clusterCnt'
    requires j.b.clock in t && idx < |t[j.b.clock].nets| && t[j.b.clock].nets[idx] != []
    requires Distinct(t[j.b.clock].nets[idx])
    requires t' == t[j.b.clock := Stripped(t[j.b.clock], idx, RealSet(SinksAt(j, idx)))]
    ensures Reached(j, t', Within(idx, AllLevels(j, idx)), finished, clusterCnt', count)
  {
    OpenedAt(j, t, Before(idx), finished, clusterCnt, count);
    var keys := AllLevels(j, idx);
    NetAsAtStart(j, t, idx, finished, clusterCnt, count);
    StripHolds(j, t, t', idx, finished, clusterCnt, clusterCnt', count);
    assert keys - keys == {};
    NoneOfNone(j, idx);
    assert ButFor(j, idx, finished, keys) == finished;
    StripOff(j, t, t', idx);
    OpenedAt(j, t', Within(idx, keys), finished, clusterCnt', count);
  }

  lemma {:induction false} NoneOfNone(j: Job, idx: nat)
    ensures Part(j, idx, {}) == []
  {
    if Part(j, idx, {}) != [] {
      PartIs(j, idx, {}, Part(j, idx, {})[0]);
      assert false;
    }
  }

  lemma {:induction false} StripOff(j: Job, t: Shots, t': Shots, idx: nat)
    requires j.b.clock in t && idx < |t[j.b.clock].nets| && t[j.b.clock].nets[idx] != []
    requires Distinct(t[j.b.clock].nets[idx]) && t[j.b.clock].nets[idx][1..] == SinksAt(j, idx)
    requires t' == t[j.b.clock := Stripped(t[j.b.clock], idx, RealSet(SinksAt(j, idx)))]
    ensures Off(j, t', idx, AllLevels(j, idx)) && Distinct(SinksAt(j, idx))
  {
    var net := t[j.b.clock].nets[idx];
    forall x | x in Part(j, idx, AllLevels(j, idx))
      ensures x !in t'[j.b.clock].nets[idx]
    {
      PartIs(j, idx, AllLevels(j, idx), x);
      assert x in net[1..] && x != net[0];
      assert x in RealSet(SinksAt(j, idx));
    }
  }

  lemma {:induction false} StripHolds(j: Job, t: Shots, t': Shots, idx: nat, finished: set<ClockInst>,
                   clusterCnt: nat, clusterCnt': nat, count: nat)
    requires State(j, t, idx, finished, multiset{}, clusterCnt, count) && idx < |j.Start().nets|
    requires clusterCnt <= clusterCnt'
    requires j.b.clock in t && idx < |t[j.b.clock].nets| && t[j.b.clock].nets[idx] != []
    requires t' == t[j.b.clock := Stripped(t[j.b.clock], idx, RealSet(SinksAt(j, idx)))]
    ensures State(j, t', idx + 1, finished, multiset(Part(j, idx, AllLevels(j, idx))), clusterCnt', count)
  {
    Opened(j, t, idx, finished, multiset{}, clusterCnt, count);
    StampsLater(Added(j.Start(), t[j.b.clock]), j.b.clock.netName, clusterCnt, clusterCnt', count, count);
    StripStep(j, t, t', idx, finished);
    assert Added(j.Start(), t'[j.b.clock]) == Added(j.Start(), t[j.b.clock]);
    Opened(j, t', idx + 1, finished, multiset(Part(j, idx, AllLevels(j, idx))), clusterCnt', count);
  }

  /** The sinks on one of the levels still to do can be put back next. */
  lemma {:induction false} LevelWaits(j: Job, t: Shots, idx: nat, finished: set<ClockInst>, keys: set<nat>,
                   clusterCnt: nat, count: nat, l: nat)
    requires Reached(j, t, Within(idx, keys), finished, clusterCnt, count) && l in keys
    ensures l <= j.maxDepth
    ensures State(j, t, idx + 1, ButFor(j, idx, finished, keys), multiset(Part(j, idx, keys)), clusterCnt, count)
    ensures AllWaiting(j, t, idx, ButFor(j, idx, finished, keys), Part(j, idx, {l}), j.maxDepth - l)
  {
    OpenedAt(j, t, Within(idx, keys), finished, clusterCnt, count);
    var sinks := SinksAt(j, idx);
    var y :| y in sinks && y.gate.Some? && LevelOf(j.m, j.LevelAt(0), y) == l;
    SinkKnown(j, idx, y);
    LevelsFit(j, y);
    GroupDistinct(j.m, j.LevelAt(0), sinks, |sinks|, {l});
    forall x | x in Part(j, idx, {l})
      ensures Waiting(j, t, idx, ButFor(j, idx, finished, keys), x, j.maxDepth - l)
    {
      PartIs(j, idx, {l}, x);
      PartIs(j, idx, keys, x);
      SinkKnown(j, idx, x);
      if IsGater(j.m, x) {
        NotYet(j, idx, finished, keys, x);
      }
    }
  }

  lemma {:induction false} SinkKnown(j: Job, idx: nat, x: ClockInst)
    requires x in SinksAt(j, idx)
    ensures x in AllSinks(j.Start().nets) && SinkOn(j.Start().nets, idx, x)
  {
    var sinks := SinksAt(j, idx);
    var p :| 0 <= p < |sinks| && sinks[p] == x;
    SinkInAll(j.Start().nets, idx, p + 1);
  }

  lemma {:induction false} NotYet(j: Job, idx: nat, finished: set<ClockInst>, keys: set<nat>, x: ClockInst)
    requires j.Valid() && FromFinished(j, idx, finished)
    requires x in SinksAt(j, idx) && IsGater(j.m, x) && LevelOf(j.m, j.LevelAt(0), x) in keys
    ensures x !in ButFor(j, idx, finished, keys)
  {
    PartIs(j, idx, AllLevels(j, idx) - keys, x);
    if x in finished {
      var k: nat :| k < idx && SinkOn(j.Start().nets, k, x);
      SinkKnown(j, idx, x);
      OnePlace(j, k, idx, x);
    }
  }

  /** What is pending splits into the next level and the rest. */
  lemma {:induction false} LevelSplit(j: Job, idx: nat, keys: set<nat>, l: nat)
    requires l in keys
    ensures multiset(Part(j, idx, keys)) == multiset(Part(j, idx, {l})) + multiset(Part(j, idx, keys - {l}))
  {
    GroupSplit(j.m, j.LevelAt(0), SinksAt(j, idx), |SinksAt(j, idx)|, keys, l);
  }

  /** After its sinks are put back and finished, the level is no longer to do. */
  lemma {:induction false} LevelDone(j: Job, t: Shots, t': Shots, idx: nat, finished: set<ClockInst>, keys: set<nat>,
                  clusterCnt: nat, count: nat, count': nat, l: nat)
    requires Reached(j, t, Within(idx, keys), finished, clusterCnt, count) && l in keys
    requires State(j, t', idx + 1, ButFor(j, idx, finished, keys) + Elements(Part(j, idx, {l})),
                   multiset(Part(j, idx, keys - {l})), clusterCnt, count')
    requires OnlyJoined(j, t, t', idx, Part(j, idx, {l}))
    ensures Reached(j, t', Within(idx, keys - {l}), finished, clusterCnt, count')
  {
    OpenedAt(j, t, Within(idx, keys), finished, clusterCnt, count);
    ButForLess(j, idx, finished, keys, l);
    forall x | x in Part(j, idx, keys - {l})
      ensures x !in t'[j.b.clock].nets[idx]
    {
      PartIs(j, idx, keys - {l}, x);
      PartIs(j, idx, {l}, x);
      PartIs(j, idx, keys, x);
    }
    OpenedAt(j, t', Within(idx, keys - {l}), finished, clusterCnt, count');
  }

  lemma {:induction false} ButForLess(j: Job, idx: nat, finished: set<ClockInst>, keys: set<nat>, l: nat)
    requires l in keys && keys <= AllLevels(j, idx)
    ensures ButFor(j, idx, finished, keys) + Elements(Part(j, idx, {l})) == ButFor(j, idx, finished, keys - {l})
  {
    forall x
      ensures x in Elements(Part(j, idx, AllLevels(j, idx) - keys)) + Elements(Part(j, idx, {l}))
              <==> x in Elements(Part(j, idx, AllLevels(j, idx) - (keys - {l})))
    {
      PartIs(j, idx, AllLevels(j, idx) - keys, x);
      PartIs(j, idx, {l}, x);
      PartIs(j, idx, AllLevels(j, idx) - (keys - {l}), x);
    }
  }

  /** When no level is left, the net is through. */
  lemma {:induction false} NetDone(j: Job, t: Shots, idx: nat, finished: set<ClockInst>, clusterCnt: nat, count: nat)
    requires Reached(j, t, Within(idx, {}), finished, clusterCnt, count)
    ensures Reached(j, t, Before(idx + 1), ButFor(j, idx, finished, {}), clusterCnt, count)
  {
    OpenedAt(j, t, Within(idx, {}), finished, clusterCnt, count);
    NoneOfNone(j, idx);
    var all := AllLevels(j, idx);
    assert all - {} == all;
    forall x | x in RealSet(SinksAt(j, idx))
      ensures x in ButFor(j, idx, finished, {})
    {
      PartIs(j, idx, all, x);
    }
    forall x | x in ButFor(j, idx, finished, {})
      ensures exists k: nat :: k < idx + 1 && SinkOn(j.Start().nets, k, x)
    {
      if x in finished {
        var k: nat :| k < idx && SinkOn(j.Start().nets, k, x);
        assert k < idx + 1;
      } else {
        PartIs(j, idx, all, x);
        SinkKnown(j, idx, x);
      }
    }
    OpenedAt(j, t, Before(idx + 1), ButFor(j, idx, finished, {}), clusterCnt, count);
  }

  lemma {:induction false} FirstState(j: Job, count: nat)
    requires j.Valid()
    ensures Reached(j, j.s, Before(0), {}, 0, count)
    ensures j.b.clock in j.s
  {
    Begin(j);
    assert Stamped(Added(j.Start(), j.s[j.b.clock]), j.b.clock.netName, [], 0, count);
    Opened(j, j.s, 0, {}, multiset{}, 0, count);
    OpenedAt(j, j.s, Before(0), {}, 0, count);
  }

  /** When all nets are through, the builder and everything below it is balanced. */
  lemma {:induction false} AllNetsDone(j: Job, t: Shots, finished: set<ClockInst>, clusterCnt: nat, count: nat)
    requires Reached(j, t, Before(|j.Start().nets|), finished, clusterCnt, count)
    ensures Fixed(j.b, j.parentDepth, j.maxDepth, j.m, j.s, t)
  {
    var n := |j.Start().nets|;
    OpenedAt(j, t, Before(n), finished, clusterCnt, count);
    Opened(j, t, n, finished, multiset{}, clusterCnt, count);
    StampedDiffer(Added(j.Start(), t[j.b.clock]), j.b.clock.netName, clusterCnt, count);
    RealSinksFinished(j, finished);
    End(j, t, finished);
    assert Conserved(j.s[j.b.clock], t[j.b.clock]);
  }

  lemma {:induction false} RealSinksFinished(j: Job, finished: set<ClockInst>)
    requires Covers(j, |j.Start().nets|, finished)
    ensures forall x :: x in AllSinks(j.Start().nets) && x.gate.Some? ==> x in finished
  {
    forall x | x in AllSinks(j.Start().nets) && x.gate.Some?
      ensures x in finished
    {
      var k, p := FindSink(j.Start().nets, x);
      assert j.Start().nets[k][1..][p - 1] == x;
      assert x in RealSet(j.Start().nets[k][1..]);
    }
  }
}
