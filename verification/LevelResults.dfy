/** What a finished run of the level balancer means for the sinks of the tree. */
module LevelResults {
  import opened Netlists
  import opened ClockNets
  import opened BuilderTrees
  import opened GatedTrees
  import opened LevelAccounting
  import LevelProgress

  /** After a run every sink of the whole tree that is no gater can be reached, and the levels on
      the way add up to what the longest way down the builders takes. */
  lemma {:induction false} AllOnOneLevel(root: Builder, s: Shots, t: Shots, c: Builder, x: ClockInst) returns (way: Way)
    requires LevelProgress.Fixed(root, 0, Depth(root), Record(map[], root, |root.children|), s, t)
    requires DriversDiffer(root) && Hangs(root, s)
    requires c == root || c in Below(root, |root.children|)
    requires c.clock in s && x in AllSinks(s[c.clock].nets) && x.gate.Some?
    requires !IsGater(Record(map[], root, |root.children|), x)
    ensures Leads(root, Record(map[], root, |root.children|), s, t, way, c, x)
    ensures LevelsAlong(root, Record(map[], root, |root.children|), way) == Depth(root)
    ensures LongestLine(root, LevelsAlong(root, Record(map[], root, |root.children|), way))
  {
    var m := Record(map[], root, |root.children|);
    forall e | e in Below(root, |root.children|) && e.driver.Some?
      ensures Entry(m, e)
    {
      RecordExact(root, e);
    }
    way := EverySinkLevel(root, 0, Depth(root), m, s, t, c, x);
    DepthIsLongest(root);
  }

  lemma {:induction false} CountKept(a: Shot, z: Shot, x: ClockInst)
    requires Conserved(a, z) && Simple(a.nets)
    ensures AllSinks(z.nets)[x] == AllSinks(a.nets)[x] + multiset(Added(a, z))[x] <= 1
  {
    var bufs := Added(a, z);
    assert (AllSinks(z.nets) + multiset{})[x] == (AllSinks(a.nets) + multiset(bufs))[x];
    OnceInNames(bufs, x);
    if x in bufs { NoSink(a.nets, x); }
  }

  /** Balancing makes no instance a sink twice, and each sink there was is a sink exactly once. */
  lemma {:induction false} SimpleKept(a: Shot, z: Shot)
    requires Conserved(a, z) && Simple(a.nets)
    ensures Simple(z.nets)
    ensures forall x :: x in AllSinks(a.nets) ==> AllSinks(z.nets)[x] == 1
  {
    forall x | x in AllSinks(z.nets)
      ensures AllSinks(z.nets)[x] == 1
    {
      CountKept(a, z, x);
    }
    forall x | x in AllSinks(a.nets)
      ensures AllSinks(z.nets)[x] == 1
    {
      CountKept(a, z, x);
    }
  }

  lemma {:induction false} OnceInNames(bufs: seq<ClockInst>, x: ClockInst)
    requires NamesDiffer(bufs)
    ensures multiset(bufs)[x] <= 1
  {
    var n := |bufs| - 1;
    if n >= 0 {
      assert bufs == bufs[..n] + [bufs[n]];
      OnceInNames(bufs[..n], x);
      assert x == bufs[n] ==> x !in bufs[..n];
    }
  }

  /** Two ways to the same sink are the same way. */
  lemma {:induction false} LevelIsUnique(root: Builder, s: Shots, t: Shots, way: Way, way': Way, c: Builder, x: ClockInst)
    requires LevelProgress.Fixed(root, 0, Depth(root), Record(map[], root, |root.children|), s, t)
    requires DriversDiffer(root) && ClocksDiffer(root) && InPlace(root, root, s)
    requires forall e :: e in TreeClocks(root) ==> e in s && Simple(s[e].nets)
    requires Leads(root, Record(map[], root, |root.children|), s, t, way, c, x)
    requires Leads(root, Record(map[], root, |root.children|), s, t, way', c, x)
    ensures way == way'
  {
    RecordedGated(root, root, s);
    forall e | e in TreeClocks(root)
      ensures e in t && Simple(t[e].nets)
    {
      SimpleKept(s[e], t[e]);
    }
    OneWay(root, Record(map[], root, |root.children|), s, t, way, way', c, x);
  }
}
