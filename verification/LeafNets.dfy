/** Attaching the sinks to the leaf nets of an H-tree, on values. */
module LeafNets {
  import opened Netlists
  import opened ClockNets
  import opened Branching
  import opened BranchNets
  import opened TreeGrowth

  // ----- every location once -----

  lemma {:induction false} OnceEach<T>(s: seq<T>, x: T)
    requires Distinct(s)
    ensures multiset(s)[x] <= 1
  {
    if s != [] {
      var n := |s| - 1;
      assert s == s[..n] + [s[n]];
      OnceEach(s[..n], x);
      assert x == s[n] ==> x !in s[..n];
    }
  }

  lemma {:induction false} SecondCopy<T>(s: seq<T>, i: nat, j: nat)
    requires i < j < |s| && s[i] == s[j]
    ensures multiset(s)[s[i]] >= 2
  {
    assert s == s[..j] + [s[j]] + s[j + 1..];
    assert s[..j][i] == s[i];
  }

  /** Reordering keeps the elements distinct. */
  lemma {:induction false} DistinctPerm<T>(a: seq<T>, b: seq<T>)
    requires Distinct(a) && multiset(a) == multiset(b)
    ensures Distinct(b)
  {
    forall i, j | 0 <= i < j < |b|
      ensures b[i] != b[j]
    {
      if b[i] == b[j] {
        SecondCopy(b, i, j);
        OnceEach(a, b[i]);
      }
    }
  }

  lemma {:induction false} FlatPart<T>(s: seq<seq<T>>, n: nat, b: nat) returns (from: nat)
    requires b < n <= |s|
    ensures from + |s[b]| <= |Flat(s, n)| && Flat(s, n)[from..from + |s[b]|] == s[b]
  {
    if b == n - 1 {
      from := |Flat(s, b)|;
    } else {
      from := FlatPart(s, n - 1, b);
      assert Flat(s, n)[..|Flat(s, n - 1)|] == Flat(s, n - 1);
      assert Flat(s, n)[from..from + |s[b]|] == Flat(s, n - 1)[from..from + |s[b]|];
    }
  }

  lemma {:induction false} PartDistinct<T>(s: seq<seq<T>>, b: nat)
    requires b < |s| && Distinct(Flat(s, |s|))
    ensures Distinct(s[b])
  {
    var from := FlatPart(s, |s|, b);
    forall i, j | 0 <= i < j < |s[b]|
      ensures s[b][i] != s[b][j]
    {
      assert s[b][i] == Flat(s, |s|)[from + i] && s[b][j] == Flat(s, |s|)[from + j];
    }
  }

  // ----- leaf by leaf -----

  /** What stays the same while the sinks are attached: the nets before the tree, its buffers, the
      depth of the leaf nets, the leaf branches and their nets, and where the sinks are. */
  datatype Leaves<T> = Leaves(n0: Netlist<T>, bufs: seq<T>, depth: nat, sinks: seq<seq<Point>>, at: seq<Option<nat>>,
                              m: map<Point, T>)

  predicate Known<T>(m: map<Point, T>, locs: seq<Point>) {
    forall p :: p in locs ==> p in m
  }

  predicate Injective<T(==)>(m: map<Point, T>) {
    forall p, q :: p in m && q in m && p != q ==> m[p] != m[q]
  }

  /** The net of leaf b: only its driver at first, and then, once the first n leaves are done, its
      driver and its sinks. */
  ghost predicate LeafAt<T>(l: Leaves<T>, nets: Netlist<T>, b: nat, n: nat)
    requires b < |l.sinks| == |l.at| && (b < n ==> Known(l.m, l.sinks[b]))
  {
    && (l.at[b].Some? <==> l.sinks[b] != [])
    && (l.at[b].Some? ==>
          && |l.n0| <= l.at[b].value < |nets| && HangsAt(nets, |l.n0|, l.at[b].value, l.depth)
          && if b < n then |nets[l.at[b].value]| > 0 && nets[l.at[b].value][1..] == Insts(l.m, l.sinks[b])
             else |nets[l.at[b].value]| == 1)
  }

  /** The sinks of the first n leaves have been attached. */
  ghost predicate Attached<T>(l: Leaves<T>, nets: Netlist<T>, n: nat) {
    && n <= |l.sinks| == |l.at| && (forall b :: 0 <= b < n ==> Known(l.m, l.sinks[b]))
    && Known(l.m, Flat(l.sinks, n))
    && Tree(l.n0, nets, l.bufs, multiset(Insts(l.m, Flat(l.sinks, n))))
    && (forall b {:trigger l.at[b]} :: 0 <= b < |l.at| ==> LeafAt(l, nets, b, n))
    && (forall b, c {:trigger l.at[b], l.at[c]} :: 0 <= b < c < |l.at| && l.at[b].Some? ==> l.at[b] != l.at[c])
  }

  ghost predicate SealedAttached<T>(seal: nat, l: Leaves<T>, nets: Netlist<T>, n: nat) {
    if seal > 0 then SealedAttached(seal - 1, l, nets, n) else Attached(l, nets, n)
  }

  ghost predicate Hanging<T>(l: Leaves<T>, nets: Netlist<T>, n: nat) {
    SealedAttached(3, l, nets, n)
  }

  lemma {:induction false} OpenedHanging<T>(l: Leaves<T>, nets: Netlist<T>, n: nat)
    ensures Hanging(l, nets, n) <==> Attached(l, nets, n)
  {
    assert SealedAttached(3, l, nets, n) == SealedAttached(2, l, nets, n);
    assert SealedAttached(2, l, nets, n) == SealedAttached(1, l, nets, n);
    assert SealedAttached(1, l, nets, n) == SealedAttached(0, l, nets, n);
  }

  /** When the last level is built, the leaf nets are bare. */
  lemma {:induction false} BareLeaves<T>(p: Plan<T>, nets: Netlist<T>, bufs: seq<T>, at: seq<Option<nat>>, m: map<Point, T>)
    requires Stage(p, nets, bufs, at, |p.sinks|) && p.last
    ensures Hanging(Leaves(p.n0, bufs, p.depth + p.levels, p.sinks, at, m), nets, 0)
  {
    var l := Leaves(p.n0, bufs, p.depth + p.levels, p.sinks, at, m);
    OpenedStage(p, nets, bufs, at, |p.sinks|);
    assert Insts(m, Flat(l.sinks, 0)) == [];
    forall b | 0 <= b < |l.at|
      ensures LeafAt(l, nets, b, 0)
    {
      assert BranchAt(nets, p.Root(), p.sinks[b], at[b], true, p.depth + p.levels);
      assert OwnNet(nets, at[b], p.start);
    }
    OpenedHanging(l, nets, 0);
  }

  /** What is known of the net of a leaf before its sinks are attached. */
  lemma {:induction false} BareLeaf<T>(l: Leaves<T>, nets: Netlist<T>, n: nat)
    requires Hanging(l, nets, n) && n < |l.at|
    ensures |l.at| == |l.sinks| && (l.at[n].Some? <==> l.sinks[n] != [])
    ensures l.at[n].Some? ==> l.at[n].value < |nets| && |nets[l.at[n].value]| == 1 && nets[l.at[n].value][0] in l.bufs
  {
    OpenedHanging(l, nets, n);
    assert LeafAt(l, nets, n, n);
    if l.at[n].Some? {
      var k := l.at[n].value;
      assert Drivers(nets)[k] == l.bufs[k - |l.n0|];
    }
  }

  lemma {:induction false} EmptyLeaf<T>(l: Leaves<T>, nets: Netlist<T>, n: nat)
    requires Hanging(l, nets, n) && n < |l.at| && l.at[n] == None
    ensures Hanging(l, nets, n + 1)
  {
    OpenedHanging(l, nets, n);
    assert LeafAt(l, nets, n, n);
    assert Flat(l.sinks, n + 1) == Flat(l.sinks, n);
    var n' := n + 1;
    assert forall b :: 0 <= b < n' ==> Known(l.m, l.sinks[b]);
    forall b {:trigger LeafAt(l, nets, b, n')} | 0 <= b < |l.at|
      ensures LeafAt(l, nets, b, n')
    {
      assert LeafAt(l, nets, b, n);
    }
    OpenedHanging(l, nets, n');
  }

  lemma {:induction false} FullLeaf<T>(l: Leaves<T>, nets: Netlist<T>, n: nat, k: nat)
    requires Hanging(l, nets, n) && n < |l.at| && l.at[n] == Some(k) && k < |nets|
    requires n < |l.sinks| && Known(l.m, l.sinks[n])
    ensures Hanging(l, Attach(nets, k, Insts(l.m, l.sinks[n])), n + 1)
  {
    OpenedHanging(l, nets, n);
    assert LeafAt(l, nets, n, n);
    var nets' := Attach(nets, k, Insts(l.m, l.sinks[n]));
    AttachGrows(nets, |l.n0|, k, Insts(l.m, l.sinks[n]));
    FullTree(l, nets, n, k);
    var n' := n + 1;
    assert forall b :: 0 <= b < n' ==> Known(l.m, l.sinks[b]);
    forall b {:trigger LeafAt(l, nets', b, n')} | 0 <= b < |l.at|
      ensures LeafAt(l, nets', b, n')
    {
      LeafKept(l, nets, nets', n, k, b);
    }
    OpenedHanging(l, nets', n');
  }

  lemma {:induction false} LeafKept<T>(l: Leaves<T>, nets: Netlist<T>, nets': Netlist<T>, n: nat, k: nat, b: nat)
    requires Attached(l, nets, n) && n < |l.at| && l.at[n] == Some(k) && k < |nets| && b < |l.at|
    requires Known(l.m, l.sinks[n]) && nets' == Attach(nets, k, Insts(l.m, l.sinks[n])) && Grown(nets, nets')
    ensures (b < n + 1 ==> Known(l.m, l.sinks[b])) && LeafAt(l, nets', b, n + 1)
  {
    assert LeafAt(l, nets, b, n);
    if l.at[b].Some? {
      HangsKept(nets, nets', |l.n0|, l.at[b].value, l.depth);
    }
  }

  lemma {:induction false} FullTree<T>(l: Leaves<T>, nets: Netlist<T>, n: nat, k: nat)
    requires Attached(l, nets, n) && n < |l.at| && l.at[n] == Some(k) && |l.n0| <= k < |nets| && Known(l.m, l.sinks[n])
    ensures Known(l.m, Flat(l.sinks, n + 1))
    ensures Tree(l.n0, Attach(nets, k, Insts(l.m, l.sinks[n])), l.bufs, multiset(Insts(l.m, Flat(l.sinks, n + 1))))
  {
    TreeAttach(l.n0, nets, l.bufs, multiset(Insts(l.m, Flat(l.sinks, n))), k, Insts(l.m, l.sinks[n]));
    assert Insts(l.m, Flat(l.sinks, n + 1)) == Insts(l.m, Flat(l.sinks, n)) + Insts(l.m, l.sinks[n]);
  }

  lemma {:induction false} KnownFlat<T>(m: map<Point, T>, s: seq<seq<Point>>, n: nat)
    requires n <= |s|
    ensures Known(m, Flat(s, n)) <==> forall b :: 0 <= b < n ==> Known(m, s[b])
  {
    if n > 0 {
      KnownFlat(m, s, n - 1);
      assert forall p :: p in Flat(s, n) <==> p in Flat(s, n - 1) || p in s[n - 1];
    }
  }

  lemma {:induction false} KnownPerm<T>(m: map<Point, T>, a: seq<Point>, b: seq<Point>)
    requires multiset(a) == multiset(b)
    ensures Known(m, a) <==> Known(m, b)
  {
    assert forall p :: p in a <==> p in multiset(a);
    assert forall p :: p in b <==> p in multiset(b);
  }

  /** The finished tree: it holds exactly the sinks there were to begin with, and each leaf with
      sinks has a net of its own, at the given depth, with its driver and its sinks. */
  ghost predicate Complete<T>(l: Leaves<T>, nets: Netlist<T>, top: seq<Point>) {
    && Known(l.m, top) && Tree(l.n0, nets, l.bufs, multiset(Insts(l.m, top)))
    && |l.at| == |l.sinks| && multiset(Flat(l.sinks, |l.sinks|)) == multiset(top)
    && forall b {:trigger l.at[b]} :: 0 <= b < |l.at| ==> Known(l.m, l.sinks[b]) && LeafAt(l, nets, b, |l.sinks|)
  }

  /** When all leaves are done, exactly the sinks there were to begin with have been attached, each
      as often as it was there. */
  lemma {:induction false} AllLeaves<T>(l: Leaves<T>, nets: Netlist<T>, top: seq<Point>)
    requires Hanging(l, nets, |l.sinks|) && multiset(Flat(l.sinks, |l.sinks|)) == multiset(top)
    ensures Complete(l, nets, top)
  {
    OpenedHanging(l, nets, |l.sinks|);
    KnownPerm(l.m, Flat(l.sinks, |l.sinks|), top);
    SameInsts(l.m, Flat(l.sinks, |l.sinks|), top);
    var n := |l.sinks|;
    forall b {:trigger LeafAt(l, nets, b, n)} | 0 <= b < |l.at|
      ensures LeafAt(l, nets, b, n)
    {
      assert l.at[b] == l.at[b];
    }
  }

  /** Distinct locations of distinct instances stand for distinct instances. */
  lemma {:induction false} InstsDiffer<T>(m: map<Point, T>, locs: seq<Point>)
    requires Known(m, locs) && Distinct(locs) && Injective(m)
    ensures Distinct(Insts(m, locs))
  {
    forall i, k | 0 <= i < k < |locs|
      ensures Insts(m, locs)[i] != Insts(m, locs)[k]
    {
      assert locs[i] in locs && locs[k] in locs;
    }
  }

  /** No instance at one of the locations is a sink yet. */
  ghost predicate NoSinksYet<T>(m: map<Point, T>, locs: seq<Point>, nets: Netlist<T>) {
    forall p :: p in locs && p in m ==> m[p] !in AllSinks(nets)
  }

  /** The buffers of the tree are all different, and new to the nets and to the sinks. */
  ghost predicate OwnBuffers<T>(l: Leaves<T>) {
    Distinct(l.bufs) && forall x :: x in l.bufs ==> x !in l.m.Values && Absent(l.n0, x)
  }

  /** A complete tree of new buffers is one tree, in which each sink is attached exactly once. */
  lemma {:induction false} CompleteIsOne<T>(l: Leaves<T>, nets: Netlist<T>, top: seq<Point>)
    requires Complete(l, nets, top) && Distinct(top) && Injective(l.m) && NoSinksYet(l.m, top, l.n0)
    requires OwnBuffers(l)
    ensures OneTree(l.n0, nets, l.bufs, Insts(l.m, top))
  {
    InstsDiffer(l.m, top);
    forall x | x in Insts(l.m, top)
      ensures x in l.m.Values && x !in AllSinks(l.n0)
    {
      var i :| 0 <= i < |top| && Insts(l.m, top)[i] == x;
      assert top[i] in top && l.m[top[i]] == x;
    }
    TreeIsOne(l.n0, nets, l.bufs, Insts(l.m, top));
  }
}
