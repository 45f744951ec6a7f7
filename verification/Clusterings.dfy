/** Capacitated k-means: how each sink ends up in exactly one cluster, whatever the flow says. */
module Clusterings {

  /** The distance of a sink to the mean of a cluster. */
  type Dist = (nat, nat) -> real

  /** How many sinks have been put into cluster c. */
  function Size(assign: seq<nat>, c: nat): nat {
    if assign == [] then 0
    else Size(assign[..|assign| - 1], c) + if assign[|assign| - 1] == c then 1 else 0
  }

  predicate Room(assign: seq<nat>, c: nat, cap: nat) {
    Size(assign, c) < cap
  }

  /** Where the next sink belongs, given where the sinks before it went: where the flow sends it,
      or else to the nearest cluster that has room, or else to the first cluster. */
  ghost predicate RightPlace(assign: seq<nat>, flow: int, n: nat, cap: nat, dist: Dist, p: nat) {
    var i := |assign|;
    if 0 <= flow < n then p == flow
    else if exists c :: 0 <= c < n && Room(assign, c, cap) then
      && p < n && Room(assign, p, cap)
      && forall c :: 0 <= c < n && Room(assign, c, cap) ==>
           dist(p, i) <= dist(c, i) && (c < p ==> dist(p, i) < dist(c, i))
    else p == 0
  }

  /** The sinks among the first k that went into cluster c, in order. */
  function Members(assign: seq<nat>, c: nat, k: nat): (r: seq<nat>)
    requires k <= |assign|
    ensures forall p :: 0 <= p < |r| ==> r[p] < k && assign[r[p]] == c
  {
    if k == 0 then []
    else Members(assign, c, k - 1) + if assign[k - 1] == c then [k - 1] else []
  }

  lemma {:induction false} MembersPrefix(a: seq<nat>, b: seq<nat>, c: nat, k: nat)
    requires k <= |a| && a <= b
    ensures Members(a, c, k) == Members(b, c, k)
  {
    if k > 0 { MembersPrefix(a, b, c, k - 1); }
  }

  lemma {:induction false} SizeIsMembers(assign: seq<nat>, c: nat)
    ensures Size(assign, c) == |Members(assign, c, |assign|)|
  {
    if assign != [] {
      var rest := assign[..|assign| - 1];
      SizeIsMembers(rest, c);
      MembersPrefix(rest, assign, c, |rest|);
    }
  }

  /** Each sink is in the cluster it was assigned to, in no other one, and nowhere twice. */
  lemma {:induction false} MembersExact(assign: seq<nat>, c: nat, k: nat)
    requires k <= |assign|
    ensures forall i: nat :: i in Members(assign, c, k) <==> i < k && assign[i] == c
    ensures forall p, q :: 0 <= p < q < |Members(assign, c, k)| ==> Members(assign, c, k)[p] < Members(assign, c, k)[q]
  {
    if k > 0 { MembersExact(assign, c, k - 1); }
  }

  function Pick<T>(items: seq<T>, idx: seq<nat>): (r: seq<T>)
    requires forall p :: 0 <= p < |idx| ==> idx[p] < |items|
    ensures |r| == |idx|
  {
    seq(|idx|, p requires 0 <= p < |idx| => items[idx[p]])
  }

  /** The items of the sinks among the first k that went into cluster c. */
  function Share<T>(items: seq<T>, assign: seq<nat>, c: nat, k: nat): seq<T>
    requires k <= |assign| == |items|
  {
    Pick(items, Members(assign, c, k))
  }

  ghost predicate TwoParts<T>(a: seq<T>, b: seq<T>, whole: seq<T>) {
    multiset(a) + multiset(b) == multiset(whole)
  }

  /** Two clusters share the sinks out between them. */
  lemma {:induction false} TwoClusters<T>(items: seq<T>, assign: seq<nat>, k: nat)
    requires k <= |assign| == |items| && forall i :: 0 <= i < k ==> assign[i] < 2
    ensures TwoParts(Share(items, assign, 0, k), Share(items, assign, 1, k), items[..k])
  {
    if k > 0 {
      TwoClusters(items, assign, k - 1);
      ShareStep(items, assign, 0, k);
      ShareStep(items, assign, 1, k);
      assert items[..k] == items[..k - 1] + [items[k - 1]];
      OneSide(Share(items, assign, 0, k - 1), Share(items, assign, 1, k - 1), items[..k - 1],
              items[k - 1], assign[k - 1]);
    } else {
      assert items[..0] == [];
    }
  }

  lemma {:induction false} OneSide<T>(a: seq<T>, b: seq<T>, whole: seq<T>, x: T, side: nat)
    requires TwoParts(a, b, whole) && side < 2
    ensures TwoParts(a + if side == 0 then [x] else [], b + if side == 1 then [x] else [], whole + [x])
  {
    assert a + [] == a && b + [] == b;
  }

  lemma {:induction false} ShareStep<T>(items: seq<T>, assign: seq<nat>, c: nat, k: nat)
    requires 0 < k <= |assign| == |items|
    ensures Share(items, assign, c, k) == Share(items, assign, c, k - 1) + if assign[k - 1] == c then [items[k - 1]] else []
  {
  }

  /** All the sinks have gone to where they belong, and the clusters hold them. */
  ghost predicate Bucketed(clusters: seq<seq<nat>>, assign: seq<nat>, flow: nat -> int, n: nat, cap: nat, dist: Dist) {
    && |clusters| == n
    && (forall i :: 0 <= i < |assign| ==> assign[i] < n && RightPlace(assign[..i], flow(i), n, cap, dist, assign[i]))
    && forall c :: 0 <= c < n ==> clusters[c] == Members(assign, c, |assign|)
  }

  ghost predicate InOne(clusters: seq<seq<nat>>, i: nat) {
    exists c :: 0 <= c < |clusters| && InOnly(clusters, i, c)
  }

  ghost predicate InOnly(clusters: seq<seq<nat>>, i: nat, c: nat) {
    forall d :: 0 <= d < |clusters| ==> (i in clusters[d] <==> d == c)
  }

  /** Each of the sinks is in exactly one cluster, and there once; no cluster holds anything else. */
  ghost predicate SharedOut(clusters: seq<seq<nat>>, count: nat) {
    && (forall c, p :: 0 <= c < |clusters| && 0 <= p < |clusters[c]| ==> clusters[c][p] < count)
    && (forall c, p, q :: 0 <= c < |clusters| && 0 <= p < q < |clusters[c]| ==> clusters[c][p] < clusters[c][q])
    && forall i: nat :: i < count ==> InOne(clusters, i)
  }

  lemma {:induction false} BucketsShareOut(clusters: seq<seq<nat>>, assign: seq<nat>, flow: nat -> int, n: nat, cap: nat, dist: Dist)
    requires Bucketed(clusters, assign, flow, n, cap, dist)
    ensures SharedOut(clusters, |assign|)
  {
    forall c | 0 <= c < n
      ensures forall i: nat :: i in clusters[c] <==> i < |assign| && assign[i] == c
      ensures forall p, q :: 0 <= p < q < |clusters[c]| ==> clusters[c][p] < clusters[c][q]
    {
      MembersExact(assign, c, |assign|);
    }
    forall i: nat | i < |assign|
      ensures InOne(clusters, i)
    {
      assert InOnly(clusters, i, assign[i]);
    }
  }

  /** The cluster for a sink that the flow has not placed. */
  method FindRoom(clusters: seq<seq<nat>>, ghost assign: seq<nat>, flow: int, cap: nat, dist: Dist, i: nat)
    returns (p: nat)
    requires |clusters| > 0 && i == |assign| && !(0 <= flow < |clusters|)
    requires forall c :: 0 <= c < |clusters| ==> clusters[c] == Members(assign, c, |assign|)
    ensures p < |clusters| && RightPlace(assign, flow, |clusters|, cap, dist, p)
  {
    forall c | 0 <= c < |clusters|
      ensures Room(assign, c, cap) <==> |clusters[c]| < cap
    {
      SizeIsMembers(assign, c);
    }
    var first := 0;
    while first < |clusters| && |clusters[first]| >= cap
      invariant first <= |clusters|
      invariant forall c :: 0 <= c < first ==> |clusters[c]| >= cap
    {
      first := first + 1;
    }
    if first == |clusters| {
      return 0;
    }
    p := first;
    for c := 0 to |clusters|
      invariant p < |clusters| && |clusters[p]| < cap && (p == first || p < c)
      invariant forall b :: 0 <= b < c && |clusters[b]| < cap ==> dist(p, i) <= dist(b, i)
      invariant forall b :: 0 <= b < p && |clusters[b]| < cap ==> dist(p, i) < dist(b, i)
    {
      if |clusters[c]| < cap && dist(c, i) < dist(p, i) {
        p := c;
      }
    }
    assert Room(assign, p, cap);
  }

  /** One round of sorting the sinks into clusters. */
  method Bucket(count: nat, flow: nat -> int, n: nat, cap: nat, dist: Dist)
    returns (clusters: seq<seq<nat>>, ghost assign: seq<nat>)
    requires n > 0
    ensures |assign| == count && Bucketed(clusters, assign, flow, n, cap, dist)
  {
    clusters, assign := seq(n, _ => []), [];
    for i := 0 to count
      invariant |assign| == i && Bucketed(clusters, assign, flow, n, cap, dist)
    {
      var position;
      if 0 <= flow(i) < n {
        position := flow(i);
      } else {
        position := FindRoom(clusters, assign, flow(i), cap, dist, i);
      }
      BucketStep(clusters, assign, flow, n, cap, dist, position);
      clusters := clusters[position := clusters[position] + [i]];
      assign := assign + [position];
    }
  }

  lemma {:induction false} BucketStep(clusters: seq<seq<nat>>, assign: seq<nat>, flow: nat -> int, n: nat, cap: nat,
                                      dist: Dist, p: nat)
    requires Bucketed(clusters, assign, flow, n, cap, dist)
    requires p < n && RightPlace(assign, flow(|assign|), n, cap, dist, p)
    ensures Bucketed(clusters[p := clusters[p] + [|assign|]], assign + [p], flow, n, cap, dist)
  {
    var assign', i := assign + [p], |assign|;
    forall c | 0 <= c < n
      ensures clusters[p := clusters[p] + [i]][c] == Members(assign', c, |assign'|)
    {
      MembersPrefix(assign, assign', c, i);
    }
    PlacesStep(assign, flow, n, cap, dist, p);
  }

  lemma {:induction false} PlacesStep(assign: seq<nat>, flow: nat -> int, n: nat, cap: nat, dist: Dist, p: nat)
    requires p < n && RightPlace(assign, flow(|assign|), n, cap, dist, p)
    requires forall b :: 0 <= b < |assign| ==> RightPlace(assign[..b], flow(b), n, cap, dist, assign[b])
    ensures var assign' := assign + [p];
            forall b :: 0 <= b < |assign'| ==> RightPlace(assign'[..b], flow(b), n, cap, dist, assign'[b])
  {
    var assign', i := assign + [p], |assign|;
    forall b | 0 <= b < |assign'|
      ensures RightPlace(assign'[..b], flow(b), n, cap, dist, assign'[b])
    {
      assert b < i ==> assign'[..b] == assign[..b];
      assert assign'[..i] == assign;
    }
  }

  /** What the flow computes and how the means move is not looked into: for each round, where the
      flow sends each sink, how far each mean is from each sink, and how much the means have moved. */
  datatype Rounds = Rounds(flow: nat -> nat -> int, dist: nat -> Dist, moved: nat -> real)

  method Kmeans(count: nat, n: nat, cap: nat, max: nat, rounds: Rounds)
    returns (clusters: seq<seq<nat>>, ghost last: nat, ghost assign: seq<nat>)
    requires n > 0
    ensures |clusters| == n && SharedOut(clusters, count)
    ensures |assign| == count && 1 <= last <= max + 1
    ensures Bucketed(clusters, assign, rounds.flow(last), n, cap, rounds.dist(last))
    ensures last == max + 1 || rounds.moved(last) < 0.5
    ensures forall i :: 1 <= i < last ==> rounds.moved(i) >= 0.5
  {
    var stop, iter: nat := false, 1;
    clusters, assign, last := [], [], 0;
    while !stop
      invariant 1 <= iter <= max + 2 && (stop || iter <= max + 1)
      invariant stop ==> |assign| == count && last == iter - 1 >= 1
      invariant stop ==> last == max + 1 || rounds.moved(last) < 0.5
      invariant forall i :: 1 <= i < (if stop then last else iter) ==> rounds.moved(i) >= 0.5
      invariant stop ==> Bucketed(clusters, assign, rounds.flow(last), n, cap, rounds.dist(last))
      decreases max + 2 - iter, !stop
    {
      clusters, assign := Bucket(count, rounds.flow(iter), n, cap, rounds.dist(iter));
      last := iter;
      if iter > max || rounds.moved(iter) < 0.5 {
        stop := true;
      }
      iter := iter + 1;
    }
    BucketsShareOut(clusters, assign, rounds.flow(last), n, cap, rounds.dist(last));
  }
}
