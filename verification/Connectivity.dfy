/** Undirected connectivity, edge by edge and by paths. */
module Connectivity {
  datatype Edge = Edge(u: nat, v: nat)

  /** a and b are connected by the first n edges. */
  predicate Linked(edges: seq<Edge>, n: nat, a: nat, b: nat)
    requires n <= |edges|
  {
    if n == 0 then a == b
    else
      var e := edges[n - 1];
      || Linked(edges, n - 1, a, b)
      || (Linked(edges, n - 1, a, e.u) && Linked(edges, n - 1, e.v, b))
      || (Linked(edges, n - 1, a, e.v) && Linked(edges, n - 1, e.u, b))
  }

  lemma {:induction false} LinkedSelf(edges: seq<Edge>, n: nat, a: nat)
    requires n <= |edges|
    ensures Linked(edges, n, a, a)
  {
    if n > 0 { LinkedSelf(edges, n - 1, a); }
  }

  /** Connected is transitive. */
  lemma {:induction false} LinkedOn(edges: seq<Edge>, n: nat, a: nat, b: nat, c: nat)
    requires n <= |edges| && Linked(edges, n, a, b) && Linked(edges, n, b, c)
    ensures Linked(edges, n, a, c)
    decreases n
  {
    if n > 0 {
      var m, e := n - 1, edges[n - 1];
      if Linked(edges, m, a, b) {
        if Linked(edges, m, b, c) {
          LinkedOn(edges, m, a, b, c);
        } else if Linked(edges, m, b, e.u) && Linked(edges, m, e.v, c) {
          LinkedOn(edges, m, a, b, e.u);
        } else {
          LinkedOn(edges, m, a, b, e.v);
        }
      } else if Linked(edges, m, a, e.u) && Linked(edges, m, e.v, b) {
        FromTheOtherEnd(edges, n, a, b, c, e.u, e.v);
      } else {
        FromTheOtherEnd(edges, n, a, b, c, e.v, e.u);
      }
    }
  }

  lemma {:induction false} FromTheOtherEnd(edges: seq<Edge>, n: nat, a: nat, b: nat, c: nat, x: nat, y: nat)
    requires 0 < n <= |edges| && (edges[n - 1] == Edge(x, y) || edges[n - 1] == Edge(y, x))
    requires Linked(edges, n - 1, a, x) && Linked(edges, n - 1, y, b) && Linked(edges, n, b, c)
    ensures Linked(edges, n, a, c)
    decreases n, 0
  {
    var m := n - 1;
    if Linked(edges, m, b, c) {
      LinkedOn(edges, m, y, b, c);
    } else if Linked(edges, m, b, y) && Linked(edges, m, x, c) {
      LinkedOn(edges, m, a, x, c);
    } else {
      assert Linked(edges, m, b, x) && Linked(edges, m, y, c);
    }
  }

  lemma {:induction false} LinkedMore(edges: seq<Edge>, n: nat, k: nat, a: nat, b: nat)
    requires n <= k <= |edges| && Linked(edges, n, a, b)
    ensures Linked(edges, k, a, b)
  {
    if n < k { LinkedMore(edges, n, k - 1, a, b); }
  }

  // ----- the same by paths -----

  predicate Joins(e: Edge, a: nat, b: nat) {
    e == Edge(a, b) || e == Edge(b, a)
  }

  predicate Step(edges: seq<Edge>, n: nat, a: nat, b: nat)
    requires n <= |edges|
  {
    exists i :: 0 <= i < n && Joins(edges[i], a, b)
  }

  /** A path uses the first n edges only, in either direction. */
  predicate Path(edges: seq<Edge>, n: nat, p: seq<nat>)
    requires n <= |edges|
  {
    p != [] && forall i {:trigger StepAt(edges, n, p, i)} :: 0 <= i < |p| - 1 ==> StepAt(edges, n, p, i)
  }

  predicate StepAt(edges: seq<Edge>, n: nat, p: seq<nat>, i: nat)
    requires n <= |edges| && i < |p| - 1
  {
    Step(edges, n, p[i], p[i + 1])
  }

  predicate PathFrom(edges: seq<Edge>, n: nat, p: seq<nat>, a: nat, b: nat)
    requires n <= |edges|
  {
    Path(edges, n, p) && p[0] == a && p[|p| - 1] == b
  }

  lemma {:induction false} StepLinked(edges: seq<Edge>, n: nat, a: nat, b: nat)
    requires n <= |edges| && Step(edges, n, a, b)
    ensures Linked(edges, n, a, b)
  {
    var i :| 0 <= i < n && Joins(edges[i], a, b);
    LinkedSelf(edges, i, a);
    LinkedSelf(edges, i, b);
    assert Linked(edges, i + 1, a, b);
    LinkedMore(edges, i + 1, n, a, b);
  }

  lemma {:induction false} PathPrefix(edges: seq<Edge>, n: nat, p: seq<nat>, k: nat)
    requires n <= |edges| && Path(edges, n, p) && 0 < k <= |p|
    ensures Path(edges, n, p[..k])
  {
    forall i {:trigger StepAt(edges, n, p[..k], i)} | 0 <= i < k - 1
      ensures StepAt(edges, n, p[..k], i)
    {
      assert StepAt(edges, n, p, i);
    }
  }

  /** The ends of a path are connected. */
  lemma {:induction false} PathLinked(edges: seq<Edge>, n: nat, p: seq<nat>)
    requires n <= |edges| && Path(edges, n, p)
    ensures Linked(edges, n, p[0], p[|p| - 1])
    decreases |p|
  {
    if |p| == 1 {
      LinkedSelf(edges, n, p[0]);
    } else {
      var k := |p| - 2;
      PathPrefix(edges, n, p, k + 1);
      PathLinked(edges, n, p[..k + 1]);
      assert StepAt(edges, n, p, k);
      StepLinked(edges, n, p[k], p[k + 1]);
      LinkedOn(edges, n, p[0], p[k], p[k + 1]);
    }
  }

  lemma {:induction false} StepMore(edges: seq<Edge>, n: nat, a: nat, b: nat)
    requires 0 < n <= |edges| && Step(edges, n - 1, a, b)
    ensures Step(edges, n, a, b)
  {
  }

  lemma {:induction false} PathMore(edges: seq<Edge>, n: nat, p: seq<nat>)
    requires 0 < n <= |edges| && Path(edges, n - 1, p)
    ensures Path(edges, n, p)
  {
    forall i {:trigger StepAt(edges, n, p, i)} | 0 <= i < |p| - 1
      ensures StepAt(edges, n, p, i)
    {
      assert StepAt(edges, n - 1, p, i);
      StepMore(edges, n, p[i], p[i + 1]);
    }
  }

  lemma {:induction false} PathJoin(edges: seq<Edge>, n: nat, p: seq<nat>, q: seq<nat>)
    requires n <= |edges| && Path(edges, n, p) && Path(edges, n, q) && Step(edges, n, p[|p| - 1], q[0])
    ensures Path(edges, n, p + q)
  {
    var r := p + q;
    forall i {:trigger StepAt(edges, n, r, i)} | 0 <= i < |r| - 1
      ensures StepAt(edges, n, r, i)
    {
      if i < |p| - 1 {
        assert StepAt(edges, n, p, i);
      } else if i >= |p| {
        assert StepAt(edges, n, q, i - |p|);
      }
    }
  }

  /** Connected vertices are the ends of a path. */
  lemma {:induction false} LinkedPath(edges: seq<Edge>, n: nat, a: nat, b: nat) returns (p: seq<nat>)
    requires n <= |edges| && Linked(edges, n, a, b)
    ensures PathFrom(edges, n, p, a, b)
    decreases n, 1
  {
    if n == 0 {
      p := [a];
    } else {
      var m, e := n - 1, edges[n - 1];
      if Linked(edges, m, a, b) {
        p := LinkedPath(edges, m, a, b);
        PathMore(edges, n, p);
      } else if Linked(edges, m, a, e.u) && Linked(edges, m, e.v, b) {
        p := Across(edges, n, a, b, e.u, e.v);
      } else {
        p := Across(edges, n, a, b, e.v, e.u);
      }
    }
  }

  lemma {:induction false} Across(edges: seq<Edge>, n: nat, a: nat, b: nat, x: nat, y: nat) returns (p: seq<nat>)
    requires 0 < n <= |edges| && Joins(edges[n - 1], x, y)
    requires Linked(edges, n - 1, a, x) && Linked(edges, n - 1, y, b)
    ensures PathFrom(edges, n, p, a, b)
    decreases n, 0
  {
    var q := LinkedPath(edges, n - 1, a, x);
    var r := LinkedPath(edges, n - 1, y, b);
    PathMore(edges, n, q);
    PathMore(edges, n, r);
    assert Step(edges, n, x, y);
    PathJoin(edges, n, q, r);
    p := q + r;
  }
}
