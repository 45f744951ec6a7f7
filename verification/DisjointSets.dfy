/** Disjoint sets in two arrays, with union by rank and full path compression. */
module DisjointSets {

  /** Parents and ranks form a forest with the given roots: ranks rise towards the root. */
  ghost predicate Forest(parent: seq<nat>, rank: seq<nat>, root: seq<nat>, height: nat) {
    && |parent| == |rank| == |root|
    && forall x {:trigger ForestAt(parent, rank, root, height, x)} :: 0 <= x < |root| ==>
         ForestAt(parent, rank, root, height, x)
  }

  ghost predicate ForestAt(parent: seq<nat>, rank: seq<nat>, root: seq<nat>, height: nat, x: nat)
    requires x < |parent| == |rank| == |root|
  {
    && parent[x] < |root| && root[x] < |root| && rank[x] <= height
    && root[parent[x]] == root[x] && root[root[x]] == root[x]
    && (parent[x] == x <==> root[x] == x)
    && (parent[x] != x ==> rank[x] < rank[parent[x]])
    && (root[x] != x ==> rank[x] < rank[root[x]])
  }

  /** Hanging an element directly below its root keeps the forest. */
  lemma {:induction false} CompressKeeps(parent: seq<nat>, rank: seq<nat>, root: seq<nat>, height: nat, v: nat)
    requires Forest(parent, rank, root, height) && v < |root| && root[v] != v
    ensures root[v] < |root| && Forest(parent[v := root[v]], rank, root, height)
  {
    assert ForestAt(parent, rank, root, height, v);
    var parent' := parent[v := root[v]];
    forall x {:trigger ForestAt(parent', rank, root, height, x)} | 0 <= x < |root|
      ensures ForestAt(parent', rank, root, height, x)
    {
      assert ForestAt(parent, rank, root, height, x);
    }
  }

  function Moved(root: seq<nat>, i: nat, j: nat): (r: seq<nat>)
    ensures |r| == |root|
  {
    seq(|root|, z requires 0 <= z < |root| => if root[z] == i then j else root[z])
  }

  /** Hanging root i below root j, which gets a higher rank if both had the same. */
  lemma {:induction false} LinkKeeps(parent: seq<nat>, rank: seq<nat>, root: seq<nat>, height: nat, i: nat, j: nat)
    requires Forest(parent, rank, root, height) && i < |root| && j < |root| && i != j
    requires root[i] == i && root[j] == j && rank[i] <= rank[j]
    ensures if rank[i] == rank[j] then Forest(parent[i := j], rank[j := rank[j] + 1], Moved(root, i, j), height + 1)
            else Forest(parent[i := j], rank, Moved(root, i, j), height)
  {
    var rank' := if rank[i] == rank[j] then rank[j := rank[j] + 1] else rank;
    var height' := if rank[i] == rank[j] then height + 1 else height;
    var parent', root' := parent[i := j], Moved(root, i, j);
    assert ForestAt(parent, rank, root, height, i) && ForestAt(parent, rank, root, height, j);
    forall x {:trigger ForestAt(parent', rank', root', height', x)} | 0 <= x < |root|
      ensures ForestAt(parent', rank', root', height', x)
    {
      LinkKeepsAt(parent, rank, root, height, i, j, rank', height', x);
    }
  }

  lemma {:induction false} LinkKeepsAt(parent: seq<nat>, rank: seq<nat>, root: seq<nat>, height: nat, i: nat, j: nat,
                                       rank': seq<nat>, height': nat, x: nat)
    requires Forest(parent, rank, root, height) && i < |root| && j < |root| && i != j && x < |root|
    requires root[i] == i && root[j] == j && rank[i] <= rank[j]
    requires rank' == if rank[i] == rank[j] then rank[j := rank[j] + 1] else rank
    requires height' == if rank[i] == rank[j] then height + 1 else height
    ensures ForestAt(parent[i := j], rank', Moved(root, i, j), height', x)
  {
    assert ForestAt(parent, rank, root, height, i) && ForestAt(parent, rank, root, height, j);
    assert ForestAt(parent, rank, root, height, x);
    assert ForestAt(parent, rank, root, height, parent[x]);
    assert ForestAt(parent, rank, root, height, root[x]);
  }

  /** a and b are in one set once the sets of x and y are merged. */
  predicate Merged(root: seq<nat>, x: nat, y: nat, a: nat, b: nat)
    requires x < |root| && y < |root| && a < |root| && b < |root|
  {
    || root[a] == root[b]
    || (root[a] == root[x] && root[y] == root[b])
    || (root[a] == root[y] && root[x] == root[b])
  }

  class DisjointSetForest {
    const parent: array<nat>
    const rank: array<nat>

    /** The representative of each element, and a bound on the ranks. */
    ghost var root: seq<nat>
    ghost var height: nat

    ghost predicate Valid()
      reads this, parent, rank
    {
      parent != rank && Forest(parent[..], rank[..], root, height)
    }

    constructor (n: nat)
      ensures Valid() && fresh(parent) && fresh(rank) && |root| == n && forall x :: 0 <= x < n ==> root[x] == x
    {
      parent, rank := new nat[n](i => i), new nat[n](_ => 1);
      root, height := seq(n, i => i), 1;
    }

    /** The representative of an element.  Every element on the way to it is hung below it. */
    method FindSet(x: nat) returns (ancestor: nat)
      requires Valid() && x < |root|
      modifies parent
      ensures Valid() && ancestor == root[x] && ancestor < |root|
    {
      ancestor := x;
      assert ForestAt(parent[..], rank[..], root, height, ancestor);
      while parent[ancestor] != ancestor
        invariant ancestor < |root| && root[ancestor] == root[x] && ForestAt(parent[..], rank[..], root, height, ancestor)
        decreases height - rank[ancestor]
      {
        assert ForestAt(parent[..], rank[..], root, height, parent[ancestor]);
        ancestor := parent[ancestor];
      }
      var v: nat := x;
      while v != ancestor
        invariant Valid() && v < |root| && root[v] == ancestor == root[x]
        decreases height - rank[v]
      {
        assert ForestAt(parent[..], rank[..], root, height, v);
        assert ForestAt(parent[..], rank[..], root, height, parent[v]);
        CompressKeeps(parent[..], rank[..], root, height, v);
        ghost var parents := parent[..];
        var next := parent[v];
        parent[v] := ancestor;
        assert parent[..] == parents[v := ancestor];
        v := next;
      }
    }

    /** Merge the sets of two elements. */
    method UnionSet(x: nat, y: nat)
      requires Valid() && x < |root| && y < |root|
      modifies this, parent, rank
      ensures Valid() && |root| == |old(root)|
      ensures forall a, b :: 0 <= a < |root| && 0 <= b < |root| ==>
                (root[a] == root[b] <==> Merged(old(root), x, y, a, b))
    {
      var i := FindSet(x);
      var j := FindSet(y);
      if i != j {
        assert ForestAt(parent[..], rank[..], root, height, x) && ForestAt(parent[..], rank[..], root, height, y);
        if rank[i] > rank[j] {
          Link(j, i);
        } else {
          Link(i, j);
        }
      }
    }

    /** Hang root i below root j. */
    method Link(i: nat, j: nat)
      requires Valid() && i < |root| && j < |root| && i != j
      requires root[i] == i && root[j] == j && rank[i] <= rank[j]
      modifies this, parent, rank
      ensures Valid() && root == Moved(old(root), i, j)
    {
      ghost var parents, ranks := parent[..], rank[..];
      LinkKeeps(parents, ranks, root, height, i, j);
      parent[i] := j;
      if rank[i] == rank[j] {
        rank[j] := rank[j] + 1;
        height := height + 1;
      }
      root := Moved(root, i, j);
      assert parent[..] == parents[i := j];
      assert rank[..] == if ranks[i] == ranks[j] then ranks[j := ranks[j] + 1] else ranks;
    }
  }
}
