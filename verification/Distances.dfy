/** Distance matrices and neighbour lists. */
module Distances {
  import opened SortedLists

  type Matrix = seq<seq<real>>

  ghost predicate Square(dist: Matrix) {
    forall i :: 0 <= i < |dist| ==> |dist[i]| == |dist|
  }

  ghost predicate Symmetric(dist: Matrix)
    requires Square(dist)
  {
    forall i, j :: 0 <= i < |dist| && 0 <= j < |dist| ==> dist[i][j] == dist[j][i]
  }

  /** Nearer in `row`, or equally near with the smaller index. */
  predicate Before(row: seq<real>, a: nat, b: nat)
    requires a < |row| && b < |row|
  {
    row[a] < row[b] || (row[a] == row[b] && a < b)
  }

  ghost predicate InRow(row: seq<real>, idx: seq<nat>) {
    forall a :: 0 <= a < |idx| ==> idx[a] < |row|
  }

  ghost predicate Ordered(row: seq<real>, idx: seq<nat>) {
    InRow(row, idx) && forall a, b :: 0 <= a < b < |idx| ==> Before(row, idx[a], idx[b])
  }

  method Place(row: seq<real>, idx: seq<nat>, j: nat) returns (r: seq<nat>)
    requires Ordered(row, idx) && j < |row| && j !in idx
    ensures Ordered(row, r) && |r| == |idx| + 1
    ensures forall x: nat :: x in r <==> x == j || x in idx
  {
    var at := 0;
    while at < |idx| && Before(row, idx[at], j)
      invariant 0 <= at <= |idx|
      invariant forall a :: 0 <= a < at ==> Before(row, idx[a], j)
    {
      at := at + 1;
    }
    r := idx[..at] + [j] + idx[at..];
    PlacedAt(idx, at, j);
    PlacedOrdered(row, idx, at, j, r);
  }

  lemma PlacedOrdered(row: seq<real>, idx: seq<nat>, at: nat, j: nat, r: seq<nat>)
    requires Ordered(row, idx) && j < |row| && j !in idx && Placed(idx, at, j, r)
    requires forall a :: 0 <= a < at ==> Before(row, idx[a], j)
    requires at < |idx| ==> !Before(row, idx[at], j)
    ensures Ordered(row, r)
  {
    forall a | at <= a < |idx| ensures Before(row, j, idx[a]) {
      assert idx[at] in idx && idx[a] in idx;
    }
  }

  /** The other points, nearest first. */
  method SortedNeighbors(dist: Matrix, i: nat) returns (idx: seq<nat>)
    requires Square(dist) && i < |dist|
    ensures Ordered(dist[i], idx) && |idx| == |dist| - 1
    ensures forall j: nat :: j in idx <==> j < |dist| && j != i
  {
    idx := [];
    for j := 0 to |dist|
      invariant Ordered(dist[i], idx) && |idx| == if i < j then j - 1 else j
      invariant forall x: nat :: x in idx <==> x < j && x != i
    {
      if j != i {
        idx := Place(dist[i], idx, j);
      }
    }
  }

  ghost predicate Near(dist: Matrix, eps: real, i: nat, j: nat)
    requires Square(dist) && i < |dist| && j < |dist|
  {
    i != j && dist[i][j] <= eps
  }

  ghost function Neighborhood(dist: Matrix, eps: real, i: nat): (s: set<nat>)
    requires Square(dist) && i < |dist|
  {
    set j: nat | j < |dist| && Near(dist, eps, i, j)
  }

  lemma {:induction false} DistinctCount(row: seq<real>, idx: seq<nat>, s: set<nat>)
    requires Ordered(row, idx) && forall x: nat :: x in s <==> x in idx
    ensures |s| == |idx|
  {
    if idx == [] {
      assert s == {};
    } else {
      var rest := idx[1..];
      assert idx == [idx[0]] + rest;
      forall a | 0 <= a < |rest| ensures rest[a] != idx[0] {
        assert Before(row, idx[0], idx[a + 1]);
      }
      DistinctCount(row, rest, s - {idx[0]});
    }
  }

  lemma TailFarther(row: seq<real>, idx: seq<nat>, k: nat, eps: real)
    requires Ordered(row, idx) && k < |idx| ==> row[idx[k]] > eps
    ensures Ordered(row, idx) ==> forall a :: k <= a < |idx| ==> row[idx[a]] > eps
  {
    if Ordered(row, idx) {
      forall a | k <= a < |idx| ensures row[idx[a]] > eps {
        assert k < a ==> Before(row, idx[k], idx[a]);
      }
    }
  }

  /** The neighbours within `eps`: the sorted list up to the first that is farther. */
  method NeighborsWithin(dist: Matrix, eps: real, i: nat) returns (near: seq<nat>)
    requires Square(dist) && i < |dist|
    ensures forall j: nat :: j in near <==> j in Neighborhood(dist, eps, i)
    ensures |near| == |Neighborhood(dist, eps, i)|
  {
    var idx := SortedNeighbors(dist, i);
    near := [];
    var k := 0;
    while k < |idx| && dist[i][idx[k]] <= eps
      invariant 0 <= k <= |idx| && near == idx[..k]
      invariant forall a :: 0 <= a < k ==> dist[i][idx[a]] <= eps
    {
      near := near + [idx[k]];
      k := k + 1;
    }
    TailFarther(dist[i], idx, k, eps);
    forall j: nat | j in Neighborhood(dist, eps, i) ensures j in near {
      assert j in idx;
      var a :| 0 <= a < |idx| && idx[a] == j;
      assert near[a] == j;
    }
    forall j: nat | j in near ensures j in Neighborhood(dist, eps, i) {
      var a :| 0 <= a < |near| && near[a] == j;
      assert j == idx[a] && j in idx;
    }
    assert Ordered(dist[i], near);
    DistinctCount(dist[i], near, Neighborhood(dist, eps, i));
  }
}
