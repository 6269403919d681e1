/** The mutual-reachability graph of HDBSCAN: core distances, the weight of an edge, and what can
    be reached along edges no heavier than a bound. */
module Reachability {
  import opened Distances

  /** At least `k` other points are within `c` of point `i`, and fewer are strictly nearer. */
  ghost predicate KthNearest(dist: Matrix, i: nat, k: nat, c: real)
    requires Square(dist) && i < |dist|
  {
    |Neighborhood(dist, c, i)| >= k && |StrictlyNearer(dist, c, i)| < k
  }

  ghost function StrictlyNearer(dist: Matrix, c: real, i: nat): set<nat>
    requires Square(dist) && i < |dist|
  {
    set j: nat | j < |dist| && i != j && dist[i][j] < c
  }

  lemma KthIs(dist: Matrix, i: nat, idx: seq<nat>, k: nat)
    requires Square(dist) && i < |dist| && Ordered(dist[i], idx) && 1 <= k <= |idx|
    requires forall j: nat :: j in idx <==> j < |dist| && j != i
    ensures idx[k - 1] < |dist| && KthNearest(dist, i, k, dist[i][idx[k - 1]])
  {
    var l, c := k - 1, dist[i][idx[k - 1]];
    forall a | 0 <= a < k ensures dist[i][idx[a]] <= c {
      assert a < l ==> Before(dist[i], idx[a], idx[l]);
    }
    forall a | l <= a < |idx| ensures dist[i][idx[a]] >= c {
      assert a > l ==> Before(dist[i], idx[l], idx[a]);
    }
    FirstNear(dist, i, idx, k, c);
    FewerNearer(dist, i, idx, l, c);
  }

  lemma FirstNear(dist: Matrix, i: nat, idx: seq<nat>, k: nat, c: real)
    requires Square(dist) && i < |dist| && Ordered(dist[i], idx) && k <= |idx|
    requires forall j: nat :: j in idx ==> j < |dist| && j != i
    requires forall a :: 0 <= a < k ==> dist[i][idx[a]] <= c
    ensures |Neighborhood(dist, c, i)| >= k
  {
    var first := idx[..k];
    var firstSet := set j | j in first;
    DistinctCount(dist[i], first, firstSet);
    forall j | j in firstSet ensures j in Neighborhood(dist, c, i) {
      var a :| 0 <= a < k && idx[a] == j;
      assert j in idx;
    }
    SubsetSize(firstSet, Neighborhood(dist, c, i));
  }

  lemma FewerNearer(dist: Matrix, i: nat, idx: seq<nat>, k: nat, c: real)
    requires Square(dist) && i < |dist| && Ordered(dist[i], idx) && k <= |idx|
    requires forall j: nat :: j in idx <==> j < |dist| && j != i
    requires forall a :: k <= a < |idx| ==> dist[i][idx[a]] >= c
    ensures |StrictlyNearer(dist, c, i)| <= k
  {
    var first := idx[..k];
    var firstSet := set j | j in first;
    DistinctCount(dist[i], first, firstSet);
    forall j | j in StrictlyNearer(dist, c, i) ensures j in firstSet {
      assert j in idx;
      var a :| 0 <= a < |idx| && idx[a] == j;
      assert first[a] == j;
    }
    SubsetSize(StrictlyNearer(dist, c, i), firstSet);
  }

  lemma {:induction false} SubsetSize(s: set<nat>, t: set<nat>)
    requires s <= t
    ensures |s| <= |t| && (|s| == |t| ==> s == t)
  {
    if s != {} {
      var x :| x in s;
      SubsetSize(s - {x}, t - {x});
      assert |t - {x}| == |t| - 1;
    }
  }

  method CoreDistances(dist: Matrix, k: nat) returns (core: seq<real>)
    requires Square(dist) && 1 <= k < |dist|
    ensures |core| == |dist| && forall i :: 0 <= i < |dist| ==> KthNearest(dist, i, k, core[i])
  {
    hide KthNearest;
    core := [];
    for i := 0 to |dist|
      invariant |core| == i && forall j :: 0 <= j < i ==> KthNearest(dist, j, k, core[j])
    {
      var nb := SortedNeighbors(dist, i);
      KthIs(dist, i, nb, k);
      core := core + [dist[i][nb[k - 1]]];
    }
  }

  datatype Graph = Graph(dist: Matrix, core: seq<real>) {
    ghost predicate Valid() {
      && Square(dist) && Symmetric(dist) && |core| == |dist|
      && forall i, j :: 0 <= i < |dist| && 0 <= j < |dist| && i != j ==> dist[i][j] >= 0.0
    }

    ghost function Size(): nat { |dist| }

    /** Mutual reachability: the largest of the distance and the two core distances. */
    function W(a: nat, b: nat): (w: real)
      requires Valid() && a < |dist| && b < |dist|
      ensures w >= dist[a][b] && w >= core[a] && w >= core[b]
      ensures w == dist[a][b] || w == core[a] || w == core[b]
    {
      var d := dist[a][b];
      var e := if core[a] > d then core[a] else d;
      if core[b] > e then core[b] else e
    }

    /** A walk along edges no heavier than `t`. */
    ghost predicate Walk(t: real, p: seq<nat>)
      requires Valid()
    {
      && |p| > 0 && (forall a :: 0 <= a < |p| ==> p[a] < Size())
      && forall a :: 0 <= a < |p| - 1 ==> Edge(t, p[a], p[a + 1])
    }

    ghost predicate Edge(t: real, a: nat, b: nat)
      requires Valid() && a < Size() && b < Size()
    {
      a != b && W(a, b) <= t
    }

    ghost predicate Joined(t: real, a: nat, b: nat)
      requires Valid()
    {
      exists p :: Walk(t, p) && p[0] == a && p[|p| - 1] == b
    }
  }

  lemma WSymmetric(g: Graph, a: nat, b: nat)
    requires g.Valid() && a < g.Size() && b < g.Size()
    ensures g.W(a, b) == g.W(b, a) && (a != b ==> g.W(a, b) >= 0.0)
  {
    assert g.dist[a][b] == g.dist[b][a];
  }

  lemma JoinedSelf(g: Graph, t: real, a: nat)
    requires g.Valid() && a < g.Size()
    ensures g.Joined(t, a, a)
  {
    assert g.Walk(t, [a]);
  }

  lemma JoinedEdge(g: Graph, t: real, a: nat, b: nat)
    requires g.Valid() && a < g.Size() && b < g.Size() && g.Edge(t, a, b)
    ensures g.Joined(t, a, b)
  {
    assert g.Walk(t, [a, b]);
  }

  lemma JoinedSymmetric(g: Graph, t: real, a: nat, b: nat)
    requires g.Valid() && g.Joined(t, a, b)
    ensures g.Joined(t, b, a)
  {
    var p :| g.Walk(t, p) && p[0] == a && p[|p| - 1] == b;
    var n := |p|;
    var q := seq(n, i requires 0 <= i < n => p[n - 1 - i]);
    forall i | 0 <= i < n - 1 ensures g.Edge(t, q[i], q[i + 1]) {
      assert g.Edge(t, p[n - 2 - i], p[n - 2 - i + 1]);
      WSymmetric(g, q[i], q[i + 1]);
    }
    assert g.Walk(t, q) && q[0] == b && q[n - 1] == a;
  }

  lemma JoinedTransitive(g: Graph, t: real, a: nat, b: nat, c: nat)
    requires g.Valid() && g.Joined(t, a, b) && g.Joined(t, b, c)
    ensures g.Joined(t, a, c)
  {
    var p :| g.Walk(t, p) && p[0] == a && p[|p| - 1] == b;
    var q :| g.Walk(t, q) && q[0] == b && q[|q| - 1] == c;
    var r := p + q[1..];
    forall i | 0 <= i < |r| - 1 ensures g.Edge(t, r[i], r[i + 1]) {
      if i < |p| - 1 {
        assert g.Edge(t, p[i], p[i + 1]);
      } else {
        var j := i - |p| + 1;
        assert g.Edge(t, q[j], q[j + 1]);
      }
    }
    assert g.Walk(t, r) && r[0] == a && r[|r| - 1] == c;
  }

  lemma JoinedMonotone(g: Graph, t: real, t': real, a: nat, b: nat)
    requires g.Valid() && t <= t' && g.Joined(t, a, b)
    ensures g.Joined(t', a, b)
  {
    var p :| g.Walk(t, p) && p[0] == a && p[|p| - 1] == b;
    forall i | 0 <= i < |p| - 1 ensures g.Edge(t', p[i], p[i + 1]) {
      assert g.Edge(t, p[i], p[i + 1]);
    }
    assert g.Walk(t', p);
  }
}
