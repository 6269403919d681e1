/** Agglomeration histories: what a list of merges says about which leaves are together, and how
    many clusters are left. */
module Dendrogram {
  import opened SortedLists

  /** One agglomeration step. `height` is the square of the merge distance. */
  datatype Merge = Merge(height: real, size: nat, members: seq<nat>)

  /** The cluster that leaf `i` of `n` belongs to after the first `k` merges: the leaf
      itself, or the last of those merges that took it in. */
  ghost function ClusterOf(merges: seq<Merge>, n: nat, k: nat, i: nat): nat
    requires k <= |merges|
  {
    if k == 0 then i
    else if i in merges[k - 1].members then n + k - 1
    else ClusterOf(merges, n, k - 1, i)
  }

  ghost predicate Occupied(merges: seq<Merge>, n: nat, k: nat, a: nat)
    requires k <= |merges|
  {
    exists i: nat :: i < n && ClusterOf(merges, n, k, i) == a
  }

  /** Merge `k` takes in exactly the leaves of the two clusters `a` and `b`. */
  ghost predicate Joins(merges: seq<Merge>, n: nat, k: nat, a: nat, b: nat)
    requires k < |merges|
  {
    && a != b && Occupied(merges, n, k, a) && Occupied(merges, n, k, b)
    && forall i: nat :: i in merges[k].members <==>
         i < n && (ClusterOf(merges, n, k, i) == a || ClusterOf(merges, n, k, i) == b)
  }

  ghost predicate Agglomerates(merges: seq<Merge>, n: nat) {
    forall k :: 0 <= k < |merges| ==>
      && Ascending(merges[k].members) && |merges[k].members| == merges[k].size
      && JoinsTwo(merges, n, k)
  }

  ghost predicate JoinsTwo(merges: seq<Merge>, n: nat, k: nat)
    requires k < |merges|
  {
    exists a, b :: Joins(merges, n, k, a, b)
  }

  ghost predicate NeverDecrease(merges: seq<Merge>) {
    forall j, k :: 0 <= j < k < |merges| ==> merges[j].height <= merges[k].height
  }

  lemma {:induction false} ClusterOfPrefix(merges: seq<Merge>, m: Merge, n: nat, k: nat, i: nat)
    requires k <= |merges|
    ensures ClusterOf(merges + [m], n, k, i) == ClusterOf(merges, n, k, i)
  {
    if k > 0 {
      ClusterOfPrefix(merges, m, n, k - 1, i);
    }
  }

  lemma {:induction false} ClusterOfBound(merges: seq<Merge>, n: nat, k: nat, i: nat)
    requires k <= |merges| && i < n
    ensures ClusterOf(merges, n, k, i) < n + k
  {
    if k > 0 { ClusterOfBound(merges, n, k - 1, i); }
  }

  lemma JoinsPrefix(merges: seq<Merge>, m: Merge, n: nat, k: nat, a: nat, b: nat)
    requires k < |merges| && Joins(merges, n, k, a, b)
    ensures Joins(merges + [m], n, k, a, b)
  {
    forall i: nat ensures ClusterOf(merges + [m], n, k, i) == ClusterOf(merges, n, k, i) {
      ClusterOfPrefix(merges, m, n, k, i);
    }
    forall c | Occupied(merges, n, k, c) ensures Occupied(merges + [m], n, k, c) {
      var i: nat :| i < n && ClusterOf(merges, n, k, i) == c;
      assert ClusterOf(merges + [m], n, k, i) == c;
    }
  }

  /** One more merge that joins two clusters keeps the history an agglomeration. */
  lemma AppendMerge(merges: seq<Merge>, m: Merge, n: nat, a: nat, b: nat)
    requires Agglomerates(merges, n) && Ascending(m.members) && |m.members| == m.size
    requires a != b && Occupied(merges, n, |merges|, a) && Occupied(merges, n, |merges|, b)
    requires forall i: nat :: i in m.members <==>
      i < n && (ClusterOf(merges, n, |merges|, i) == a || ClusterOf(merges, n, |merges|, i) == b)
    ensures Agglomerates(merges + [m], n)
  {
    hide Ascending, Joins;
    var all, last := merges + [m], |merges|;
    forall k | 0 <= k < |all| ensures JoinsTwo(all, n, k) {
      if k < last {
        assert JoinsTwo(merges, n, k);
        var c, d :| Joins(merges, n, k, c, d);
        JoinsPrefix(merges, m, n, k, c, d);
      } else {
        NewJoin(merges, m, n, a, b);
      }
    }
  }

  lemma NewJoin(merges: seq<Merge>, m: Merge, n: nat, a: nat, b: nat)
    requires a != b && Occupied(merges, n, |merges|, a) && Occupied(merges, n, |merges|, b)
    requires forall i: nat :: i in m.members <==>
      i < n && (ClusterOf(merges, n, |merges|, i) == a || ClusterOf(merges, n, |merges|, i) == b)
    ensures Joins(merges + [m], n, |merges|, a, b)
  {
    var all, last := merges + [m], |merges|;
    forall i: nat ensures ClusterOf(all, n, last, i) == ClusterOf(merges, n, last, i) {
      ClusterOfPrefix(merges, m, n, last, i);
    }
    forall c | Occupied(merges, n, last, c) ensures Occupied(all, n, last, c) {
      var i: nat :| i < n && ClusterOf(merges, n, last, i) == c;
      assert ClusterOf(all, n, last, i) == c;
    }
  }

  // --- How many clusters are left ---------------------------------------------------------

  ghost function Clusters(merges: seq<Merge>, n: nat, k: nat): set<nat>
    requires k <= |merges|
  {
    set i: nat | i < n :: ClusterOf(merges, n, k, i)
  }

  ghost function Range(n: nat): (s: set<nat>)
    ensures forall i: nat :: i in s <==> i < n
    ensures |s| == n
  {
    if n == 0 then {} else Range(n - 1) + {n - 1}
  }

  lemma StartClusters(merges: seq<Merge>, n: nat)
    ensures Clusters(merges, n, 0) == Range(n)
  {
    forall c | c in Range(n) ensures c in Clusters(merges, n, 0) {
      assert ClusterOf(merges, n, 0, c) == c;
    }
  }

  lemma NewName(merges: seq<Merge>, n: nat, k: nat)
    requires k <= |merges|
    ensures n + k !in Clusters(merges, n, k)
  {
    forall i: nat | i < n ensures ClusterOf(merges, n, k, i) < n + k {
      ClusterOfBound(merges, n, k, i);
    }
  }

  /** Each merge leaves exactly one cluster fewer. */
  lemma {:induction false} ClustersLeft(merges: seq<Merge>, n: nat, k: nat)
    requires Agglomerates(merges, n) && k <= |merges|
    ensures |Clusters(merges, n, k)| + k == n
  {
    hide ClusterOf, Joins, Clusters, Ascending;
    if k == 0 {
      StartClusters(merges, n);
    } else {
      var j: nat := k - 1;
      ClustersLeft(merges, n, j);
      assert JoinsTwo(merges, n, j);
      var a, b :| Joins(merges, n, j, a, b);
      ClustersAfter(merges, n, j, a, b);
      NewName(merges, n, j);
      Replaced(Clusters(merges, n, j), a, b, n + j);
    }
  }

  lemma Replaced(s: set<nat>, a: nat, b: nat, c: nat)
    requires a in s && b in s && a != b && c !in s
    ensures |s - {a} - {b} + {c}| == |s| - 1
  {
  }

  lemma ClustersAfter(merges: seq<Merge>, n: nat, k: nat, a: nat, b: nat)
    requires k < |merges| && Joins(merges, n, k, a, b)
    ensures a in Clusters(merges, n, k) && b in Clusters(merges, n, k) && a != b
    ensures Clusters(merges, n, k + 1) == Clusters(merges, n, k) - {a} - {b} + {n + k}
  {
    var k' := k + 1;
    var before, after := Clusters(merges, n, k), Clusters(merges, n, k');
    forall c | c in after ensures c in before - {a} - {b} + {n + k} {
      var i: nat :| i < n && ClusterOf(merges, n, k', i) == c;
      assert i in merges[k].members || ClusterOf(merges, n, k, i) == c;
    }
    forall c | c in before - {a} - {b} ensures c in after {
      var i: nat :| i < n && ClusterOf(merges, n, k, i) == c;
      assert ClusterOf(merges, n, k', i) == c;
    }
    var i: nat :| i < n && ClusterOf(merges, n, k, i) == a;
    assert ClusterOf(merges, n, k', i) == n + k;
  }
}
