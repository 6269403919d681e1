/** Cutting a dendrogram: the leaves grouped by the first merges. */
module Cuts {
  import opened SortedLists
  import opened Dendrogram
  import opened UnionFind

  /** Two leaves have one representative exactly when they are in one cluster. */
  ghost predicate SameGroups(root: seq<nat>, merges: seq<Merge>, n: nat, k: nat)
    requires |root| == n && k <= |merges|
  {
    forall x, y :: 0 <= x < n && 0 <= y < n ==>
      (root[x] == root[y] <==> ClusterOf(merges, n, k, x) == ClusterOf(merges, n, k, y))
  }

  /** The first `t` members of a merge share a cluster with `x`. */
  ghost predicate Touched(merges: seq<Merge>, n: nat, k: nat, mem: seq<nat>, t: nat, x: nat)
    requires k <= |merges| && t <= |mem|
  {
    exists q :: 0 <= q < t && ClusterOf(merges, n, k, mem[q]) == ClusterOf(merges, n, k, x)
  }

  /** The clusters of the first `t` members have been made one. */
  ghost predicate PartGroups(root: seq<nat>, merges: seq<Merge>, n: nat, k: nat, mem: seq<nat>, t: nat)
    requires |root| == n && k <= |merges| && t <= |mem|
  {
    forall x, y :: 0 <= x < n && 0 <= y < n ==>
      (root[x] == root[y] <==>
        ClusterOf(merges, n, k, x) == ClusterOf(merges, n, k, y)
        || (Touched(merges, n, k, mem, t, x) && Touched(merges, n, k, mem, t, y)))
  }

  ghost predicate Within(mem: seq<nat>, n: nat) {
    forall q :: 0 <= q < |mem| ==> mem[q] < n
  }

  lemma StartPart(root: seq<nat>, merges: seq<Merge>, n: nat, k: nat, mem: seq<nat>)
    requires |root| == n && k <= |merges| && |mem| > 0 && Within(mem, n) && SameGroups(root, merges, n, k)
    ensures PartGroups(root, merges, n, k, mem, 1)
  {
  }

  lemma MorePart(root: seq<nat>, merges: seq<Merge>, n: nat, k: nat, mem: seq<nat>, t: nat)
    requires |root| == n && k <= |merges| && 1 <= t < |mem| && Within(mem, n)
    requires PartGroups(root, merges, n, k, mem, t)
    ensures PartGroups(Redirect(root, root[mem[t]], root[mem[0]]), merges, n, k, mem, t + 1)
  {
    var a, b, root' := root[mem[t]], root[mem[0]], Redirect(root, root[mem[t]], root[mem[0]]);
    forall x | 0 <= x < n
      ensures root[x] == a || root[x] == b <==> Touched(merges, n, k, mem, t + 1, x)
    {
      assert Touched(merges, n, k, mem, t, mem[0]);
      assert Touched(merges, n, k, mem, t + 1, x) <==>
        Touched(merges, n, k, mem, t, x) || ClusterOf(merges, n, k, mem[t]) == ClusterOf(merges, n, k, x);
    }
    forall x | 0 <= x < n ensures Touched(merges, n, k, mem, t, x) ==> Touched(merges, n, k, mem, t + 1, x) {
    }
  }

  lemma FinishPart(root: seq<nat>, merges: seq<Merge>, n: nat, k: nat)
    requires |root| == n && k < |merges| && Agglomerates(merges, n) && Within(merges[k].members, n)
    requires PartGroups(root, merges, n, k, merges[k].members, |merges[k].members|)
    ensures SameGroups(root, merges, n, k + 1)
  {
    var mem := merges[k].members;
    assert JoinsTwo(merges, n, k);
    var a, b :| Joins(merges, n, k, a, b);
    forall x: nat | x < n ensures Touched(merges, n, k, mem, |mem|, x) <==> x in mem {
      if x in mem {
        var q :| 0 <= q < |mem| && mem[q] == x;
      }
      if Touched(merges, n, k, mem, |mem|, x) {
        var q :| 0 <= q < |mem| && ClusterOf(merges, n, k, mem[q]) == ClusterOf(merges, n, k, x);
        assert mem[q] in mem;
      }
    }
    forall x: nat | x < n ensures ClusterOf(merges, n, k, x) < n + k {
      ClusterOfBound(merges, n, k, x);
    }
  }

  /** Applies one merge: every member is joined to the first. */
  method ApplyMerge(parent: array<nat>, merges: seq<Merge>, n: nat, k: nat,
                    ghost root0: seq<nat>, ghost rank0: seq<nat>, ghost top0: nat)
    returns (ghost root: seq<nat>, ghost rank: seq<nat>, ghost top: nat)
    requires k < |merges| && Agglomerates(merges, n) && |merges[k].members| > 0 && Within(merges[k].members, n)
    requires parent.Length == n && Forest(parent[..], root0, rank0, top0) && SameGroups(root0, merges, n, k)
    modifies parent
    ensures Forest(parent[..], root, rank, top) && SameGroups(root, merges, n, k + 1)
  {
    hide Agglomerates, SameGroups, PartGroups, Redirect, Raised;
    var mem := merges[k].members;
    root, rank, top := root0, rank0, top0;
    StartPart(root, merges, n, k, mem);
    for t := 1 to |mem|
      invariant Forest(parent[..], root, rank, top) && |root| == n && PartGroups(root, merges, n, k, mem, t)
    {
      var a := Find(parent, mem[t], root, rank, top);
      var b := Find(parent, mem[0], root, rank, top);
      StillRoot(parent[..], root, rank, top, mem[t]);
      MorePart(root, merges, n, k, mem, t);
      JoinRoots(parent[..], root, rank, top, a, b);
      ghost var before := parent[..];
      parent[a] := b;
      assert parent[..] == before[a := b];
      root, rank, top := Redirect(root, a, b), Raised(rank, a, b), top + 1;
    }
    FinishPart(root, merges, n, k);
  }

  lemma MembersFit(merges: seq<Merge>, n: nat, k: nat)
    requires k < |merges| && Agglomerates(merges, n)
    ensures |merges[k].members| > 0 && Within(merges[k].members, n)
  {
    assert JoinsTwo(merges, n, k);
    var a, b :| Joins(merges, n, k, a, b);
    var i: nat :| i < n && ClusterOf(merges, n, k, i) == a;
    assert i in merges[k].members;
    forall q | 0 <= q < |merges[k].members| ensures merges[k].members[q] < n {
      var x := merges[k].members[q];
      assert x in merges[k].members;
    }
  }

  // --- Listing the groups --------------------------------------------------------------

  ghost predicate In(out: seq<seq<nat>>, j: nat, x: nat) {
    j < |out| && x in out[j]
  }

  lemma FirstIn(out: seq<seq<nat>>, j: nat)
    requires j < |out| && out[j] != []
    ensures In(out, j, out[j][0])
  {
  }

  /** Nonempty ascending groups, ordered by their smallest leaf. */
  ghost predicate Tidy(out: seq<seq<nat>>) {
    && (forall j :: 0 <= j < |out| ==> out[j] != [] && Ascending(out[j]))
    && (forall j, l :: 0 <= j < l < |out| ==> out[j][0] < out[l][0])
  }

  /** The leaves below `i` are listed: group `at[r]` holds those represented by `r`. */
  ghost predicate Listed(out: seq<seq<nat>>, at: map<nat, nat>, root: seq<nat>, i: nat) {
    && i <= |root| && Tidy(out)
    && (forall r :: r in at ==> at[r] < |out|)
    && (forall x: nat :: x < i ==> root[x] in at && In(out, at[root[x]], x))
    && (forall j: nat, x: nat :: In(out, j, x) ==> x < i && root[x] in at && at[root[x]] == j)
    && (forall r, q :: r in at && q in at && at[r] == at[q] ==> r == q)
  }

  lemma ListNew(out: seq<seq<nat>>, at: map<nat, nat>, root: seq<nat>, i: nat)
    requires i < |root| && Listed(out, at, root, i) && root[i] !in at
    ensures Listed(out + [[i]], at[root[i] := |out|], root, i + 1)
  {
    var out', at' := out + [[i]], at[root[i] := |out|];
    forall j: nat | j < |out| ensures out[j][0] < i {
      FirstIn(out, j);
    }
    forall j: nat, x: nat | In(out', j, x) ensures x < i + 1 && root[x] in at' && at'[root[x]] == j {
      assert j < |out| ==> In(out, j, x);
    }
    forall x: nat | x < i + 1 ensures root[x] in at' && In(out', at'[root[x]], x) {
      assert x < i ==> In(out, at[root[x]], x);
    }
  }

  lemma ListMore(out: seq<seq<nat>>, at: map<nat, nat>, root: seq<nat>, i: nat)
    requires i < |root| && Listed(out, at, root, i) && root[i] in at
    ensures Listed(out[at[root[i]] := out[at[root[i]]] + [i]], at, root, i + 1)
  {
    var g := at[root[i]];
    var out' := out[g := out[g] + [i]];
    forall a | 0 <= a < |out[g]| ensures out[g][a] < i {
      assert In(out, g, out[g][a]);
    }
    assert Tidy(out');
    forall j: nat, x: nat | In(out', j, x) ensures x < i + 1 && root[x] in at && at[root[x]] == j {
      assert x != i || j != g ==> In(out, j, x);
    }
    forall x: nat | x < i + 1 ensures root[x] in at && In(out', at[root[x]], x) {
      assert x < i ==> In(out, at[root[x]], x);
    }
  }

  /** The groups partition the leaves: each leaf is in one, and two leaves are in the
      same one exactly when the first `k` merges put them in one cluster. */
  ghost predicate GroupsAre(out: seq<seq<nat>>, merges: seq<Merge>, n: nat, k: nat)
    requires k <= |merges|
  {
    |out| + k == n && Tidy(out) && Partition(out, merges, n, k)
  }

  ghost predicate Partition(out: seq<seq<nat>>, merges: seq<Merge>, n: nat, k: nat)
    requires k <= |merges|
  {
    && (forall x: nat :: x < n ==> InSome(out, x))
    && (forall j: nat, x: nat :: In(out, j, x) ==> x < n)
    && (forall j: nat, l: nat, x: nat, y: nat :: In(out, j, x) && In(out, l, y) ==>
          (j == l <==> ClusterOf(merges, n, k, x) == ClusterOf(merges, n, k, y)))
  }

  ghost predicate InSome(out: seq<seq<nat>>, x: nat) {
    exists j: nat :: In(out, j, x)
  }

  lemma ListedPartition(out: seq<seq<nat>>, at: map<nat, nat>, root: seq<nat>, merges: seq<Merge>, n: nat, k: nat)
    requires k <= |merges| && |root| == n && Listed(out, at, root, n) && SameGroups(root, merges, n, k)
    ensures Partition(out, merges, n, k)
  {
    hide ClusterOf;
    forall x: nat | x < n ensures InSome(out, x) {
      assert In(out, at[root[x]], x);
    }
  }

  /** The clusters the groups stand for, one name each. */
  ghost function NamesOf(out: seq<seq<nat>>, merges: seq<Merge>, n: nat, k: nat): seq<nat>
    requires k <= |merges| && Tidy(out)
  {
    seq(|out|, j requires 0 <= j < |out| => ClusterOf(merges, n, k, out[j][0]))
  }

  lemma {:induction false} DistinctNames(names: seq<nat>, s: set<nat>)
    requires forall j, l :: 0 <= j < l < |names| ==> names[j] != names[l]
    requires forall x :: x in s <==> x in names
    ensures |s| == |names|
  {
    if names == [] {
      assert s == {};
    } else {
      var rest := names[1..];
      assert names == [names[0]] + rest;
      forall j | 0 <= j < |rest| ensures rest[j] != names[0] {
        assert names[j + 1] == rest[j];
      }
      DistinctNames(rest, s - {names[0]});
    }
  }

  lemma PartitionCount(out: seq<seq<nat>>, merges: seq<Merge>, n: nat, k: nat)
    requires k <= |merges| && Agglomerates(merges, n) && Tidy(out) && Partition(out, merges, n, k)
    ensures |out| + k == n
  {
    hide ClusterOf, Agglomerates;
    var names := NamesOf(out, merges, n, k);
    forall j: nat | j < |out| ensures In(out, j, out[j][0]) {
      FirstIn(out, j);
    }
    ClustersLeft(merges, n, k);
    forall c | c in Clusters(merges, n, k) ensures c in names {
      var i: nat :| i < n && ClusterOf(merges, n, k, i) == c;
      assert InSome(out, i);
      var j: nat :| In(out, j, i);
      assert names[j] == c;
    }
    forall c | c in names ensures c in Clusters(merges, n, k) {
      var j :| 0 <= j < |out| && names[j] == c;
      assert In(out, j, out[j][0]);
    }
    DistinctNames(names, Clusters(merges, n, k));
  }

  lemma ListedGroups(out: seq<seq<nat>>, at: map<nat, nat>, root: seq<nat>, merges: seq<Merge>, n: nat, k: nat)
    requires k <= |merges| && |root| == n && Listed(out, at, root, n) && SameGroups(root, merges, n, k)
    requires Agglomerates(merges, n)
    ensures GroupsAre(out, merges, n, k)
  {
    ListedPartition(out, at, root, merges, n, k);
    PartitionCount(out, merges, n, k);
  }

  /** Applies the first `k0` merges (no more than there are) and returns the groups. */
  method CutAtThresholdIndex(merges: seq<Merge>, n: nat, k0: int) returns (out: seq<seq<nat>>)
    requires Agglomerates(merges, n)
    ensures GroupsAre(out, merges, n, Applied(merges, k0))
  {
    hide Agglomerates, SameGroups, Forest, Listed, GroupsAre;
    var k: nat := if k0 < 0 then 0 else if k0 > |merges| then |merges| else k0;
    var parent := new nat[n](i => i);
    ghost var root, rank, top := Singletons(n), seq(n, _ => 0), 0;
    SingletonsForest(n);
    assert parent[..] == Singletons(n);
    StartGroups(merges, n);
    for i := 0 to k
      invariant |root| == n && Forest(parent[..], root, rank, top) && SameGroups(root, merges, n, i)
    {
      MembersFit(merges, n, i);
      root, rank, top := ApplyMerge(parent, merges, n, i, root, rank, top);
      ForestSize(parent[..], root, rank, top);
    }
    var at: map<nat, nat> := map[];
    out := [];
    StartList(root);
    for i := 0 to n
      invariant Forest(parent[..], root, rank, top) && Listed(out, at, root, i)
    {
      var r := Find(parent, i, root, rank, top);
      ListedRange(out, at, root, i);
      if r in at {
        ListMore(out, at, root, i);
        out := out[at[r] := out[at[r]] + [i]];
      } else {
        ListNew(out, at, root, i);
        at := at[r := |out|];
        out := out + [[i]];
      }
    }
    ListedGroups(out, at, root, merges, n, k);
  }

  lemma StartGroups(merges: seq<Merge>, n: nat)
    ensures SameGroups(Singletons(n), merges, n, 0)
  {
  }

  lemma StartList(root: seq<nat>)
    ensures Listed([], map[], root, 0)
  {
  }

  lemma ListedRange(out: seq<seq<nat>>, at: map<nat, nat>, root: seq<nat>, i: nat)
    requires Listed(out, at, root, i)
    ensures forall r :: r in at ==> at[r] < |out|
  {
  }

  // --- Cutting by count and by distance ----------------------------------------------

  /** How many of the merges a cut at `k0` applies. */
  function Applied(merges: seq<Merge>, k0: int): (k: nat)
    ensures k <= |merges| && (0 <= k0 <= |merges| ==> k == k0)
    ensures (k0 < 0 ==> k == 0) && (k0 > |merges| ==> k == |merges|)
  {
    if k0 < 0 then 0 else if k0 > |merges| then |merges| else k0
  }

  /** A complete dendrogram can be cut into any number of clusters from 1 to `n`. */
  method CutClusters(merges: seq<Merge>, n: nat, count: int) returns (out: seq<seq<nat>>)
    requires Agglomerates(merges, n)
    ensures GroupsAre(out, merges, n, Applied(merges, n - count))
    ensures |merges| == n - 1 && 1 <= count <= n ==> |out| == count
  {
    hide Agglomerates, Tidy, Partition;
    out := CutAtThresholdIndex(merges, n, n - count);
  }

  /** The merge distance, the square root of `height`, is at most `threshold`. */
  predicate AtMost(height: real, threshold: real) {
    threshold >= 0.0 && height <= threshold * threshold
  }

  /** The height is a squared distance, and it is the distance that is compared. */
  lemma AtMostIsDistance(d: real, threshold: real)
    requires d >= 0.0
    ensures AtMost(d * d, threshold) <==> d <= threshold
  {
    if threshold >= 0.0 {
      SquaresGrow(d, threshold);
    }
  }

  lemma Positive(d: real, y: real)
    requires d > 0.0 && y >= 0.0
    ensures d * y >= 0.0
  {
  }

  lemma Product(y: real, x: real)
    requires 0.0 <= y < x
    ensures y * y < x * x
  {
    var d := x - y;
    assert x * x == y * y + d * y + d * x;
    Positive(d, y);
    assert d * x > 0.0;
  }

  lemma SquaresGrow(x: real, y: real)
    requires x >= 0.0 && y >= 0.0
    ensures x * x <= y * y <==> x <= y
  {
    if x <= y {
      assert x * x <= x * y && x * y <= y * y;
    } else {
      Product(y, x);
    }
  }

  /** How many merges come before the first one above the threshold. */
  function AtOrBelow(merges: seq<Merge>, threshold: real): (k: nat)
    ensures k <= |merges|
    ensures forall j :: 0 <= j < k ==> AtMost(merges[j].height, threshold)
    ensures k < |merges| ==> !AtMost(merges[k].height, threshold)
  {
    if merges == [] || !AtMost(merges[0].height, threshold) then 0
    else 1 + AtOrBelow(merges[1..], threshold)
  }

  /** Applies merges up to the first above the threshold. When heights never decrease,
      those are exactly the merges at or below it. */
  method CutAtDistance(merges: seq<Merge>, n: nat, threshold: real) returns (out: seq<seq<nat>>)
    requires Agglomerates(merges, n)
    ensures GroupsAre(out, merges, n, AtOrBelow(merges, threshold))
    ensures NeverDecrease(merges) ==> forall j :: 0 <= j < |merges| ==>
      (j < AtOrBelow(merges, threshold) <==> AtMost(merges[j].height, threshold))
  {
    hide Agglomerates, GroupsAre;
    var below := 0;
    while below < |merges| && AtMost(merges[below].height, threshold)
      invariant 0 <= below <= |merges|
      invariant forall j :: 0 <= j < below ==> AtMost(merges[j].height, threshold)
    {
      below := below + 1;
    }
    assert below == AtOrBelow(merges, threshold);
    if NeverDecrease(merges) {
      forall j | below <= j < |merges| ensures !AtMost(merges[j].height, threshold) {
        assert j > below ==> merges[below].height <= merges[j].height;
      }
    }
    out := CutAtThresholdIndex(merges, n, below);
  }
}
