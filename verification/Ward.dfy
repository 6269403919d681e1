/** Agglomerative clustering with Ward linkage: closest pairs, by Lance-Williams updates. */
module Ward {
  import opened SortedLists
  import opened Dendrogram
  import opened Distances

  /** The two cluster ids one merge retires. Leaves are 0..n-1 and merge `k` makes `n + k`. */
  datatype Step = Step(a: nat, b: nat)

  ghost function Leaves(merges: seq<Merge>, n: nat, u: nat): seq<nat>
    requires u < n + |merges|
  {
    if u < n then [u] else merges[u - n].members
  }

  ghost predicate Tree(merges: seq<Merge>, steps: seq<Step>, n: nat) {
    |merges| == |steps| && forall k :: 0 <= k < |steps| ==>
      steps[k].a < n + k && steps[k].b < n + k && merges[k].members != []
  }

  function LanceWilliams(na: nat, nb: nat, nv: nat, av: real, bv: real, ab: real): real
    requires na + nb + nv > 0
  {
    ((na + nv) as real * av + (nb + nv) as real * bv - nv as real * ab) / (na + nb + nv) as real
  }

  /** The squared Ward distance between two clusters, as the history defines it. */
  ghost function D2(dist: Matrix, merges: seq<Merge>, steps: seq<Step>, u: nat, v: nat): real
    requires Square(dist) && Tree(merges, steps, |dist|)
    requires u < |dist| + |merges| && v < |dist| + |merges|
    decreases if u < v then v else u, if u < v then 1 else 0
  {
    var n := |dist|;
    if u < n && v < n then dist[u][v] * dist[u][v] / 2.0
    else if u < v then D2(dist, merges, steps, v, u)
    else if u == v then 0.0
    else
      var s := steps[u - n];
      LanceWilliams(|Leaves(merges, n, s.a)|, |Leaves(merges, n, s.b)|, |Leaves(merges, n, v)|,
                    D2(dist, merges, steps, s.a, v), D2(dist, merges, steps, s.b, v),
                    D2(dist, merges, steps, s.a, s.b))
  }

  /** Not merged away by the first `k` steps. */
  ghost predicate Alive(steps: seq<Step>, n: nat, k: nat, u: nat)
    requires k <= |steps|
  {
    u < n + k && forall j :: 0 <= j < k ==> steps[j].a != u && steps[j].b != u
  }

  /** `u` has the elements of `a` and `b`, which have none in common. */
  ghost predicate Union(u: seq<nat>, a: seq<nat>, b: seq<nat>) {
    && |u| == |a| + |b| && (forall i :: i in u <==> i in a || i in b) && forall i :: i in a ==> i !in b
  }

  /** Every merge unites the leaves of two clusters that are still there and have none in
      common. */
  ghost predicate Grown(merges: seq<Merge>, steps: seq<Step>, n: nat) {
    Tree(merges, steps, n) && forall k :: 0 <= k < |steps| ==> GrownAt(merges, steps, n, k)
  }

  ghost predicate GrownAt(merges: seq<Merge>, steps: seq<Step>, n: nat, k: nat)
    requires Tree(merges, steps, n) && k < |steps|
  {
    var a, b := steps[k].a, steps[k].b;
    && a != b && Alive(steps, n, k, a) && Alive(steps, n, k, b)
    && Union(merges[k].members, Leaves(merges, n, a), Leaves(merges, n, b))
  }

  /** A shorter list that is a prefix, or smaller at the first difference. */
  ghost predicate LexLess(x: seq<nat>, y: seq<nat>) {
    exists i :: LexLessAt(x, y, i)
  }

  ghost predicate LexLessAt(x: seq<nat>, y: seq<nat>, i: int) {
    0 <= i <= |x| && i < |y| && x[..i] == y[..i] && (i < |x| ==> x[i] < y[i])
  }

  ghost predicate Closer(dist: Matrix, merges: seq<Merge>, steps: seq<Step>, u: nat, v: nat, a: nat, b: nat)
    requires Square(dist) && Tree(merges, steps, |dist|)
    requires u < |dist| + |merges| && v < |dist| + |merges|
    requires a < |dist| + |merges| && b < |dist| + |merges|
  {
    var n, uv, ab := |dist|, D2(dist, merges, steps, u, v), D2(dist, merges, steps, a, b);
    uv < ab || (uv == ab && LexLess(Leaves(merges, n, u) + Leaves(merges, n, v),
                                    Leaves(merges, n, a) + Leaves(merges, n, b)))
  }

  /** Step `k` merges the closest of the pairs then alive, at their distance. */
  ghost predicate ClosestAt(dist: Matrix, merges: seq<Merge>, steps: seq<Step>, k: nat)
    requires Square(dist) && Tree(merges, steps, |dist|) && k < |steps|
  {
    var n, a, b := |dist|, steps[k].a, steps[k].b;
    && a < b && Alive(steps, n, k, a) && Alive(steps, n, k, b)
    && merges[k].height == Positive(D2(dist, merges, steps, a, b))
    && forall u, v :: 0 <= u < v && Alive(steps, n, k, u) && Alive(steps, n, k, v) ==>
         !Closer(dist, merges, steps, u, v, a, b)
  }

  function Positive(x: real): (r: real)
    ensures r >= 0.0 && r >= x && (r == x || r == 0.0)
  {
    if x < 0.0 then 0.0 else x
  }

  ghost predicate Greedy(dist: Matrix, merges: seq<Merge>, steps: seq<Step>)
    requires Square(dist)
  {
    Tree(merges, steps, |dist|) && forall k :: 0 <= k < |steps| ==> ClosestAt(dist, merges, steps, k)
  }

  // --- Heights never decrease -------------------------------------------------------------

  lemma Coefficients(p: real, q: real, r: real, x: real, y: real, d: real)
    requires p >= 0.0 && q >= 0.0 && x >= d && y >= d
    ensures p * x + q * y - r * d >= (p + q - r) * d
  {
    assert p * x >= p * d && q * y >= q * d;
    assert (p + q - r) * d == p * d + q * d - r * d;
  }

  lemma DivideBound(num: real, den: real, d: real)
    requires den > 0.0 && num >= den * d
    ensures num / den >= d
  {
  }

  /** The coefficients sum to one, so a cluster made from a closest pair is no closer to
      any other than that pair were to each other. */
  lemma LanceWilliamsBound(na: nat, nb: nat, nv: nat, av: real, bv: real, ab: real)
    requires na + nb + nv > 0 && av >= ab && bv >= ab
    ensures LanceWilliams(na, nb, nv, av, bv, ab) >= ab
  {
    var p, q, r := (na + nv) as real, (nb + nv) as real, nv as real;
    var all := (na + nb + nv) as real;
    assert p + q - r == all;
    Coefficients(p, q, r, av, bv, ab);
    DivideBound(p * av + q * bv - r * ab, all, ab);
  }

  lemma Mirrored(dist: Matrix, merges: seq<Merge>, steps: seq<Step>, u: nat, v: nat)
    requires Square(dist) && Tree(merges, steps, |dist|) && Symmetric(dist)
    requires u < |dist| + |merges| && v < |dist| + |merges|
    ensures D2(dist, merges, steps, u, v) == D2(dist, merges, steps, v, u)
  {
    if u < |dist| && v < |dist| {
      assert dist[u][v] == dist[v][u];
    }
  }

  /** Every pair alive after `k` steps is at least as far apart as `low`. */
  ghost predicate FarApart(dist: Matrix, merges: seq<Merge>, steps: seq<Step>, k: nat, low: real)
    requires Square(dist) && Tree(merges, steps, |dist|) && k <= |steps|
  {
    forall u, v :: 0 <= u && 0 <= v && u != v && Alive(steps, |dist|, k, u) && Alive(steps, |dist|, k, v) ==>
      D2(dist, merges, steps, u, v) >= low
  }

  lemma LastHeight(dist: Matrix, merges: seq<Merge>, steps: seq<Step>, k: nat)
    requires Square(dist) && Symmetric(dist) && Greedy(dist, merges, steps) && k < |steps|
    ensures FarApart(dist, merges, steps, k, D2(dist, merges, steps, steps[k].a, steps[k].b))
  {
    hide D2, LexLess;
    var low := D2(dist, merges, steps, steps[k].a, steps[k].b);
    assert ClosestAt(dist, merges, steps, k);
    forall u, v | 0 <= u && 0 <= v && u != v && Alive(steps, |dist|, k, u) && Alive(steps, |dist|, k, v)
      ensures D2(dist, merges, steps, u, v) >= low
    {
      Mirrored(dist, merges, steps, u, v);
      if u < v {
        assert !Closer(dist, merges, steps, u, v, steps[k].a, steps[k].b);
      } else {
        assert !Closer(dist, merges, steps, v, u, steps[k].a, steps[k].b);
      }
    }
  }

  lemma NewClusterFar(dist: Matrix, merges: seq<Merge>, steps: seq<Step>, k: nat, v: nat, low: real)
    requires Square(dist) && Tree(merges, steps, |dist|) && k < |steps|
    requires FarApart(dist, merges, steps, k, low) && low == D2(dist, merges, steps, steps[k].a, steps[k].b)
    requires Alive(steps, |dist|, k, steps[k].a) && Alive(steps, |dist|, k, steps[k].b)
    requires Alive(steps, |dist|, k, v) && v != steps[k].a && v != steps[k].b
    ensures D2(dist, merges, steps, |dist| + k, v) >= low && D2(dist, merges, steps, v, |dist| + k) >= low
  {
    hide LanceWilliams;
    var n, a, b := |dist|, steps[k].a, steps[k].b;
    LanceWilliamsBound(|Leaves(merges, n, a)|, |Leaves(merges, n, b)|, |Leaves(merges, n, v)|,
      D2(dist, merges, steps, a, v), D2(dist, merges, steps, b, v), low);
  }

  lemma StaysFarApart(dist: Matrix, merges: seq<Merge>, steps: seq<Step>, k: nat)
    requires Square(dist) && Symmetric(dist) && Greedy(dist, merges, steps) && k < |steps|
    ensures FarApart(dist, merges, steps, k + 1, D2(dist, merges, steps, steps[k].a, steps[k].b))
  {
    hide D2;
    var n, low := |dist|, D2(dist, merges, steps, steps[k].a, steps[k].b);
    LastHeight(dist, merges, steps, k);
    assert ClosestAt(dist, merges, steps, k);
    forall u: nat | Alive(steps, n, k + 1, u) && u != n + k
      ensures Alive(steps, n, k, u) && u != steps[k].a && u != steps[k].b
    {
    }
    forall u, v | 0 <= u && 0 <= v && u != v && Alive(steps, n, k + 1, u) && Alive(steps, n, k + 1, v)
      ensures D2(dist, merges, steps, u, v) >= low
    {
      if u == n + k {
        NewClusterFar(dist, merges, steps, k, v, low);
      } else if v == n + k {
        NewClusterFar(dist, merges, steps, k, u, low);
      }
    }
  }

  lemma NextHeight(dist: Matrix, merges: seq<Merge>, steps: seq<Step>, k: nat)
    requires Square(dist) && Symmetric(dist) && Greedy(dist, merges, steps) && k + 1 < |steps|
    ensures merges[k].height <= merges[k + 1].height
  {
    hide D2, Closer;
    StaysFarApart(dist, merges, steps, k);
    assert ClosestAt(dist, merges, steps, k);
    assert ClosestAt(dist, merges, steps, k + 1);
  }

  lemma {:induction false} HeightsUpTo(dist: Matrix, merges: seq<Merge>, steps: seq<Step>, j: nat, k: nat)
    requires Square(dist) && Symmetric(dist) && Greedy(dist, merges, steps) && j <= k < |steps|
    ensures merges[j].height <= merges[k].height
    decreases k
  {
    hide ClosestAt;
    if j < k {
      HeightsUpTo(dist, merges, steps, j, k - 1);
      NextHeight(dist, merges, steps, k - 1);
    }
  }

  lemma GreedyNeverDecreases(dist: Matrix, merges: seq<Merge>, steps: seq<Step>)
    requires Square(dist) && Symmetric(dist) && Greedy(dist, merges, steps)
    ensures NeverDecrease(merges)
  {
    hide ClosestAt;
    forall j, k | 0 <= j < k < |merges| ensures merges[j].height <= merges[k].height {
      HeightsUpTo(dist, merges, steps, j, k);
    }
  }

  // --- One more step ----------------------------------------------------------------------

  lemma {:induction false} D2Prefix(dist: Matrix, merges: seq<Merge>, steps: seq<Step>, m: Merge, s: Step, u: nat,
                                    v: nat)
    requires Square(dist) && Tree(merges, steps, |dist|) && Tree(merges + [m], steps + [s], |dist|)
    requires u < |dist| + |merges| && v < |dist| + |merges|
    ensures D2(dist, merges + [m], steps + [s], u, v) == D2(dist, merges, steps, u, v)
    decreases if u < v then v else u, if u < v then 1 else 0
  {
    hide LanceWilliams;
    var n := |dist|;
    if u < n && v < n {
    } else if u < v {
      D2Prefix(dist, merges, steps, m, s, v, u);
    } else if u != v {
      hide D2, Leaves;
      var t := steps[u - n];
      assert (steps + [s])[u - n] == t;
      D2Unfold(dist, merges, steps, u, v);
      D2Unfold(dist, merges + [m], steps + [s], u, v);
      LeavesPrefix(merges, |dist|, m, t.a);
      LeavesPrefix(merges, |dist|, m, t.b);
      LeavesPrefix(merges, |dist|, m, v);
      D2Prefix(dist, merges, steps, m, s, t.a, v);
      D2Prefix(dist, merges, steps, m, s, t.b, v);
      D2Prefix(dist, merges, steps, m, s, t.a, t.b);
    }
  }

  lemma LeavesPrefix(merges: seq<Merge>, n: nat, m: Merge, u: nat)
    requires u < n + |merges|
    ensures Leaves(merges + [m], n, u) == Leaves(merges, n, u)
  {
  }

  lemma D2Unfold(dist: Matrix, merges: seq<Merge>, steps: seq<Step>, u: nat, v: nat)
    requires Square(dist) && Tree(merges, steps, |dist|)
    requires |dist| <= u < |dist| + |merges| && v < u
    ensures |Leaves(merges, |dist|, v)| > 0
    ensures var n, s := |dist|, steps[u - |dist|];
      D2(dist, merges, steps, u, v) ==
      LanceWilliams(|Leaves(merges, n, s.a)|, |Leaves(merges, n, s.b)|, |Leaves(merges, n, v)|,
                    D2(dist, merges, steps, s.a, v), D2(dist, merges, steps, s.b, v),
                    D2(dist, merges, steps, s.a, s.b))
  {
    hide LanceWilliams;
  }

  lemma AlivePrefix(steps: seq<Step>, s: Step, n: nat, k: nat, u: nat)
    requires k <= |steps|
    ensures Alive(steps + [s], n, k, u) <==> Alive(steps, n, k, u)
  {
    assert forall j :: 0 <= j < k ==> (steps + [s])[j] == steps[j];
  }

  lemma CloserPrefix(dist: Matrix, merges: seq<Merge>, steps: seq<Step>, m: Merge, s: Step,
                     u: nat, v: nat, a: nat, b: nat)
    requires Square(dist) && Tree(merges, steps, |dist|) && Tree(merges + [m], steps + [s], |dist|)
    requires u < |dist| + |merges| && v < |dist| + |merges|
    requires a < |dist| + |merges| && b < |dist| + |merges|
    ensures Closer(dist, merges + [m], steps + [s], u, v, a, b) == Closer(dist, merges, steps, u, v, a, b)
  {
    hide D2, LexLess;
    forall x: nat | x < |dist| + |merges|
      ensures Leaves(merges + [m], |dist|, x) == Leaves(merges, |dist|, x)
    {
    }
    D2Prefix(dist, merges, steps, m, s, u, v);
    D2Prefix(dist, merges, steps, m, s, a, b);
  }

  lemma ClosestPrefix(dist: Matrix, merges: seq<Merge>, steps: seq<Step>, m: Merge, s: Step, k: nat)
    requires Square(dist) && Tree(merges, steps, |dist|) && Tree(merges + [m], steps + [s], |dist|)
    requires k < |steps| && ClosestAt(dist, merges, steps, k)
    ensures ClosestAt(dist, merges + [m], steps + [s], k)
  {
    hide D2, Closer;
    var n, a, b := |dist|, steps[k].a, steps[k].b;
    assert (steps + [s])[k] == steps[k] && (merges + [m])[k] == merges[k];
    forall u: nat ensures Alive(steps + [s], n, k, u) <==> Alive(steps, n, k, u) {
      AlivePrefix(steps, s, n, k, u);
    }
    D2Prefix(dist, merges, steps, m, s, a, b);
    forall u, v | 0 <= u < v && Alive(steps, n, k, u) && Alive(steps, n, k, v)
      ensures !Closer(dist, merges + [m], steps + [s], u, v, a, b)
    {
      CloserPrefix(dist, merges, steps, m, s, u, v, a, b);
    }
  }

  /** Step `s` picks the closest of the pairs alive now. */
  ghost predicate ClosestNow(dist: Matrix, merges: seq<Merge>, steps: seq<Step>, s: Step)
    requires Square(dist) && Tree(merges, steps, |dist|)
  {
    var n, k := |dist|, |steps|;
    && s.a < s.b && Alive(steps, n, k, s.a) && Alive(steps, n, k, s.b)
    && forall u, v :: 0 <= u < v && Alive(steps, n, k, u) && Alive(steps, n, k, v) ==>
         !Closer(dist, merges, steps, u, v, s.a, s.b)
  }

  lemma GreedyMore(dist: Matrix, merges: seq<Merge>, steps: seq<Step>, m: Merge, s: Step)
    requires Square(dist) && Greedy(dist, merges, steps) && ClosestNow(dist, merges, steps, s)
    requires m.members != [] && m.height == Positive(D2(dist, merges, steps, s.a, s.b))
    ensures Greedy(dist, merges + [m], steps + [s])
  {
    hide D2, Closer, ClosestAt;
    var k := |steps|;
    assert Tree(merges + [m], steps + [s], |dist|);
    forall j | 0 <= j < k ensures ClosestAt(dist, merges + [m], steps + [s], j) {
      ClosestPrefix(dist, merges, steps, m, s, j);
    }
    ClosestLast(dist, merges, steps, m, s);
  }

  lemma ClosestLast(dist: Matrix, merges: seq<Merge>, steps: seq<Step>, m: Merge, s: Step)
    requires Square(dist) && Tree(merges, steps, |dist|) && Tree(merges + [m], steps + [s], |dist|)
    requires ClosestNow(dist, merges, steps, s)
    requires m.height == Positive(D2(dist, merges, steps, s.a, s.b))
    ensures ClosestAt(dist, merges + [m], steps + [s], |steps|)
  {
    hide D2, Closer;
    var n, k := |dist|, |steps|;
    forall u: nat ensures Alive(steps + [s], n, k, u) <==> Alive(steps, n, k, u) {
      AlivePrefix(steps, s, n, k, u);
    }
    D2Prefix(dist, merges, steps, m, s, s.a, s.b);
    forall u, v | 0 <= u < v && Alive(steps, n, k, u) && Alive(steps, n, k, v)
      ensures !Closer(dist, merges + [m], steps + [s], u, v, s.a, s.b)
    {
      CloserPrefix(dist, merges, steps, m, s, u, v, s.a, s.b);
    }
  }

  lemma GrownMore(merges: seq<Merge>, steps: seq<Step>, n: nat, m: Merge, s: Step)
    requires Grown(merges, steps, n) && Tree(merges + [m], steps + [s], n)
    requires s.a != s.b && Alive(steps, n, |steps|, s.a) && Alive(steps, n, |steps|, s.b)
    requires Union(m.members, Leaves(merges, n, s.a), Leaves(merges, n, s.b))
    ensures Grown(merges + [m], steps + [s], n)
  {
    hide Union;
    var all, allSteps := merges + [m], steps + [s];
    forall k | 0 <= k < |allSteps| ensures GrownAt(all, allSteps, n, k) {
      var t := allSteps[k];
      assert k < |steps| ==> GrownAt(merges, steps, n, k) && t == steps[k] && all[k] == merges[k];
      AlivePrefix(steps, s, n, k, t.a);
      AlivePrefix(steps, s, n, k, t.b);
      LeavesPrefix(merges, n, m, t.a);
      LeavesPrefix(merges, n, m, t.b);
    }
  }

  // --- Lexicographic order ---------------------------------------------------------------

  lemma LexTransitive(x: seq<nat>, y: seq<nat>, z: seq<nat>)
    requires LexLess(x, y) && LexLess(y, z)
    ensures LexLess(x, z)
  {
    var i :| LexLessAt(x, y, i);
    var j :| LexLessAt(y, z, j);
    var l := if i < j then i else j;
    assert x[..l] == x[..i][..l] == y[..i][..l] == y[..l];
    assert y[..l] == y[..j][..l] == z[..j][..l] == z[..l];
    assert LexLessAt(x, z, l);
  }

  lemma LexAsymmetric(x: seq<nat>, y: seq<nat>, i: int)
    requires 0 <= i <= |x| && i <= |y| && x[..i] == y[..i]
    requires i == |y| || (i < |x| && x[i] > y[i])
    ensures !LexLess(x, y)
  {
    forall j ensures !LexLessAt(x, y, j) {
      if 0 <= j < i {
        assert x[j] == x[..i][j] && y[j] == y[..i][j];
      } else if i < j <= |x| && j <= |y| {
        DifferAt(x, y, i, j);
      }
    }
  }

  lemma DifferAt(x: seq<nat>, y: seq<nat>, i: nat, j: nat)
    requires i < j <= |x| && j <= |y|
    ensures x[i] != y[i] ==> x[..j] != y[..j]
  {
    assert x[..j][i] == x[i] && y[..j][i] == y[i];
  }

  /** Orders two pairs of clusters by their member lists. */
  method LessMembers(a1: seq<nat>, b1: seq<nat>, a2: seq<nat>, b2: seq<nat>) returns (less: bool)
    ensures less <==> LexLess(a1 + b1, a2 + b2)
  {
    var x, y := a1 + b1, a2 + b2;
    var i := 0;
    while i < |x| && i < |y|
      invariant 0 <= i <= |x| && i <= |y| && x[..i] == y[..i]
    {
      if x[i] != y[i] {
        less := x[i] < y[i];
        if less {
          assert LexLessAt(x, y, i);
        } else {
          LexAsymmetric(x, y, i);
        }
        return;
      }
      i := i + 1;
    }
    less := |x| < |y|;
    if less {
      assert LexLessAt(x, y, i);
    } else {
      LexAsymmetric(x, y, i);
    }
  }

  // --- The closest pair --------------------------------------------------------------------

  /** The state of an agglomeration: distances and member lists by id, and the ids alive. */
  datatype State = State(d2: Matrix, clusters: seq<seq<nat>>, active: seq<nat>) {
    ghost predicate Fits() {
      && Square(d2) && |clusters| == |d2| && Ascending(active)
      && (forall x :: x in active ==> x < |d2|)
    }

    ghost predicate Nearer(a: nat, b: nat, c: nat, d: nat)
      requires Square(d2) && |clusters| == |d2| && a < |d2| && b < |d2| && c < |d2| && d < |d2|
    {
      d2[a][b] < d2[c][d]
      || (d2[a][b] == d2[c][d] && LexLess(clusters[a] + clusters[b], clusters[c] + clusters[d]))
    }

    ghost predicate At(x: int, y: int)
    {
      0 <= x < y < |active|
    }

    /** No pair at positions scanned before (x, y) is nearer than the pair (c, d). */
    ghost predicate Beaten(x: nat, y: nat, c: nat, d: nat)
      requires Fits() && c < |d2| && d < |d2|
    {
      forall i, j :: At(i, j) && (i < x || (i == x && j < y)) ==>
        active[i] < |d2| && active[j] < |d2| && !Nearer(active[i], active[j], c, d)
    }
  }

  lemma NearerTransitive(s: State, a: nat, b: nat, c: nat, d: nat, e: nat, f: nat)
    requires s.Fits() && a < |s.d2| && b < |s.d2| && c < |s.d2| && d < |s.d2| && e < |s.d2| && f < |s.d2|
    requires s.Nearer(a, b, c, d) && s.Nearer(c, d, e, f)
    ensures s.Nearer(a, b, e, f)
  {
    if s.d2[a][b] == s.d2[c][d] == s.d2[e][f] {
      LexTransitive(s.clusters[a] + s.clusters[b], s.clusters[c] + s.clusters[d], s.clusters[e] + s.clusters[f]);
    }
  }

  lemma NotNearerSelf(s: State, a: nat, b: nat)
    requires s.Fits() && a < |s.d2| && b < |s.d2|
    ensures !s.Nearer(a, b, a, b)
  {
    var x := s.clusters[a] + s.clusters[b];
    LexAsymmetric(x, x, |x|);
  }

  /** A nearer pair takes over. */
  lemma TakeOver(s: State, x: nat, y: nat, c: nat, d: nat)
    requires s.Fits() && s.At(x, y) && c < |s.d2| && d < |s.d2| && s.Beaten(x, y, c, d)
    requires s.active[x] < |s.d2| && s.active[y] < |s.d2| && s.Nearer(s.active[x], s.active[y], c, d)
    ensures s.Beaten(x, y + 1, s.active[x], s.active[y])
  {
    var a, b := s.active[x], s.active[y];
    forall i, j | s.At(i, j) && (i < x || (i == x && j < y + 1))
      ensures s.active[i] < |s.d2| && s.active[j] < |s.d2| && !s.Nearer(s.active[i], s.active[j], a, b)
    {
      if i == x && j == y {
        NotNearerSelf(s, a, b);
      } else if s.Nearer(s.active[i], s.active[j], a, b) {
        NearerTransitive(s, s.active[i], s.active[j], a, b, c, d);
      }
    }
  }

  lemma FirstPair(s: State)
    requires s.Fits() && s.At(0, 1) && s.active[0] < |s.d2| && s.active[1] < |s.d2|
    ensures s.Beaten(0, 2, s.active[0], s.active[1])
  {
    NotNearerSelf(s, s.active[0], s.active[1]);
  }

  lemma KeepBest(s: State, x: nat, y: nat, c: nat, d: nat)
    requires s.Fits() && s.At(x, y) && c < |s.d2| && d < |s.d2| && s.Beaten(x, y, c, d)
    requires s.active[x] < |s.d2| && s.active[y] < |s.d2| && !s.Nearer(s.active[x], s.active[y], c, d)
    ensures s.Beaten(x, y + 1, c, d)
  {
  }

  lemma StartRow(s: State, x: nat, c: nat, d: nat)
    requires s.Fits() && c < |s.d2| && d < |s.d2| && s.Beaten(x, 0, c, d)
    ensures s.Beaten(x, x + 1, c, d)
  {
  }

  lemma EndRow(s: State, x: nat, c: nat, d: nat)
    requires s.Fits() && c < |s.d2| && d < |s.d2| && s.Beaten(x, |s.active|, c, d)
    ensures s.Beaten(x + 1, 0, c, d)
  {
  }

  lemma ReadNearer(s: State, a: nat, b: nat, c: nat, d: nat)
    requires s.Fits() && a < |s.d2| && b < |s.d2| && c < |s.d2| && d < |s.d2|
    ensures s.d2[a][b] < s.d2[c][d] ==> s.Nearer(a, b, c, d)
    ensures s.d2[a][b] > s.d2[c][d] ==> !s.Nearer(a, b, c, d)
    ensures s.d2[a][b] == s.d2[c][d] ==>
      s.Nearer(a, b, c, d) == LexLess(s.clusters[a] + s.clusters[b], s.clusters[c] + s.clusters[d])
  {
  }

  method ClosestPair(s: State) returns (bi: nat, bj: nat, ghost p: nat, ghost q: nat)
    requires s.Fits() && |s.active| > 1
    ensures s.At(p, q) && bi == s.active[p] && bj == s.active[q]
    ensures bi < |s.d2| && bj < |s.d2| && s.Beaten(|s.active|, 0, bi, bj)
  {
    hide State.Nearer, State.Beaten, Ascending;
    var found := false;
    bi, bj, p, q := 0, 0, 0, 0;
    var x := 0;
    while x < |s.active|
      invariant 0 <= x <= |s.active| && (found <==> x > 0)
      invariant found ==> s.At(p, q) && bi == s.active[p] && bj == s.active[q]
      invariant found ==> bi < |s.d2| && bj < |s.d2| && s.Beaten(x, 0, bi, bj)
    {
      var y := x + 1;
      if found {
        StartRow(s, x, bi, bj);
      }
      while y < |s.active|
        invariant x < y <= |s.active| && (found <==> x > 0 || y > 1)
        invariant found ==> s.At(p, q) && bi == s.active[p] && bj == s.active[q]
        invariant found ==> bi < |s.d2| && bj < |s.d2| && s.Beaten(x, y, bi, bj)
      {
        var a, b := s.active[x], s.active[y];
        assert a in s.active && b in s.active;
        if !found {
          FirstPair(s);
          found, bi, bj, p, q := true, a, b, x, y;
        } else {
          var less := false;
          if s.d2[a][b] == s.d2[bi][bj] {
            less := LessMembers(s.clusters[a], s.clusters[b], s.clusters[bi], s.clusters[bj]);
          }
          ReadNearer(s, a, b, bi, bj);
          if s.d2[a][b] < s.d2[bi][bj] || less {
            TakeOver(s, x, y, bi, bj);
            bi, bj, p, q := a, b, x, y;
          } else {
            KeepBest(s, x, y, bi, bj);
          }
        }
        y := y + 1;
      }
      EndRow(s, x, bi, bj);
      x := x + 1;
    }
  }

  // --- What the tables hold -----------------------------------------------------------------

  ghost predicate TablesAre(n: nat, merges: seq<Merge>, st: State) {
    && |st.d2| == n + |merges| && Square(st.d2) && |st.clusters| == |st.d2|
    && forall u :: 0 <= u < |st.clusters| ==> st.clusters[u] == Leaves(merges, n, u)
  }

  ghost predicate ActiveAre(n: nat, steps: seq<Step>, active: seq<nat>) {
    Ascending(active) && |active| + |steps| == n
    && forall x: nat :: x in active <==> Alive(steps, n, |steps|, x)
  }

  ghost predicate BothAlive(steps: seq<Step>, n: nat, u: nat, v: nat) {
    u != v && Alive(steps, n, |steps|, u) && Alive(steps, n, |steps|, v)
  }

  ghost predicate DistancesAre(dist: Matrix, merges: seq<Merge>, steps: seq<Step>, d2: Matrix)
    requires Square(dist) && Tree(merges, steps, |dist|) && Square(d2) && |d2| == |dist| + |merges|
  {
    forall u, v :: 0 <= u < |d2| && 0 <= v < |d2| && BothAlive(steps, |dist|, u, v) ==>
      d2[u][v] == D2(dist, merges, steps, u, v)
  }

  /** The leaves of an alive id are the ones whose cluster it is. */
  ghost predicate LeavesOf(merges: seq<Merge>, n: nat, u: nat)
    requires u < n + |merges|
  {
    && Ascending(Leaves(merges, n, u)) && Leaves(merges, n, u) != []
    && forall i: nat :: i in Leaves(merges, n, u) <==> i < n && ClusterOf(merges, n, |merges|, i) == u
  }

  ghost predicate LeavesAre(merges: seq<Merge>, steps: seq<Step>, n: nat)
    requires |merges| == |steps|
  {
    forall u: nat :: Alive(steps, n, |steps|, u) ==> LeavesOf(merges, n, u)
  }

  /** Merge `m` takes in exactly the leaves of the two ids of step `s`. */
  ghost predicate Unites(merges: seq<Merge>, n: nat, m: Merge, s: Step)
    requires s.a < n + |merges| && s.b < n + |merges|
  {
    && Ascending(m.members) && |m.members| == m.size && m.members != []
    && m.size == |Leaves(merges, n, s.a)| + |Leaves(merges, n, s.b)|
    && forall i: nat :: i in m.members <==> i in Leaves(merges, n, s.a) || i in Leaves(merges, n, s.b)
  }

  lemma AliveMore(steps: seq<Step>, n: nat, s: Step, u: nat)
    requires s.a < n + |steps| && s.b < n + |steps|
    ensures Alive(steps + [s], n, |steps| + 1, u) <==>
      (u == n + |steps| && Earlier(steps, u)) || (Alive(steps, n, |steps|, u) && u != s.a && u != s.b)
  {
    var all := steps + [s];
    assert all[|steps|] == s && forall j :: 0 <= j < |steps| ==> all[j] == steps[j];
  }

  /** No step mentions `u`. */
  ghost predicate Earlier(steps: seq<Step>, u: nat) {
    forall j :: 0 <= j < |steps| ==> steps[j].a != u && steps[j].b != u
  }

  lemma NewLeaves(merges: seq<Merge>, n: nat, m: Merge, s: Step)
    requires s.a < n + |merges| && s.b < n + |merges| && Unites(merges, n, m, s)
    requires LeavesOf(merges, n, s.a) && LeavesOf(merges, n, s.b)
    ensures LeavesOf(merges + [m], n, n + |merges|)
  {
    var k, all := |merges|, merges + [m];
    forall i: nat ensures i in m.members <==> i < n && ClusterOf(all, n, k + 1, i) == n + k {
      ClusterOfPrefix(merges, m, n, k, i);
      if i < n {
        ClusterOfBound(merges, n, k, i);
      }
    }
  }

  lemma OldLeaves(merges: seq<Merge>, n: nat, m: Merge, s: Step, u: nat)
    requires s.a < n + |merges| && s.b < n + |merges| && Unites(merges, n, m, s)
    requires LeavesOf(merges, n, s.a) && LeavesOf(merges, n, s.b)
    requires u < n + |merges| && LeavesOf(merges, n, u) && u != s.a && u != s.b
    ensures LeavesOf(merges + [m], n, u)
  {
    var k, all := |merges|, merges + [m];
    forall i: nat ensures i in Leaves(merges, n, u) <==> i < n && ClusterOf(all, n, k + 1, i) == u {
      ClusterOfPrefix(merges, m, n, k, i);
    }
    assert Leaves(all, n, u) == Leaves(merges, n, u);
  }

  lemma LeavesMore(merges: seq<Merge>, steps: seq<Step>, n: nat, m: Merge, s: Step)
    requires |merges| == |steps| && LeavesAre(merges, steps, n)
    requires Alive(steps, n, |steps|, s.a) && Alive(steps, n, |steps|, s.b) && Unites(merges, n, m, s)
    ensures LeavesAre(merges + [m], steps + [s], n)
  {
    hide LeavesOf, Unites;
    forall u: nat | Alive(steps + [s], n, |steps| + 1, u) ensures LeavesOf(merges + [m], n, u) {
      AliveMore(steps, n, s, u);
      if u == n + |steps| {
        NewLeaves(merges, n, m, s);
      } else {
        OldLeaves(merges, n, m, s, u);
      }
    }
  }

  lemma AgglomeratesMore(merges: seq<Merge>, n: nat, m: Merge, s: Step)
    requires Agglomerates(merges, n) && s.a != s.b
    requires s.a < n + |merges| && s.b < n + |merges| && Unites(merges, n, m, s)
    requires LeavesOf(merges, n, s.a) && LeavesOf(merges, n, s.b)
    ensures Agglomerates(merges + [m], n)
  {
    hide Agglomerates, ClusterOf;
    var x, y := Leaves(merges, n, s.a)[0], Leaves(merges, n, s.b)[0];
    assert x in Leaves(merges, n, s.a) && y in Leaves(merges, n, s.b);
    assert ClusterOf(merges, n, |merges|, x) == s.a && ClusterOf(merges, n, |merges|, y) == s.b;
    AppendMerge(merges, m, n, s.a, s.b);
  }

  /** The new row: Lance-Williams distances to the ids that stay alive. */
  ghost predicate RowIs(st: State, row: seq<real>, a: nat, b: nat)
    requires st.Fits() && a < |st.d2| && b < |st.d2|
  {
    && |row| == |st.d2| + 1
    && forall v: nat :: v in st.active && v != a && v != b ==>
         |st.clusters[a]| + |st.clusters[b]| + |st.clusters[v]| > 0 && row[v] == NewDistance(st, a, b, v)
  }

  ghost function NewDistance(st: State, a: nat, b: nat, v: nat): real
    requires Square(st.d2) && |st.clusters| == |st.d2| && a < |st.d2| && b < |st.d2| && v < |st.d2|
    requires |st.clusters[a]| + |st.clusters[b]| + |st.clusters[v]| > 0
  {
    LanceWilliams(|st.clusters[a]|, |st.clusters[b]|, |st.clusters[v]|, st.d2[a][v], st.d2[b][v], st.d2[a][b])
  }

  /** `d2` with the new row as its last row and last column. */
  ghost predicate Bordered(d2: Matrix, row: seq<real>, d2': Matrix)
    requires Square(d2) && |row| == |d2| + 1
  {
    && |d2'| == |row| && Square(d2')
    && (forall u, v :: 0 <= u < |d2| && 0 <= v < |d2| ==> d2'[u][v] == d2[u][v])
    && (forall v :: 0 <= v < |d2| ==> d2'[v][|d2|] == row[v] && d2'[|d2|][v] == row[v])
  }

  lemma DistancesMore(dist: Matrix, merges: seq<Merge>, steps: seq<Step>, st: State, m: Merge, s: Step,
                      row: seq<real>, d2: Matrix)
    requires Square(dist) && Tree(merges, steps, |dist|) && Tree(merges + [m], steps + [s], |dist|)
    requires st.Fits() && TablesAre(|dist|, merges, st) && ActiveAre(|dist|, steps, st.active)
    requires DistancesAre(dist, merges, steps, st.d2) && s.a in st.active && s.b in st.active && s.a != s.b
    requires RowIs(st, row, s.a, s.b) && |row| == |st.d2| + 1 && Bordered(st.d2, row, d2)
    ensures DistancesAre(dist, merges + [m], steps + [s], d2)
  {
    hide D2, RowIs, TablesAre, Alive, Leaves;
    var n, all, allSteps := |dist|, merges + [m], steps + [s];
    assert |st.d2| == n + |merges| by { TableSizes(n, merges, st); }
    forall u, v | 0 <= u < |d2| && 0 <= v < |d2| && BothAlive(allSteps, n, u, v)
      ensures d2[u][v] == D2(dist, all, allSteps, u, v)
    {
      TreeSteps(merges, steps, n, m, s);
      AliveMore(steps, n, s, u);
      AliveMore(steps, n, s, v);
      if u == n + |steps| {
        NewDistanceIs(dist, merges, steps, st, m, s, row, v);
      } else if v == n + |steps| {
        NewDistanceIs(dist, merges, steps, st, m, s, row, u);
      } else {
        assert BothAlive(steps, n, u, v);
        D2Prefix(dist, merges, steps, m, s, u, v);
      }
    }
  }

  lemma TableSizes(n: nat, merges: seq<Merge>, st: State)
    requires TablesAre(n, merges, st)
    ensures |st.d2| == n + |merges|
  {
  }

  lemma TreeSteps(merges: seq<Merge>, steps: seq<Step>, n: nat, m: Merge, s: Step)
    requires Tree(merges + [m], steps + [s], n)
    ensures s.a < n + |steps| && s.b < n + |steps|
  {
    assert (steps + [s])[|steps|] == s;
  }

  lemma NewDistanceIs(dist: Matrix, merges: seq<Merge>, steps: seq<Step>, st: State, m: Merge, s: Step,
                      row: seq<real>, v: nat)
    requires Square(dist) && Tree(merges, steps, |dist|) && Tree(merges + [m], steps + [s], |dist|)
    requires |merges| == |steps|
    requires st.Fits() && TablesAre(|dist|, merges, st) && ActiveAre(|dist|, steps, st.active)
    requires DistancesAre(dist, merges, steps, st.d2) && s.a in st.active && s.b in st.active && s.a != s.b
    requires RowIs(st, row, s.a, s.b) && v in st.active && v != s.a && v != s.b
    ensures v < |dist| + |steps| && v < |row|
    ensures row[v] == D2(dist, merges + [m], steps + [s], |dist| + |steps|, v)
    ensures row[v] == D2(dist, merges + [m], steps + [s], v, |dist| + |steps|)
  {
    hide LanceWilliams, Ascending, D2, Tree, Alive, ActiveAre, TablesAre, DistancesAre, RowIs, Leaves;
    ReadTables(|dist|, merges, steps, st, s.a, s.b, v);
    ReadDistance(dist, merges, steps, st.d2, s.a, v);
    ReadDistance(dist, merges, steps, st.d2, s.b, v);
    ReadDistance(dist, merges, steps, st.d2, s.a, s.b);
    ReadRow(st, row, s.a, s.b, v);
    NewD2(dist, merges, steps, m, s, v);
  }

  lemma ReadTables(n: nat, merges: seq<Merge>, steps: seq<Step>, st: State, a: nat, b: nat, v: nat)
    requires |merges| == |steps| && st.Fits() && TablesAre(n, merges, st) && ActiveAre(n, steps, st.active)
    requires a in st.active && b in st.active && a != b && v in st.active && v != a && v != b
    ensures |st.d2| == n + |steps| && a < n + |steps| && b < n + |steps| && v < n + |steps|
    ensures BothAlive(steps, n, a, v) && BothAlive(steps, n, b, v) && BothAlive(steps, n, a, b)
    ensures st.clusters[a] == Leaves(merges, n, a) && st.clusters[b] == Leaves(merges, n, b)
    ensures st.clusters[v] == Leaves(merges, n, v)
  {
  }

  lemma ReadDistance(dist: Matrix, merges: seq<Merge>, steps: seq<Step>, d2: Matrix, u: nat, v: nat)
    requires Square(dist) && Tree(merges, steps, |dist|) && Square(d2) && |d2| == |dist| + |merges|
    requires DistancesAre(dist, merges, steps, d2) && BothAlive(steps, |dist|, u, v) && u < |d2| && v < |d2|
    ensures d2[u][v] == D2(dist, merges, steps, u, v)
  {
    hide D2;
  }

  lemma ReadRow(st: State, row: seq<real>, a: nat, b: nat, v: nat)
    requires st.Fits() && a < |st.d2| && b < |st.d2| && RowIs(st, row, a, b)
    requires v in st.active && v != a && v != b && v < |st.d2|
    ensures v < |row| && |st.clusters[a]| + |st.clusters[b]| + |st.clusters[v]| > 0
    ensures row[v] == LanceWilliams(|st.clusters[a]|, |st.clusters[b]|, |st.clusters[v]|,
                                    st.d2[a][v], st.d2[b][v], st.d2[a][b])
  {
    hide LanceWilliams;
  }

  lemma NewD2(dist: Matrix, merges: seq<Merge>, steps: seq<Step>, m: Merge, s: Step, v: nat)
    requires Square(dist) && Tree(merges, steps, |dist|) && Tree(merges + [m], steps + [s], |dist|)
    requires v < |dist| + |steps| && s.a < |dist| + |steps| && s.b < |dist| + |steps|
    ensures |Leaves(merges, |dist|, v)| > 0
    ensures D2(dist, merges + [m], steps + [s], |dist| + |steps|, v) == LanceWilliams(
      |Leaves(merges, |dist|, s.a)|, |Leaves(merges, |dist|, s.b)|, |Leaves(merges, |dist|, v)|,
      D2(dist, merges, steps, s.a, v), D2(dist, merges, steps, s.b, v), D2(dist, merges, steps, s.a, s.b))
    ensures D2(dist, merges + [m], steps + [s], v, |dist| + |steps|)
         == D2(dist, merges + [m], steps + [s], |dist| + |steps|, v)
  {
    hide LanceWilliams;
    var n, all, allSteps := |dist|, merges + [m], steps + [s];
    assert allSteps[|steps|] == s;
    D2Prefix(dist, merges, steps, m, s, s.a, v);
    D2Prefix(dist, merges, steps, m, s, s.b, v);
    D2Prefix(dist, merges, steps, m, s, s.a, s.b);
    assert Leaves(all, n, s.a) == Leaves(merges, n, s.a) && Leaves(all, n, s.b) == Leaves(merges, n, s.b);
    assert Leaves(all, n, v) == Leaves(merges, n, v);
  }

  // --- The loop -------------------------------------------------------------------------------

  method NewRow(st: State, a: nat, b: nat) returns (row: seq<real>)
    requires st.Fits() && a in st.active && b in st.active
    requires forall u :: 0 <= u < |st.clusters| ==> st.clusters[u] != []
    ensures RowIs(st, row, a, b)
  {
    hide LanceWilliams, Ascending;
    row := seq(|st.d2| + 1, _ => 0.0);
    for x := 0 to |st.active|
      invariant |row| == |st.d2| + 1
      invariant forall y :: 0 <= y < x && st.active[y] != a && st.active[y] != b ==>
        st.active[y] < |st.d2| && row[st.active[y]] == NewDistance(st, a, b, st.active[y])
    {
      var v := st.active[x];
      assert v in st.active;
      if v != a && v != b {
        row := row[v := LanceWilliams(|st.clusters[a]|, |st.clusters[b]|, |st.clusters[v]|,
                                      st.d2[a][v], st.d2[b][v], st.d2[a][b])];
      }
    }
  }

  /** Appends the row, and each of its entries to the row of its index. */
  method Border(d2: Matrix, row: seq<real>) returns (r: Matrix)
    requires Square(d2) && |row| == |d2| + 1
    ensures Bordered(d2, row, r)
  {
    var n := |d2|;
    r := d2 + [row];
    for i := 0 to n
      invariant |r| == n + 1 && r[n] == row
      invariant forall u :: 0 <= u < i ==> r[u] == d2[u] + [row[u]]
      invariant forall u :: i <= u < n ==> r[u] == d2[u]
    {
      r := r[i := r[i] + [row[i]]];
    }
  }

  /** The members of two clusters with none in common, sorted. */
  method SortedUnion(a: seq<nat>, b: seq<nat>) returns (r: seq<nat>)
    requires Ascending(a) && Ascending(b) && forall x :: !(x in a && x in b)
    ensures Ascending(r) && |r| == |a| + |b| && forall x :: x in r <==> x in a || x in b
  {
    var s := a + b;
    forall i, j | 0 <= i < j < |s| ensures s[i] != s[j] {
      assert s[i] in a || s[i] in b;
      assert i < |a| <= j ==> s[i] in a && s[j] in b;
    }
    r := SortInts(s);
  }

  /** The ids that stay, then the new one. */
  method Retire(active: seq<nat>, a: nat, b: nat, nid: nat, ghost p: nat, ghost q: nat) returns (r: seq<nat>)
    requires Ascending(active) && forall x :: x in active ==> x < nid
    requires p < q < |active| && active[p] == a && active[q] == b
    ensures Ascending(r) && |r| == |active| - 1
    ensures forall x :: x in r <==> x == nid || (x in active && x != a && x != b)
  {
    r := [];
    for i := 0 to |active|
      invariant Ascending(r) && |r| == i - (if p < i then 1 else 0) - (if q < i then 1 else 0)
      invariant forall x :: x in r <==> x in active[..i] && x != a && x != b
    {
      var v := active[i];
      assert active[..i + 1] == active[..i] + [v];
      assert v in active;
      if v != a && v != b {
        forall j | 0 <= j < |r| ensures r[j] < v {
          assert r[j] in r;
        }
        r := r + [v];
      }
    }
    assert active[..|active|] == active;
    forall j | 0 <= j < |r| ensures r[j] < nid {
      assert r[j] in r;
    }
    r := r + [nid];
  }

  /** The tables hold what the history so far says. */
  ghost predicate Reflects(dist: Matrix, merges: seq<Merge>, steps: seq<Step>, st: State)
    requires Square(dist)
  {
    && Greedy(dist, merges, steps) && Grown(merges, steps, |dist|)
    && Agglomerates(merges, |dist|) && LeavesAre(merges, steps, |dist|)
    && st.Fits() && TablesAre(|dist|, merges, st) && ActiveAre(|dist|, steps, st.active)
    && DistancesAre(dist, merges, steps, st.d2)
  }

  lemma Start(dist: Matrix, st: State)
    requires Square(dist) && st.d2 == Halved(dist)
    requires st.clusters == seq(|dist|, i requires 0 <= i < |dist| => [i])
    requires st.active == seq(|dist|, i requires 0 <= i < |dist| => i)
    ensures Reflects(dist, [], [], st)
  {
    hide Square;
    var n := |dist|;
    assert Square(st.d2) by { HalvedSquare(dist); }
    forall x: nat ensures x in st.active <==> Alive([], n, 0, x) {
      if x < n {
        assert st.active[x] == x;
      }
    }
    assert DistancesAre(dist, [], [], st.d2) by { HalvedSquare(dist); }
  }

  function Halved(dist: Matrix): (d2: Matrix)
    requires Square(dist)
  {
    seq(|dist|, i requires 0 <= i < |dist| =>
      seq(|dist|, j requires 0 <= j < |dist| => Half(dist, i, j)))
  }

  function Half(dist: Matrix, i: nat, j: nat): real
    requires Square(dist) && i < |dist| && j < |dist|
  {
    dist[i][j] * dist[i][j] / 2.0
  }

  lemma HalvedSquare(dist: Matrix)
    requires Square(dist)
    ensures Square(Halved(dist)) && |Halved(dist)| == |dist|
    ensures forall i, j :: 0 <= i < |dist| && 0 <= j < |dist| ==> Halved(dist)[i][j] == dist[i][j] * dist[i][j] / 2.0
  {
    forall i, j | 0 <= i < |dist| && 0 <= j < |dist| ensures Halved(dist)[i][j] == Half(dist, i, j) {
    }
  }

  lemma Climbs(s: seq<nat>, i: nat, j: nat)
    requires Ascending(s) && i < j < |s|
    ensures s[i] < s[j]
  {
  }

  lemma Positions(s: seq<nat>, i: nat, j: nat)
    requires Ascending(s) && i < |s| && j < |s| && s[i] < s[j]
    ensures i < j
  {
  }

  /** The pair the scan kept is the closest pair alive. */
  lemma KeptIsClosest(dist: Matrix, merges: seq<Merge>, steps: seq<Step>, st: State, p: nat, q: nat)
    requires Square(dist) && Reflects(dist, merges, steps, st) && st.At(p, q)
    requires st.active[p] < |st.d2| && st.active[q] < |st.d2|
    requires st.Beaten(|st.active|, 0, st.active[p], st.active[q])
    ensures ClosestNow(dist, merges, steps, Step(st.active[p], st.active[q]))
  {
    hide D2, LexLess, ClosestAt, Agglomerates, LeavesAre, State.Nearer, Closer, Ascending;
    Climbs(st.active, p, q);
    var a, b := st.active[p], st.active[q];
    assert a in st.active && b in st.active;
    forall u, v | 0 <= u < v && Alive(steps, |dist|, |steps|, u) && Alive(steps, |dist|, |steps|, v)
      ensures u < |st.d2| && v < |st.d2| && !Closer(dist, merges, steps, u, v, a, b)
    {
      assert u in st.active && v in st.active;
      var i :| 0 <= i < |st.active| && st.active[i] == u;
      var j :| 0 <= j < |st.active| && st.active[j] == v;
      assert i < j by { Positions(st.active, i, j); }
      assert st.At(i, j);
      SameOrder(dist, merges, steps, st, u, v, a, b);
    }
  }

  lemma SameOrder(dist: Matrix, merges: seq<Merge>, steps: seq<Step>, st: State, u: nat, v: nat, a: nat, b: nat)
    requires Square(dist) && Tree(merges, steps, |dist|) && st.Fits() && TablesAre(|dist|, merges, st)
    requires DistancesAre(dist, merges, steps, st.d2)
    requires u < |st.d2| && v < |st.d2| && a < |st.d2| && b < |st.d2|
    requires BothAlive(steps, |dist|, u, v) && BothAlive(steps, |dist|, a, b)
    ensures st.Nearer(u, v, a, b) == Closer(dist, merges, steps, u, v, a, b)
  {
    hide D2, LexLess, Leaves;
  }

  lemma NextTables(n: nat, merges: seq<Merge>, st: State, m: Merge, st': State)
    requires TablesAre(n, merges, st) && Square(st'.d2) && |st'.d2| == |st.d2| + 1
    requires st'.clusters == st.clusters + [m.members]
    ensures TablesAre(n, merges + [m], st')
  {
    hide Square;
    var all := merges + [m];
    forall u | 0 <= u < |st'.clusters| ensures st'.clusters[u] == Leaves(all, n, u) {
      if u < |st.clusters| {
        assert Leaves(all, n, u) == Leaves(merges, n, u);
      }
    }
  }

  lemma NextActive(n: nat, merges: seq<Merge>, steps: seq<Step>, s: Step, active: seq<nat>, active': seq<nat>)
    requires Tree(merges, steps, n) && ActiveAre(n, steps, active)
    requires s.a < n + |steps| && s.b < n + |steps|
    requires Ascending(active') && |active'| == |active| - 1
    requires forall x :: x in active' <==> x == n + |steps| || (x in active && x != s.a && x != s.b)
    ensures ActiveAre(n, steps + [s], active')
  {
    hide Ascending;
    assert Earlier(steps, n + |steps|);
    forall x: nat ensures x in active' <==> Alive(steps + [s], n, |steps| + 1, x) {
      AliveMore(steps, n, s, x);
    }
  }

  lemma NextState(dist: Matrix, merges: seq<Merge>, steps: seq<Step>, st: State, m: Merge, s: Step, st': State,
                  row: seq<real>)
    requires Square(dist) && Reflects(dist, merges, steps, st) && ClosestNow(dist, merges, steps, s)
    requires s.a in st.active && s.b in st.active && s.a < s.b
    requires Unites(merges, |dist|, m, s) && m.height == Positive(st.d2[s.a][s.b])
    requires RowIs(st, row, s.a, s.b) && |row| == |st.d2| + 1 && Bordered(st.d2, row, st'.d2)
    requires st'.clusters == st.clusters + [m.members]
    requires Ascending(st'.active) && |st'.active| == |st.active| - 1
    requires forall x :: x in st'.active <==> x == |st.d2| || (x in st.active && x != s.a && x != s.b)
    ensures Reflects(dist, merges + [m], steps + [s], st')
  {
    hide D2, Agglomerates, Ascending, RowIs, ClosestNow, LeavesOf, Closer, ClosestAt;
    var n := |dist|;
    assert BothAlive(steps, n, s.a, s.b);
    GreedyMore(dist, merges, steps, m, s);
    assert Union(m.members, Leaves(merges, n, s.a), Leaves(merges, n, s.b)) by {
      Apart(merges, n, s.a, s.b);
    }
    GrownMore(merges, steps, n, m, s);
    AgglomeratesMore(merges, n, m, s);
    LeavesMore(merges, steps, n, m, s);
    DistancesMore(dist, merges, steps, st, m, s, row, st'.d2);
    NextTables(n, merges, st, m, st');
    NextActive(n, merges, steps, s, st.active, st'.active);
  }

  /** Two alive clusters have no leaf in common. */
  lemma Apart(merges: seq<Merge>, n: nat, a: nat, b: nat)
    requires a < n + |merges| && b < n + |merges| && a != b && LeavesOf(merges, n, a) && LeavesOf(merges, n, b)
    ensures forall x :: !(x in Leaves(merges, n, a) && x in Leaves(merges, n, b))
  {
    hide ClusterOf;
  }

  lemma ReadPair(dist: Matrix, merges: seq<Merge>, steps: seq<Step>, st: State, p: nat, q: nat)
    requires Square(dist) && Reflects(dist, merges, steps, st) && st.At(p, q)
    ensures var a, b := st.active[p], st.active[q];
      && a in st.active && b in st.active && a < b < |dist| + |merges|
      && LeavesOf(merges, |dist|, a) && LeavesOf(merges, |dist|, b)
      && st.clusters[a] == Leaves(merges, |dist|, a) && st.clusters[b] == Leaves(merges, |dist|, b)
  {
    hide Square, Greedy, Agglomerates, LeavesOf, DistancesAre;
    var a, b := st.active[p], st.active[q];
    assert a in st.active && b in st.active;
    assert Alive(steps, |dist|, |steps|, a) && Alive(steps, |dist|, |steps|, b);
  }

  lemma NonEmptyClusters(dist: Matrix, merges: seq<Merge>, steps: seq<Step>, st: State)
    requires Square(dist) && Reflects(dist, merges, steps, st)
    ensures forall u :: 0 <= u < |st.clusters| ==> st.clusters[u] != []
  {
    hide Square, Agglomerates, LeavesAre, DistancesAre, ActiveAre, ClosestAt;
  }

  /** The n - 1 merges: an agglomeration of the leaves in which every merge joins a closest
      pair, so that on a symmetric matrix heights never decrease. */
  method Ward(dist: Matrix) returns (merges: seq<Merge>, ghost steps: seq<Step>)
    requires Square(dist)
    ensures |merges| == if |dist| < 2 then 0 else |dist| - 1
    ensures Agglomerates(merges, |dist|) && Greedy(dist, merges, steps) && Grown(merges, steps, |dist|)
    ensures Symmetric(dist) ==> NeverDecrease(merges)
  {
    hide Agglomerates, Greedy, LeavesAre, TablesAre, DistancesAre, Ascending, State.Beaten, NewDistance, Bordered;
    hide ClusterOf, ClosestNow, Leaves, Halved;
    var n := |dist|;
    merges, steps := [], [];
    var st := State(Halved(dist), seq(n, i requires 0 <= i < n => [i]), seq(n, i requires 0 <= i < n => i));
    Start(dist, st);
    while |st.active| > 1
      invariant Reflects(dist, merges, steps, st) && |merges| == |steps|
      invariant n < 2 ==> merges == []
      invariant n >= 1 ==> |st.active| >= 1
    {
      var bi, bj, p, q := ClosestPair(st);
      ReadPair(dist, merges, steps, st, p, q);
      KeptIsClosest(dist, merges, steps, st, p, q);
      NonEmptyClusters(dist, merges, steps, st);
      Apart(merges, n, bi, bj);
      var merged := SortedUnion(st.clusters[bi], st.clusters[bj]);
      var row := NewRow(st, bi, bj);
      var d2 := Border(st.d2, row);
      var active := Retire(st.active, bi, bj, |st.d2|, p, q);
      ghost var s := Step(bi, bj);
      var m := Merge(Positive(st.d2[bi][bj]), |st.clusters[bi]| + |st.clusters[bj]|, merged);
      var next := State(d2, st.clusters + [merged], active);
      NextState(dist, merges, steps, st, m, s, next, row);
      merges, steps, st := merges + [m], steps + [s], next;
    }
    if Symmetric(dist) {
      GreedyNeverDecreases(dist, merges, steps);
    }
  }
}
