/** Ward distances in closed form: what the Lance-Williams updates compute on a symmetric matrix. */
module WardDistance {
  import opened Dendrogram
  import opened Distances
  import opened Ward

  // --- Sums of squared distances -----------------------------------------------------------

  ghost function Square2(dist: Matrix, i: nat, j: nat): real
    requires Square(dist) && i < |dist| && j < |dist|
  {
    dist[i][j] * dist[i][j]
  }

  /** From `i` to those of `y` that are below `m`. */
  ghost function Row(dist: Matrix, i: nat, y: seq<nat>, m: nat): real
    requires Square(dist) && i < |dist| && m <= |dist|
  {
    if m == 0 then 0.0
    else Row(dist, i, y, m - 1) + if m - 1 in y then Square2(dist, i, m - 1) else 0.0
  }

  /** From those of `x` below `k` to those of `y` below `m`. */
  ghost function Between(dist: Matrix, x: seq<nat>, y: seq<nat>, k: nat, m: nat): real
    requires Square(dist) && k <= |dist| && m <= |dist|
  {
    if k == 0 then 0.0
    else Between(dist, x, y, k - 1, m) + if k - 1 in x then Row(dist, k - 1, y, m) else 0.0
  }

  /** Over the pairs of `x` below `k`, each once. */
  ghost function Within(dist: Matrix, x: seq<nat>, k: nat): real
    requires Square(dist) && k <= |dist|
  {
    if k == 0 then 0.0
    else Within(dist, x, k - 1) + if k - 1 in x then Row(dist, k - 1, x, k - 1) else 0.0
  }

  ghost function Mean(dist: Matrix, x: seq<nat>): real
    requires Square(dist) && x != []
  {
    Within(dist, x, |dist|) / |x| as real
  }

  /** The squared distances between two clusters, less the spread inside each, taken as often
      as the other has points. */
  ghost function Excess(dist: Matrix, x: seq<nat>, y: seq<nat>): real
    requires Square(dist) && x != [] && y != []
  {
    Between(dist, x, y, |dist|, |dist|) - |y| as real * Mean(dist, x) - |x| as real * Mean(dist, y)
  }

  /** The Ward distance of two clusters, over the distances of their points alone. */
  ghost function WardOf(dist: Matrix, x: seq<nat>, y: seq<nat>): real
    requires Square(dist) && x != [] && y != []
  {
    Excess(dist, x, y) / (|x| as real + |y| as real)
  }

  // --- Sums over a union --------------------------------------------------------------------

  lemma {:induction false} RowUnion(dist: Matrix, i: nat, u: seq<nat>, a: seq<nat>, b: seq<nat>, m: nat)
    requires Square(dist) && i < |dist| && m <= |dist| && Union(u, a, b)
    ensures Row(dist, i, u, m) == Row(dist, i, a, m) + Row(dist, i, b, m)
  {
    if m > 0 {
      RowUnion(dist, i, u, a, b, m - 1);
    }
  }

  lemma {:induction false} BetweenUnion(dist: Matrix, u: seq<nat>, a: seq<nat>, b: seq<nat>, v: seq<nat>, k: nat,
                                        m: nat)
    requires Square(dist) && k <= |dist| && m <= |dist| && Union(u, a, b)
    ensures Between(dist, u, v, k, m) == Between(dist, a, v, k, m) + Between(dist, b, v, k, m)
  {
    if k > 0 {
      BetweenUnion(dist, u, a, b, v, k - 1, m);
    }
  }

  /** One more column. */
  lemma {:induction false} BetweenColumn(dist: Matrix, x: seq<nat>, y: seq<nat>, k: nat, m: nat)
    requires Square(dist) && Symmetric(dist) && k <= |dist| && m < |dist|
    ensures Between(dist, x, y, k, m + 1) == Between(dist, x, y, k, m) + if m in y then Row(dist, m, x, k) else 0.0
  {
    if k > 0 {
      BetweenColumn(dist, x, y, k - 1, m);
      assert dist[k - 1][m] == dist[m][k - 1];
    }
  }

  lemma {:induction false} BetweenTurned(dist: Matrix, x: seq<nat>, y: seq<nat>, k: nat, m: nat)
    requires Square(dist) && Symmetric(dist) && k <= |dist| && m <= |dist|
    ensures Between(dist, x, y, k, m) == Between(dist, y, x, m, k)
  {
    if k == 0 {
      NoColumns(dist, y, x, m);
    } else {
      BetweenTurned(dist, x, y, k - 1, m);
      BetweenColumn(dist, y, x, m, k - 1);
    }
  }

  lemma {:induction false} NoColumns(dist: Matrix, x: seq<nat>, y: seq<nat>, k: nat)
    requires Square(dist) && k <= |dist|
    ensures Between(dist, x, y, k, 0) == 0.0
  {
    if k > 0 {
      NoColumns(dist, x, y, k - 1);
    }
  }

  lemma {:induction false} WithinUnion(dist: Matrix, u: seq<nat>, a: seq<nat>, b: seq<nat>, k: nat)
    requires Square(dist) && Symmetric(dist) && k <= |dist| && Union(u, a, b)
    ensures Within(dist, u, k) == Within(dist, a, k) + Within(dist, b, k) + Between(dist, a, b, k, k)
  {
    if k > 0 {
      WithinUnion(dist, u, a, b, k - 1);
      RowUnion(dist, k - 1, u, a, b, k - 1);
      BetweenColumn(dist, a, b, k - 1, k - 1);
      LastRow(dist, a, b, k);
    }
  }

  lemma LastRow(dist: Matrix, a: seq<nat>, b: seq<nat>, k: nat)
    requires Square(dist) && Symmetric(dist) && 0 < k <= |dist| && (k - 1 in a ==> k - 1 !in b)
    ensures Between(dist, a, b, k, k) ==
            Between(dist, a, b, k - 1, k) + if k - 1 in a then Row(dist, k - 1, b, k - 1) else 0.0
  {
  }

  // --- Lance-Williams -----------------------------------------------------------------------

  /** `d` is what the sums between and the mean spreads within two clusters give. */
  ghost predicate Costs(d: real, p: real, q: real, between: real, meanX: real, meanY: real) {
    (p + q) * d == between - q * meanX - p * meanY
  }

  lemma CostsUnion(p: real, q: real, r: real, dAV: real, dBV: real, dAB: real, dUV: real, sAV: real, sBV: real,
                   sAB: real, mA: real, mB: real, mV: real, mU: real)
    requires p > 0.0 && q > 0.0 && r > 0.0
    requires Costs(dAV, p, r, sAV, mA, mV) && Costs(dBV, q, r, sBV, mB, mV) && Costs(dAB, p, q, sAB, mA, mB)
    requires (p + q) * mU == p * mA + q * mB + sAB
    requires (p + q + r) * dUV == (p + r) * dAV + (q + r) * dBV - r * dAB
    ensures Costs(dUV, p + q, r, sAV + sBV, mU, mV)
  {
    var w := p + q;
    calc {
      w * ((p + q + r) * dUV);
      w * (sAV - r * mA - p * mV + sBV - r * mB - q * mV - r * dAB);
      { Spread(w, sAV + sBV, r, mA, mB, p, q, mV, dAB); }
      w * (sAV + sBV) - r * (w * mA) - r * (w * mB) - w * (w * mV) - r * (w * dAB);
      w * (sAV + sBV) - r * (w * mA) - r * (w * mB) - w * (w * mV) - r * (sAB - q * mA - p * mB);
      { Collect(w, r, mA, mB, p, q, sAB); }
      w * (sAV + sBV) - w * (w * mV) - r * (p * mA + q * mB + sAB);
      w * (sAV + sBV) - w * (w * mV) - r * (w * mU);
      { Factor(w, sAV + sBV, w * mV, r, mU); }
      w * (sAV + sBV - w * mV - r * mU);
    }
    Cancel(w, (p + q + r) * dUV, sAV + sBV - w * mV - r * mU);
  }

  lemma Spread(w: real, s: real, r: real, mA: real, mB: real, p: real, q: real, mV: real, d: real)
    requires w == p + q
    ensures w * (s - r * mA - p * mV - r * mB - q * mV - r * d)
         == w * s - r * (w * mA) - r * (w * mB) - w * (w * mV) - r * (w * d)
  {
    assert p * mV + q * mV == w * mV;
    assert w * (r * mA) == r * (w * mA) && w * (r * mB) == r * (w * mB) && w * (r * d) == r * (w * d);
    var t := r * mA + r * mB + w * mV + r * d;
    assert w * (s - t) == w * s - w * t;
    assert w * t == w * (r * mA) + w * (r * mB) + w * (w * mV) + w * (r * d);
  }

  lemma Collect(w: real, r: real, mA: real, mB: real, p: real, q: real, s: real)
    requires w == p + q
    ensures r * (w * mA) + r * (w * mB) + r * (s - q * mA - p * mB) == r * (p * mA + q * mB + s)
  {
    assert w * mA == p * mA + q * mA && w * mB == p * mB + q * mB;
    assert w * mA + w * mB + (s - q * mA - p * mB) == p * mA + q * mB + s;
  }

  lemma Factor(w: real, s: real, v: real, r: real, m: real)
    ensures w * s - w * v - r * (w * m) == w * (s - v - r * m)
  {
    assert r * (w * m) == w * (r * m);
  }

  lemma Cancel(w: real, x: real, y: real)
    requires w > 0.0 && w * x == w * y
    ensures x == y
  {
    assert w * (x - y) == 0.0;
  }

  lemma WardCosts(dist: Matrix, x: seq<nat>, y: seq<nat>, d: real)
    requires Square(dist) && x != [] && y != []
    ensures d == WardOf(dist, x, y) <==>
      Costs(d, |x| as real, |y| as real, Between(dist, x, y, |dist|, |dist|), Mean(dist, x), Mean(dist, y))
  {
    hide *;
    WardIs(dist, x, y);
    CostsIs(dist, x, y, d);
    Divides(d, |x| as real + |y| as real, Excess(dist, x, y));
  }

  lemma WardIs(dist: Matrix, x: seq<nat>, y: seq<nat>)
    requires Square(dist) && x != [] && y != []
    ensures |x| as real + |y| as real > 0.0
    ensures WardOf(dist, x, y) == Excess(dist, x, y) / (|x| as real + |y| as real)
  {
    hide Excess;
  }

  lemma CostsIs(dist: Matrix, x: seq<nat>, y: seq<nat>, d: real)
    requires Square(dist) && x != [] && y != []
    ensures Costs(d, |x| as real, |y| as real, Between(dist, x, y, |dist|, |dist|), Mean(dist, x), Mean(dist, y)) <==>
            (|x| as real + |y| as real) * d == Excess(dist, x, y)
  {
    hide Between, Mean;
  }

  lemma Divides(d: real, s: real, top: real)
    requires s > 0.0
    ensures d == top / s <==> s * d == top
  {
    if s * d == top {
      Cancel(s, d, top / s);
    }
  }

  // --- Over a history -----------------------------------------------------------------------

  ghost predicate Together(steps: seq<Step>, n: nat, k: nat, u: nat, v: nat)
    requires k <= |steps|
  {
    u != v && Alive(steps, n, k, u) && Alive(steps, n, k, v)
  }

  lemma SomeLeaves(merges: seq<Merge>, steps: seq<Step>, n: nat, u: nat)
    requires Tree(merges, steps, n) && u < n + |merges|
    ensures Leaves(merges, n, u) != []
  {
  }

  lemma Singles(dist: Matrix, u: nat, v: nat)
    requires Square(dist) && u < |dist| && v < |dist| && u != v
    ensures WardOf(dist, [u], [v]) == dist[u][v] * dist[u][v] / 2.0
  {
    hide WardOf;
    OnePair(dist, u, v, |dist|, |dist|);
    OneWithin(dist, u, |dist|);
    OneWithin(dist, v, |dist|);
    WardCosts(dist, [u], [v], dist[u][v] * dist[u][v] / 2.0);
  }

  lemma {:induction false} OneRow(dist: Matrix, i: nat, v: nat, m: nat)
    requires Square(dist) && i < |dist| && v < |dist| && m <= |dist|
    ensures Row(dist, i, [v], m) == if v < m then Square2(dist, i, v) else 0.0
  {
    if m > 0 {
      OneRow(dist, i, v, m - 1);
    }
  }

  lemma {:induction false} OnePair(dist: Matrix, u: nat, v: nat, k: nat, m: nat)
    requires Square(dist) && u < |dist| && v < |dist| && k <= |dist| && m <= |dist|
    ensures Between(dist, [u], [v], k, m) == if u < k && v < m then Square2(dist, u, v) else 0.0
  {
    if k > 0 {
      OnePair(dist, u, v, k - 1, m);
      OneRow(dist, k - 1, v, m);
    }
  }

  lemma {:induction false} OneWithin(dist: Matrix, u: nat, k: nat)
    requires Square(dist) && u < |dist| && k <= |dist|
    ensures Within(dist, [u], k) == 0.0
  {
    if k > 0 {
      OneWithin(dist, u, k - 1);
      OneRow(dist, k - 1, u, k - 1);
    }
  }

  lemma WardTurned(dist: Matrix, x: seq<nat>, y: seq<nat>)
    requires Square(dist) && Symmetric(dist) && x != [] && y != []
    ensures WardOf(dist, x, y) == WardOf(dist, y, x)
  {
    hide Between, Mean, Symmetric;
    BetweenTurned(dist, x, y, |dist|, |dist|);
  }

  /** The Lance-Williams update keeps Ward distances what they are. */
  lemma UpdateIsWard(dist: Matrix, a: seq<nat>, b: seq<nat>, u: seq<nat>, v: seq<nat>)
    requires Square(dist) && Symmetric(dist) && a != [] && b != [] && v != [] && Union(u, a, b)
    ensures |a| + |b| + |v| > 0 && u != []
    ensures LanceWilliams(|a|, |b|, |v|, WardOf(dist, a, v), WardOf(dist, b, v), WardOf(dist, a, b)) ==
      WardOf(dist, u, v)
  {
    hide WardOf, Union, Symmetric, Between, Within, Costs;
    var n, p, q, r := |dist|, |a| as real, |b| as real, |v| as real;
    var dAV, dBV, dAB := WardOf(dist, a, v), WardOf(dist, b, v), WardOf(dist, a, b);
    UnionSize(u, a, b);
    WardCosts(dist, a, v, dAV);
    WardCosts(dist, b, v, dBV);
    WardCosts(dist, a, b, dAB);
    BetweenUnion(dist, u, a, b, v, n, n);
    WithinUnion(dist, u, a, b, n);
    var dUV := LanceWilliams(|a|, |b|, |v|, dAV, dBV, dAB);
    UpdateTimes(|a|, |b|, |v|, dAV, dBV, dAB);
    MeanTimes(dist, u);
    MeanTimes(dist, a);
    MeanTimes(dist, b);
    WardCosts(dist, u, v, dUV);
    hide *;
    CostsUnion(p, q, r, dAV, dBV, dAB, dUV, Between(dist, a, v, n, n), Between(dist, b, v, n, n), Between(dist, a,
      b, n, n),
               Mean(dist, a), Mean(dist, b), Mean(dist, v), Mean(dist, u));
  }

  lemma UnionSize(u: seq<nat>, a: seq<nat>, b: seq<nat>)
    requires Union(u, a, b) && a != []
    ensures u != [] && |u| == |a| + |b| && |u| as real == |a| as real + |b| as real
  {
  }

  lemma MeanTimes(dist: Matrix, x: seq<nat>)
    requires Square(dist) && x != []
    ensures |x| as real * Mean(dist, x) == Within(dist, x, |dist|)
  {
    hide Within;
  }

  lemma UpdateTimes(na: nat, nb: nat, nv: nat, av: real, bv: real, ab: real)
    requires na > 0 && nb > 0 && nv > 0
    ensures (na as real + nb as real + nv as real) * LanceWilliams(na, nb, nv, av, bv, ab)
         == (na as real + nv as real) * av + (nb as real + nv as real) * bv - nv as real * ab
  {
    assert (na + nb + nv) as real == na as real + nb as real + nv as real;
    assert (na + nv) as real == na as real + nv as real && (nb + nv) as real == nb as real + nv as real;
    var top := (na + nv) as real * av + (nb + nv) as real * bv - nv as real * ab;
    Divides(top / (na + nb + nv) as real, (na + nb + nv) as real, top);
  }

  /** On a symmetric matrix, the distance that the updates give two clusters that are there
      together is their Ward distance. */
  lemma {:induction false} D2IsWard(dist: Matrix, merges: seq<Merge>, steps: seq<Step>, k: nat, u: nat, v: nat)
    requires Square(dist) && Symmetric(dist) && Grown(merges, steps, |dist|)
    requires k <= |steps| && Together(steps, |dist|, k, u, v)
    ensures Leaves(merges, |dist|, u) != [] && Leaves(merges, |dist|, v) != []
    ensures D2(dist, merges, steps, u, v) == WardOf(dist, Leaves(merges, |dist|, u), Leaves(merges, |dist|, v))
    decreases if u < v then v else u, if u < v then 1 else 0
  {
    hide WardOf, Symmetric, LanceWilliams, Union;
    var n := |dist|;
    SomeLeaves(merges, steps, n, u);
    SomeLeaves(merges, steps, n, v);
    if u < n && v < n {
      Singles(dist, u, v);
    } else if u < v {
      D2IsWard(dist, merges, steps, k, v, u);
      WardTurned(dist, Leaves(merges, n, u), Leaves(merges, n, v));
    } else {
      var j := u - n;
      var a, b := steps[j].a, steps[j].b;
      assert GrownAt(merges, steps, n, j);
      assert Together(steps, n, j, a, v) && Together(steps, n, j, b, v) && Together(steps, n, j, a, b);
      D2IsWard(dist, merges, steps, j, a, v);
      D2IsWard(dist, merges, steps, j, b, v);
      D2IsWard(dist, merges, steps, j, a, b);
      D2Unfold(dist, merges, steps, u, v);
      UpdateIsWard(dist, Leaves(merges, n, a), Leaves(merges, n, b), merges[j].members, Leaves(merges, n, v));
    }
  }

  /** At merge `k` no two clusters there are closer in Ward distance than the two it joins, ties
      going by their leaves, and the height is that distance, or zero if that is less. */
  ghost predicate NearestByWard(dist: Matrix, merges: seq<Merge>, steps: seq<Step>, k: nat)
    requires Square(dist) && Grown(merges, steps, |dist|) && k < |steps|
  {
    var n := |dist|;
    var x, y := Leaves(merges, n, steps[k].a), Leaves(merges, n, steps[k].b);
    && x != [] && y != []
    && merges[k].height == (if WardOf(dist, x, y) > 0.0 then WardOf(dist, x, y) else 0.0)
    && forall u, v :: 0 <= u < v && Alive(steps, n, k, u) && Alive(steps, n, k, v) ==>
         NoNearer(dist, Leaves(merges, n, u), Leaves(merges, n, v), x, y)
  }

  ghost predicate NoNearer(dist: Matrix, p: seq<nat>, q: seq<nat>, x: seq<nat>, y: seq<nat>)
    requires Square(dist) && x != [] && y != []
  {
    && p != [] && q != [] && WardOf(dist, p, q) >= WardOf(dist, x, y)
    && (WardOf(dist, p, q) == WardOf(dist, x, y) ==> !LexLess(p + q, x + y))
  }

  /** On a symmetric matrix, what the agglomeration merges is nearest in Ward distance. */
  lemma GreedyIsWard(dist: Matrix, merges: seq<Merge>, steps: seq<Step>, k: nat)
    requires Square(dist) && Symmetric(dist) && Greedy(dist, merges, steps) && Grown(merges, steps, |dist|)
    requires k < |steps|
    ensures NearestByWard(dist, merges, steps, k)
  {
    hide D2, WardOf, LexLess, Leaves, Symmetric;
    var n, a, b := |dist|, steps[k].a, steps[k].b;
    assert ClosestAt(dist, merges, steps, k);
    assert Together(steps, n, k, a, b);
    D2IsWard(dist, merges, steps, k, a, b);
    forall u, v | 0 <= u < v && Alive(steps, n, k, u) && Alive(steps, n, k, v)
      ensures NoNearer(dist, Leaves(merges, n, u), Leaves(merges, n, v), Leaves(merges, n, a), Leaves(merges, n, b))
    {
      assert !Closer(dist, merges, steps, u, v, a, b) && Together(steps, n, k, u, v);
      D2IsWard(dist, merges, steps, k, u, v);
    }
  }
}
