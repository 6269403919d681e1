/** Prim's algorithm from vertex 0, with ties to the smallest vertex. */
module Prim {
  import opened Reachability

  datatype TreeEdge = TreeEdge(a: nat, b: nat, weight: real)

  ghost predicate Distinct(s: seq<nat>) {
    forall i, j :: 0 <= i < j < |s| ==> s[i] != s[j]
  }

  /** Vertex `order[i]` was reached from `order[up[i]]` by the lightest edge leaving the
      vertices before it. */
  ghost predicate Lightest(g: Graph, order: seq<nat>, up: seq<nat>, edges: seq<TreeEdge>, i: nat)
    requires g.Valid() && Indexed(g, order, up, edges) && 1 <= i < |order|
  {
    && edges[i - 1] == TreeEdge(order[up[i]], order[i], g.W(order[up[i]], order[i]))
    && forall x, v :: 0 <= x < i && 0 <= v < g.Size() && v !in order[..i] ==> g.W(order[x], v) >= edges[i - 1].weight
  }

  ghost predicate Indexed(g: Graph, order: seq<nat>, up: seq<nat>, edges: seq<TreeEdge>) {
    && |order| == |up| == |edges| + 1
    && (forall i :: 0 <= i < |order| ==> order[i] < g.Size())
    && forall i :: 1 <= i < |up| ==> up[i] < i
  }

  ghost predicate Grown(g: Graph, order: seq<nat>, up: seq<nat>, edges: seq<TreeEdge>)
    requires g.Valid()
  {
    && Indexed(g, order, up, edges) && Distinct(order) && order[0] == 0
    && forall i :: 1 <= i < |order| ==> Lightest(g, order, up, edges, i)
  }

  // --- Counting vertices -------------------------------------------------------------------

  ghost function Below(n: nat): (s: set<nat>)
    ensures |s| == n && forall v: nat :: v in s <==> v < n
  {
    if n == 0 then {} else Below(n - 1) + {n - 1}
  }

  lemma {:induction false} DistinctSize(s: seq<nat>, all: set<nat>)
    requires Distinct(s) && forall v :: v in all <==> v in s
    ensures |all| == |s|
  {
    if s == [] {
      assert all == {};
    } else {
      var rest := s[1..];
      assert s == [s[0]] + rest;
      forall j | 0 <= j < |rest| ensures rest[j] != s[0] {
        assert s[j + 1] == rest[j];
      }
      DistinctSize(rest, all - {s[0]});
    }
  }

  /** Fewer than `n` vertices leave one out; `n` distinct ones are all of them. */
  lemma Covered(order: seq<nat>, n: nat)
    requires Distinct(order) && forall i :: 0 <= i < |order| ==> order[i] < n
    ensures |order| <= n && ((forall v: nat :: v < n ==> v in order) <==> |order| == n)
  {
    var all := set v | v in order;
    DistinctSize(order, all);
    SubsetSize(all, Below(n));
    if |order| == n {
      assert all == Below(n);
    }
    if forall v: nat :: v < n ==> v in order {
      assert Below(n) <= all;
      SubsetSize(Below(n), all);
    }
  }

  // --- The loop -------------------------------------------------------------------------------

  /** The cheapest known edge from the tree to each vertex outside it. */
  ghost predicate Keyed(g: Graph, order: seq<nat>, key: seq<real>, parent: seq<nat>, v: nat)
    requires g.Valid() && v < |key| == |parent| == g.Size()
    requires forall i :: 0 <= i < |order| ==> order[i] < g.Size()
  {
    && key[v] >= 0.0 && parent[v] in order && parent[v] < g.Size() && key[v] == g.W(parent[v], v)
    && forall x :: 0 <= x < |order| ==> key[v] <= g.W(order[x], v)
  }

  ghost predicate AllKeyed(g: Graph, order: seq<nat>, inTree: seq<bool>, key: seq<real>, parent: seq<nat>)
    requires g.Valid()
  {
    && |inTree| == |key| == |parent| == g.Size()
    && (forall i :: 0 <= i < |order| ==> order[i] < g.Size())
    && forall v :: 0 <= v < g.Size() ==> (inTree[v] <==> v in order) && (!inTree[v] ==> Keyed(g, order, key, parent, v))
  }

  method NearestOutside(inTree: array<bool>, key: array<real>) returns (best: nat)
    requires inTree.Length == key.Length
    requires exists v :: 0 <= v < key.Length && !inTree[v] && key[v] >= 0.0
    ensures best < key.Length && !inTree[best] && key[best] >= 0.0
    ensures forall v :: 0 <= v < key.Length && !inTree[v] && key[v] >= 0.0 ==>
      key[best] < key[v] || (key[best] == key[v] && best <= v)
  {
    var found, bestW := false, 0.0;
    best := 0;
    for v := 0 to key.Length
      invariant !found ==> forall u :: 0 <= u < v ==> inTree[u] || key[u] < 0.0
      invariant found ==> best < v && !inTree[best] && key[best] >= 0.0 && bestW == key[best]
      invariant found ==> forall u :: 0 <= u < v && !inTree[u] && key[u] >= 0.0 ==>
        key[best] < key[u] || (key[best] == key[u] && best <= u)
    {
      if !(inTree[v] || key[v] < 0.0) {
        if !found || key[v] < bestW || (key[v] == bestW && v < best) {
          found, best, bestW := true, v, key[v];
        }
      }
    }
  }

  method Relax(g: Graph, inTree: array<bool>, key: array<real>, parent: array<nat>, best: nat, ghost order: seq<nat>)
    requires g.Valid() && inTree.Length == key.Length == parent.Length == g.Size() && best < g.Size()
    requires forall i :: 0 <= i < |order| ==> order[i] < g.Size()
    requires forall v :: 0 <= v < g.Size() ==> (inTree[v] <==> v in order + [best])
    requires forall v :: 0 <= v < g.Size() && !inTree[v] ==> Keyed(g, order, key[..], parent[..], v)
    modifies key, parent
    ensures AllKeyed(g, order + [best], inTree[..], key[..], parent[..])
  {
    hide Graph.Valid, Graph.W;
    ghost var order' := order + [best];
    for v := 0 to |g.dist|
      invariant forall u :: 0 <= u < v && !inTree[u] ==> Keyed(g, order', key[..], parent[..], u)
      invariant forall u :: v <= u < g.Size() && !inTree[u] ==> Keyed(g, order, key[..], parent[..], u)
    {
      if !inTree[v] {
        assert Keyed(g, order, key[..], parent[..], v);
        var w := g.W(best, v);
        ghost var key0, parent0 := key[..], parent[..];
        if key[v] < 0.0 || w < key[v] {
          WNonNegative(g, best, v, order');
          key[v] := w;
          parent[v] := best;
        }
        forall u | 0 <= u < g.Size() && u != v
          ensures Keyed(g, order, key[..], parent[..], u) <==> Keyed(g, order, key0, parent0, u)
          ensures Keyed(g, order', key[..], parent[..], u) <==> Keyed(g, order', key0, parent0, u)
        {
        }
        assert Keyed(g, order', key[..], parent[..], v);
      }
    }
  }

  lemma WNonNegative(g: Graph, a: nat, v: nat, order: seq<nat>)
    requires g.Valid() && a < g.Size() && v < g.Size() && a in order && v !in order
    ensures g.W(a, v) >= 0.0
  {
    WSymmetric(g, a, v);
  }

  lemma SomeOutside(g: Graph, order: seq<nat>, inTree: seq<bool>, key: seq<real>, parent: seq<nat>)
    requires g.Valid() && Distinct(order) && |order| < g.Size() && AllKeyed(g, order, inTree, key, parent)
    ensures exists v :: 0 <= v < g.Size() && !inTree[v] && key[v] >= 0.0
  {
    hide Graph.Valid;
    Covered(order, g.Size());
    var v: nat :| v < g.Size() && v !in order;
    assert Keyed(g, order, key, parent, v);
  }

  /** The nearest vertex outside the tree is reached by the lightest edge leaving it. */
  lemma GrownMore(g: Graph, order: seq<nat>, up: seq<nat>, edges: seq<TreeEdge>, inTree: seq<bool>, key: seq<real>,
                  parent: seq<nat>, best: nat, at: nat)
    requires g.Valid() && Grown(g, order, up, edges) && AllKeyed(g, order, inTree, key, parent)
    requires best < g.Size() && !inTree[best] && at < |order| && order[at] == parent[best]
    requires forall v :: 0 <= v < g.Size() && !inTree[v] && key[v] >= 0.0 ==> key[best] <= key[v]
    ensures Grown(g, order + [best], up + [at], edges + [TreeEdge(parent[best], best, key[best])])
  {
    hide Graph.Valid, Graph.W;
    var order', up', edges' := order + [best], up + [at], edges + [TreeEdge(parent[best], best, key[best])];
    assert Keyed(g, order, key, parent, best);
    forall i | 1 <= i < |order'| ensures Lightest(g, order', up', edges', i) {
      if i < |order| {
        assert Lightest(g, order, up, edges, i);
        assert order'[..i] == order[..i];
      } else {
        assert order'[..i] == order;
        forall x, v | 0 <= x < i && 0 <= v < g.Size() && v !in order ensures g.W(order'[x], v) >= key[best] {
          assert Keyed(g, order, key, parent, v);
        }
      }
    }
  }

  lemma FirstKeys(g: Graph, inTree: seq<bool>, key: seq<real>, parent: seq<nat>)
    requires g.Valid() && |inTree| == |key| == |parent| == g.Size() && g.Size() > 0
    requires forall v :: 0 <= v < g.Size() ==> (inTree[v] <==> v == 0)
    requires forall v :: 1 <= v < g.Size() ==> key[v] == g.W(0, v) && parent[v] == 0
    ensures AllKeyed(g, [0], inTree, key, parent) && Grown(g, [0], [0], [])
  {
    hide Graph.W;
    forall v | 0 <= v < g.Size() && !inTree[v] ensures Keyed(g, [0], key, parent, v) {
      WSymmetric(g, 0, v);
    }
  }

  lemma OrderDistinct(g: Graph, order: seq<nat>, up: seq<nat>, edges: seq<TreeEdge>)
    requires g.Valid() && Grown(g, order, up, edges)
    ensures Distinct(order)
  {
  }

  lemma FindParent(g: Graph, order: seq<nat>, inTree: seq<bool>, key: seq<real>, parent: seq<nat>, best: nat)
    returns (at: nat)
    requires g.Valid() && AllKeyed(g, order, inTree, key, parent) && best < g.Size() && !inTree[best]
    ensures at < |order| && order[at] == parent[best]
  {
    hide Graph.Valid;
    assert Keyed(g, order, key, parent, best);
    at :| 0 <= at < |order| && order[at] == parent[best];
  }

  /** The edges reach every vertex, each by a lightest edge that leaves those before it. */
  ghost predicate IsSpanningTree(g: Graph, edges: seq<TreeEdge>)
    requires g.Valid()
  {
    exists order, up :: Grown(g, order, up, edges) && |order| == g.Size()
  }

  /** The spanning tree's edges, in the order Prim's algorithm adds them. */
  method SpanningTree(g: Graph) returns (edges: seq<TreeEdge>)
    requires g.Valid() && g.Size() > 0
    ensures IsSpanningTree(g, edges)
  {
    hide Graph.Valid, Graph.W, Keyed, Grown;
    var n := |g.dist|;
    var inTree := new bool[n](_ => false);
    var key := new real[n](_ => -1.0);
    var parent := new nat[n](_ => 0);
    inTree[0] := true;
    for j := 1 to n
      invariant forall v :: 1 <= v < j ==> key[v] == g.W(0, v) && parent[v] == 0
      invariant forall v :: 0 <= v < n ==> (inTree[v] <==> v == 0)
    {
      key[j] := g.W(0, j);
      parent[j] := 0;
    }
    edges := [];
    ghost var order: seq<nat>, up: seq<nat> := [0], [0];
    FirstKeys(g, inTree[..], key[..], parent[..]);
    while |edges| < n - 1
      invariant |order| == |edges| + 1 <= n && Grown(g, order, up, edges)
      invariant AllKeyed(g, order, inTree[..], key[..], parent[..])
    {
      OrderDistinct(g, order, up, edges);
      SomeOutside(g, order, inTree[..], key[..], parent[..]);
      var best := NearestOutside(inTree, key);
      ghost var at := FindParent(g, order, inTree[..], key[..], parent[..], best);
      GrownMore(g, order, up, edges, inTree[..], key[..], parent[..], best, at);
      inTree[best] := true;
      edges := edges + [TreeEdge(parent[best], best, key[best])];
      Relax(g, inTree, key, parent, best, order);
      order, up := order + [best], up + [at];
    }
  }
}
