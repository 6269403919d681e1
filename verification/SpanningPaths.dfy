/** What the spanning tree says about the graph it spans: vertices that edges no heavier than a
    bound join are joined by such edges of the tree. */
module SpanningPaths {
  import opened Reachability
  import opened Prim

  /** Edges of the tree no heavier than `t` join vertices with one group. */
  ghost predicate Closed(group: seq<nat>, edges: seq<TreeEdge>, t: real) {
    forall e :: e in edges && e.weight <= t ==> Agree(group, e.a, e.b)
  }

  ghost predicate Agree(group: seq<nat>, a: nat, b: nat) {
    a < |group| && b < |group| && group[a] == group[b]
  }

  lemma NotBefore(order: seq<nat>, i: nat, j: nat)
    requires Distinct(order) && i <= j < |order|
    ensures order[j] !in order[..i]
  {
  }

  /** An edge between two vertices outweighs every tree edge added between them. */
  lemma LightBetween(g: Graph, order: seq<nat>, up: seq<nat>, edges: seq<TreeEdge>, i: nat, j: nat, q: nat)
    requires g.Valid() && Grown(g, order, up, edges) && i <= q < j < |order|
    ensures edges[q].weight <= g.W(order[i], order[j])
  {
    hide Graph.Valid, Graph.W;
    assert Lightest(g, order, up, edges, q + 1);
    NotBefore(order, q + 1, j);
  }

  /** Tree edges no heavier than `t` link every vertex from position `i` to `j`. */
  lemma {:induction false} Chain(g: Graph, order: seq<nat>, up: seq<nat>, edges: seq<TreeEdge>, group: seq<nat>,
                                 t: real, i: nat, j: nat)
    requires g.Valid() && Grown(g, order, up, edges) && i <= j < |order|
    requires Closed(group, edges, t) && (forall v :: v in order ==> v < |group|)
    requires forall q :: i <= q < j ==> edges[q].weight <= t
    ensures order[i] < |group| && order[j] < |group| && group[order[i]] == group[order[j]]
    decreases i + j
  {
    hide Graph.Valid, Graph.W, Distinct;
    assert order[i] in order && order[j] in order;
    if i < j {
      var p := up[j];
      assert Lightest(g, order, up, edges, j);
      var last: nat := j - 1;
      var e := edges[last];
      assert e in edges && Agree(group, e.a, e.b);
      if p >= i {
        Chain(g, order, up, edges, group, t, i, p);
      } else {
        forall q | p <= q < i ensures edges[q].weight <= t {
          LightBetween(g, order, up, edges, p, j, q);
        }
        Chain(g, order, up, edges, group, t, p, i);
      }
    }
  }

  ghost predicate Spans(g: Graph, order: seq<nat>) {
    forall v: nat :: v < g.Size() ==> v in order
  }

  lemma EdgeMeans(g: Graph, order: seq<nat>, up: seq<nat>, edges: seq<TreeEdge>, group: seq<nat>, t: real, u: nat,
                  v: nat)
    requires g.Valid() && Grown(g, order, up, edges) && Spans(g, order)
    requires Closed(group, edges, t) && |group| >= g.Size()
    requires u < g.Size() && v < g.Size() && g.Edge(t, u, v)
    ensures group[u] == group[v]
  {
    hide Graph.Valid, Graph.W, Distinct, Lightest, Closed;
    assert u in order && v in order;
    var i, j := Position(order, u), Position(order, v);
    var lo, hi := if i < j then i else j, if i < j then j else i;
    WSymmetric(g, u, v);
    forall q | lo <= q < hi ensures edges[q].weight <= t {
      LightBetween(g, order, up, edges, lo, hi, q);
    }
    Chain(g, order, up, edges, group, t, lo, hi);
  }

  /** Labels closed under light tree edges are closed under every light walk. */
  lemma {:induction false} WalkMeans(g: Graph, order: seq<nat>, up: seq<nat>, edges: seq<TreeEdge>, group: seq<nat>,
                                     t: real, p: seq<nat>)
    requires g.Valid() && Grown(g, order, up, edges) && Spans(g, order)
    requires Closed(group, edges, t) && |group| >= g.Size() && g.Walk(t, p)
    ensures group[p[0]] == group[p[|p| - 1]]
  {
    hide Graph.Valid, Grown, Closed, Spans, Graph.Edge;
    if |p| > 1 {
      var rest := p[1..];
      forall a | 0 <= a < |rest| - 1 ensures g.Edge(t, rest[a], rest[a + 1]) {
        var b := a + 1;
        assert g.Edge(t, p[b], p[b + 1]);
      }
      WalkMeans(g, order, up, edges, group, t, rest);
      assert g.Edge(t, p[0], p[0 + 1]);
      EdgeMeans(g, order, up, edges, group, t, p[0], p[1]);
    }
  }

  lemma JoinedMeans(g: Graph, order: seq<nat>, up: seq<nat>, edges: seq<TreeEdge>, group: seq<nat>, t: real, u: nat,
                    v: nat)
    requires g.Valid() && Grown(g, order, up, edges) && Spans(g, order)
    requires Closed(group, edges, t) && |group| >= g.Size() && g.Joined(t, u, v)
    ensures u < |group| && v < |group| && group[u] == group[v]
  {
    hide Graph.Valid, Grown, Closed, Spans;
    var p :| g.Walk(t, p) && p[0] == u && p[|p| - 1] == v;
    WalkMeans(g, order, up, edges, group, t, p);
  }

  // --- The tree has no cycles ----------------------------------------------------------------

  ghost predicate Upward(up: seq<nat>) {
    forall i :: 1 <= i < |up| ==> up[i] < i
  }

  /** Position `i` is position `j` or hangs below it. */
  ghost predicate Hangs(up: seq<nat>, j: nat, i: nat)
    requires Upward(up) && i < |up|
    decreases i
  {
    i == j || (j < i && Hangs(up, j, up[i]))
  }

  lemma HangsParent(up: seq<nat>, j: nat, i: nat)
    requires Upward(up) && 1 <= i < |up| && i != j
    ensures Hangs(up, j, i) <==> Hangs(up, j, up[i])
  {
  }

  ghost function Position(order: seq<nat>, v: nat): (i: nat)
    requires v in order
    ensures i < |order| && order[i] == v
  {
    var i :| 0 <= i < |order| && order[i] == v;
    i
  }

  /** Vertex `v` is in the part of the tree that edge `e` leads to. */
  ghost predicate Beyond(order: seq<nat>, up: seq<nat>, e: TreeEdge, v: nat)
  {
    && Upward(up) && |order| == |up| && e.b in order && v in order
    && Hangs(up, Position(order, e.b), Position(order, v))
  }

  lemma PositionIs(order: seq<nat>, i: nat)
    requires Distinct(order) && i < |order|
    ensures order[i] in order && Position(order, order[i]) == i
  {
  }

  lemma TreeEdgeAt(g: Graph, order: seq<nat>, up: seq<nat>, edges: seq<TreeEdge>, e: TreeEdge)
    requires g.Valid() && Grown(g, order, up, edges) && e in edges
    ensures e.a in order && e.b in order && e.a < g.Size() && e.b < g.Size() && e.a != e.b
    ensures e.weight == g.W(e.a, e.b)
    ensures Position(order, e.b) >= 1 && Position(order, e.a) == up[Position(order, e.b)]
  {
    hide Graph.Valid, Graph.W;
    var q :| 0 <= q < |edges| && edges[q] == e;
    var i: nat := q + 1;
    assert Lightest(g, order, up, edges, i);
    PositionIs(order, i);
    PositionIs(order, up[i]);
  }

  /** An edge separates its two ends, and no other edge crosses where it leads. */
  lemma Separates(g: Graph, order: seq<nat>, up: seq<nat>, edges: seq<TreeEdge>, e: TreeEdge, f: TreeEdge)
    requires g.Valid() && Grown(g, order, up, edges) && e in edges && f in edges
    ensures Beyond(order, up, e, e.b) && !Beyond(order, up, e, e.a)
    ensures e.b != f.b ==> (Beyond(order, up, e, f.a) <==> Beyond(order, up, e, f.b))
  {
    hide Graph.Valid, Graph.W, Lightest;
    TreeEdgeAt(g, order, up, edges, e);
    TreeEdgeAt(g, order, up, edges, f);
    if e.b != f.b {
      HangsParent(up, Position(order, e.b), Position(order, f.b));
    }
  }
}
