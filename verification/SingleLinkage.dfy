/** The single-linkage hierarchy: sorted spanning-tree edges, joined by a union-find. */
module SingleLinkage {
  import opened SortedLists
  import opened Reachability
  import opened Prim
  import opened SpanningPaths
  import opened UnionFind

  /** Leaves are nodes 0..n-1, with no children. */
  datatype HNode = HNode(left: int, right: int, dist: real, size: nat)

  // --- Sorting the edges ----------------------------------------------------------------------

  function Low(e: TreeEdge): (v: nat)
    ensures v <= e.a && v <= e.b && (v == e.a || v == e.b)
  {
    if e.a > e.b then e.b else e.a
  }

  function High(e: TreeEdge): (v: nat)
    ensures v >= e.a && v >= e.b && (v == e.a || v == e.b)
  {
    if e.a > e.b then e.a else e.b
  }

  /** By weight, then smaller end, then larger end. */
  predicate EdgeLess(e: TreeEdge, f: TreeEdge) {
    if e.weight != f.weight then e.weight < f.weight
    else if Low(e) != Low(f) then Low(e) < Low(f)
    else High(e) < High(f)
  }

  ghost predicate Sorted(s: seq<TreeEdge>) {
    forall i, j :: 0 <= i < j < |s| ==> !EdgeLess(s[j], s[i])
  }

  /** No two edges lead to one vertex. */
  ghost predicate OneEach(s: seq<TreeEdge>) {
    forall i, j :: 0 <= i < j < |s| ==> s[i].b != s[j].b
  }

  method PlaceEdge(s: seq<TreeEdge>, e: TreeEdge) returns (r: seq<TreeEdge>)
    requires Sorted(s) && OneEach(s) && forall f :: f in s ==> f.b != e.b
    ensures Sorted(r) && OneEach(r) && |r| == |s| + 1 && forall f :: f in r <==> f == e || f in s
  {
    var at := 0;
    while at < |s| && !EdgeLess(e, s[at])
      invariant 0 <= at <= |s| && forall i :: 0 <= i < at ==> !EdgeLess(e, s[i])
    {
      at := at + 1;
    }
    r := s[..at] + [e] + s[at..];
    PlacedAt(s, at, e);
    PlacedSorted(s, at, e, r);
  }

  lemma PlacedSorted(s: seq<TreeEdge>, at: nat, e: TreeEdge, r: seq<TreeEdge>)
    requires Sorted(s) && OneEach(s) && (forall f :: f in s ==> f.b != e.b) && at <= |s|
    requires forall i :: 0 <= i < at ==> !EdgeLess(e, s[i])
    requires at < |s| ==> EdgeLess(e, s[at])
    requires Placed(s, at, e, r)
    ensures Sorted(r) && OneEach(r)
  {
    forall i | at <= i < |s| ensures EdgeLess(e, s[i]) {
      assert i > at ==> !EdgeLess(s[i], s[at]);
    }
    forall i | 0 <= i < |s| ensures s[i].b != e.b {
      assert s[i] in s;
    }
  }

  /** Lighter edges come first; of two equally heavy ones the one with the smaller lower end, and
      then the one with the smaller upper end. */
  lemma SortedByWeight(s: seq<TreeEdge>, i: nat, j: nat)
    requires Sorted(s) && i < j < |s|
    ensures s[i].weight <= s[j].weight
    ensures s[i].weight == s[j].weight ==> Low(s[i]) <= Low(s[j])
    ensures s[i].weight == s[j].weight && Low(s[i]) == Low(s[j]) ==> High(s[i]) <= High(s[j])
  {
  }

  method SortEdges(edges: seq<TreeEdge>) returns (r: seq<TreeEdge>)
    requires OneEach(edges)
    ensures Sorted(r) && OneEach(r) && |r| == |edges| && forall e :: e in r <==> e in edges
  {
    hide Sorted, EdgeLess;
    r := [];
    assert Sorted(r) by { NothingSorted(); }
    for i := 0 to |edges|
      invariant Sorted(r) && OneEach(r) && |r| == i && forall e :: e in r <==> e in edges[..i]
    {
      assert edges[..i + 1] == edges[..i] + [edges[i]];
      r := PlaceEdge(r, edges[i]);
    }
    assert edges[..|edges|] == edges;
  }

  lemma NothingSorted()
    ensures Sorted([])
  {
  }

  // --- The hierarchy --------------------------------------------------------------------------

  ghost predicate Built(nodes: seq<HNode>, n: nat) {
    n <= |nodes| && forall id :: n <= id < |nodes| ==> 0 <= nodes[id].left < id && 0 <= nodes[id].right < id
  }

  /** The leaves under a node. */
  ghost function Under(nodes: seq<HNode>, n: nat, id: nat): set<nat>
    requires Built(nodes, n) && id < |nodes|
    decreases id
  {
    if id < n then {id} else Under(nodes, n, nodes[id].left) + Under(nodes, n, nodes[id].right)
  }

  /** The height of a node is the smallest possible maximum edge weight over the walks
      between a leaf on one side and a leaf on the other. */
  ghost predicate Minimax(g: Graph, h: real, ls: set<nat>, rs: set<nat>)
    requires g.Valid()
  {
    forall u, v :: u in ls && v in rs ==> MinimaxAt(g, h, u, v)
  }

  ghost predicate MinimaxAt(g: Graph, h: real, u: nat, v: nat)
    requires g.Valid()
  {
    g.Joined(h, u, v) && forall t :: g.Joined(t, u, v) ==> h <= t
  }

  ghost predicate LeafOk(nodes: seq<HNode>, id: nat)
    requires id < |nodes|
  {
    nodes[id] == HNode(-1, -1, 0.0, 1)
  }

  ghost predicate JoinOk(g: Graph, nodes: seq<HNode>, id: nat)
    requires g.Valid() && Built(nodes, g.Size()) && g.Size() <= id < |nodes|
  {
    var n, nd := g.Size(), nodes[id];
    && Under(nodes, n, nd.left) !! Under(nodes, n, nd.right)
    && nd.size == |Under(nodes, n, id)|
    && nodes[nd.left].dist <= nd.dist && nodes[nd.right].dist <= nd.dist
    && Minimax(g, nd.dist, Under(nodes, n, nd.left), Under(nodes, n, nd.right))
  }

  ghost predicate NodesOk(g: Graph, nodes: seq<HNode>)
    requires g.Valid()
  {
    && Built(nodes, g.Size())
    && (forall id :: 0 <= id < g.Size() ==> LeafOk(nodes, id))
    && forall id :: g.Size() <= id < |nodes| ==> JoinOk(g, nodes, id)
  }

  lemma {:induction false} UnderPrefix(nodes: seq<HNode>, m: HNode, n: nat, id: nat)
    requires Built(nodes, n) && Built(nodes + [m], n) && id < |nodes|
    ensures Under(nodes + [m], n, id) == Under(nodes, n, id)
    decreases id
  {
    if id >= n {
      UnderPrefix(nodes, m, n, nodes[id].left);
      UnderPrefix(nodes, m, n, nodes[id].right);
    }
  }

  lemma UnderJoin(nodes: seq<HNode>, m: HNode, n: nat)
    requires Built(nodes, n) && Built(nodes + [m], n)
    requires 0 <= m.left < |nodes| && 0 <= m.right < |nodes|
    ensures Under(nodes + [m], n, |nodes|) == Under(nodes, n, m.left) + Under(nodes, n, m.right)
  {
    UnderPrefix(nodes, m, n, m.left);
    UnderPrefix(nodes, m, n, m.right);
  }

  lemma JoinOkPrefix(g: Graph, nodes: seq<HNode>, m: HNode, id: nat)
    requires g.Valid() && Built(nodes, g.Size()) && Built(nodes + [m], g.Size()) && g.Size() <= id < |nodes|
    requires JoinOk(g, nodes, id)
    ensures JoinOk(g, nodes + [m], id)
  {
    hide Graph.Valid, Minimax, Under;
    var n := g.Size();
    UnderPrefix(nodes, m, n, id);
    UnderPrefix(nodes, m, n, nodes[id].left);
    UnderPrefix(nodes, m, n, nodes[id].right);
  }

  /** One more node over two disjoint ones. */
  lemma NodesMore(g: Graph, nodes: seq<HNode>, m: HNode)
    requires g.Valid() && NodesOk(g, nodes) && 0 <= m.left < |nodes| && 0 <= m.right < |nodes|
    requires Under(nodes, g.Size(), m.left) !! Under(nodes, g.Size(), m.right)
    requires m.size == |Under(nodes, g.Size(), m.left)| + |Under(nodes, g.Size(), m.right)|
    requires nodes[m.left].dist <= m.dist && nodes[m.right].dist <= m.dist
    requires Minimax(g, m.dist, Under(nodes, g.Size(), m.left), Under(nodes, g.Size(), m.right))
    ensures NodesOk(g, nodes + [m])
  {
    hide Graph.Valid, Minimax, Under;
    var n, all := g.Size(), nodes + [m];
    assert Built(all, n);
    forall id | n <= id < |all| ensures JoinOk(g, all, id) {
      if id < |nodes| {
        hide JoinOk;
        JoinOkPrefix(g, nodes, m, id);
      } else {
        UnderPrefix(nodes, m, n, m.left);
        UnderPrefix(nodes, m, n, m.right);
        UnderJoin(nodes, m, n);
      }
    }
    forall id | 0 <= id < n ensures LeafOk(all, id) {
      assert LeafOk(nodes, id);
    }
  }

  lemma SizeIs(g: Graph, nodes: seq<HNode>, id: nat)
    requires g.Valid() && NodesOk(g, nodes) && id < |nodes|
    ensures nodes[id].size == |Under(nodes, g.Size(), id)|
  {
    hide Graph.Valid, Minimax;
    if id < g.Size() {
      assert LeafOk(nodes, id);
    } else {
      assert JoinOk(g, nodes, id);
    }
  }

  // --- Representatives are the tops of the trees so far ---------------------------------------

  ghost predicate TopIs(nodes: seq<HNode>, n: nat, root: seq<nat>, id: nat)
    requires Built(nodes, n) && id < |nodes| && n <= |root|
  {
    forall x: nat :: x in Under(nodes, n, id) <==> x < n && root[x] == id
  }

  ghost predicate Tops(nodes: seq<HNode>, n: nat, root: seq<nat>) {
    && Built(nodes, n) && |nodes| <= |root|
    && (forall x :: 0 <= x < n ==> root[x] < |nodes| && root[root[x]] == root[x])
    && (forall id :: 0 <= id < |nodes| && root[id] == id ==> TopIs(nodes, n, root, id))
    && forall id :: |nodes| <= id < |root| ==> root[id] == id
  }

  /** The trees under `a` and `b` hang under `id`. */
  ghost function Regroup(root: seq<nat>, a: nat, b: nat, id: nat): seq<nat> {
    Redirect(Redirect(root, a, id), b, id)
  }

  lemma TopsMore(nodes: seq<HNode>, n: nat, root: seq<nat>, m: HNode)
    requires Tops(nodes, n, root) && |nodes| < |root|
    requires 0 <= m.left < |nodes| && 0 <= m.right < |nodes| && m.left != m.right
    requires root[m.left] == m.left && root[m.right] == m.right
    ensures Tops(nodes + [m], n, Regroup(root, m.left, m.right, |nodes|))
  {
    hide Under;
    var all, id, root' := nodes + [m], |nodes|, Regroup(root, m.left, m.right, |nodes|);
    assert Built(all, n);
    forall i | 0 <= i < |all| && root'[i] == i ensures TopIs(all, n, root', i) {
      if i < |nodes| {
        UnderPrefix(nodes, m, n, i);
        assert TopIs(nodes, n, root, i);
      } else {
        UnderJoin(nodes, m, n);
        assert TopIs(nodes, n, root, m.left) && TopIs(nodes, n, root, m.right);
      }
    }
  }

  // --- What the edges done so far have joined -----------------------------------------------

  ghost predicate Done(root: seq<nat>, sorted: seq<TreeEdge>, k: nat) {
    k <= |sorted| && forall q :: 0 <= q < k ==> Agree(root, sorted[q].a, sorted[q].b)
  }

  ghost predicate Sound(g: Graph, root: seq<nat>, sorted: seq<TreeEdge>, k: nat)
    requires g.Valid() && k <= |sorted|
  {
    g.Size() <= |root| && forall u, v :: 0 <= u < g.Size() && 0 <= v < g.Size() && root[u] == root[v] ==>
      Reached(g, sorted, k, u, v)
  }

  ghost predicate Reached(g: Graph, sorted: seq<TreeEdge>, k: nat, u: nat, v: nat)
    requires g.Valid() && k <= |sorted|
  {
    u == v || (k > 0 && g.Joined(sorted[k - 1].weight, u, v))
  }

  /** What edge `e` leads to is not yet joined to the rest. */
  ghost predicate Unbridged(order: seq<nat>, up: seq<nat>, root: seq<nat>, n: nat, e: TreeEdge)
    requires n <= |root|
  {
    forall u, v :: 0 <= u < n && 0 <= v < n && root[u] == root[v] ==>
      (Beyond(order, up, e, u) <==> Beyond(order, up, e, v))
  }

  ghost predicate Waiting(order: seq<nat>, up: seq<nat>, root: seq<nat>, n: nat, sorted: seq<TreeEdge>, k: nat)
    requires n <= |root|
  {
    forall q :: k <= q < |sorted| ==> Unbridged(order, up, root, n, sorted[q])
  }

  lemma NextDone(root: seq<nat>, sorted: seq<TreeEdge>, k: nat, ra: nat, rb: nat, id: nat)
    requires Done(root, sorted, k) && k < |sorted| && sorted[k].a < |root| && sorted[k].b < |root|
    requires root[sorted[k].a] == ra && root[sorted[k].b] == rb
    ensures Done(Regroup(root, ra, rb, id), sorted, k + 1)
  {
    var root' := Regroup(root, ra, rb, id);
    forall q | 0 <= q < k + 1 ensures Agree(root', sorted[q].a, sorted[q].b) {
      assert q < k ==> Agree(root, sorted[q].a, sorted[q].b);
    }
  }

  lemma NextWaiting(g: Graph, order: seq<nat>, up: seq<nat>, edges: seq<TreeEdge>, root: seq<nat>,
                    sorted: seq<TreeEdge>, k: nat, ra: nat, rb: nat, id: nat)
    requires g.Valid() && Grown(g, order, up, edges) && OneEach(sorted) && (forall e :: e in sorted ==> e in edges)
    requires g.Size() <= |root| && k < |sorted| && Waiting(order, up, root, g.Size(), sorted, k)
    requires sorted[k].a < g.Size() && sorted[k].b < g.Size()
    requires root[sorted[k].a] == ra && root[sorted[k].b] == rb
    requires forall x :: 0 <= x < g.Size() ==> root[x] < id
    ensures Waiting(order, up, Regroup(root, ra, rb, id), g.Size(), sorted, k + 1)
  {
    hide Graph.Valid, Grown, Beyond;
    var n, root', e := g.Size(), Regroup(root, ra, rb, id), sorted[k];
    forall q | k + 1 <= q < |sorted| ensures Unbridged(order, up, root', n, sorted[q]) {
      var f := sorted[q];
      assert f in sorted && e in sorted;
      Separates(g, order, up, edges, f, e);
      assert Unbridged(order, up, root, n, f);
      forall u, v | 0 <= u < n && 0 <= v < n && root'[u] == root'[v]
        ensures Beyond(order, up, f, u) <==> Beyond(order, up, f, v)
      {
        assert root[u] == root[v] || (root[u] == ra && root[v] == rb) || (root[u] == rb && root[v] == ra);
      }
    }
  }

  /** An edge not done yet joins two different trees. */
  lemma TwoTrees(g: Graph, order: seq<nat>, up: seq<nat>, edges: seq<TreeEdge>, root: seq<nat>,
                 sorted: seq<TreeEdge>, k: nat)
    requires g.Valid() && Grown(g, order, up, edges) && (forall e :: e in sorted ==> e in edges)
    requires g.Size() <= |root| && k < |sorted| && Waiting(order, up, root, g.Size(), sorted, k)
    ensures sorted[k].a < g.Size() && sorted[k].b < g.Size() && root[sorted[k].a] != root[sorted[k].b]
    ensures sorted[k].weight >= 0.0 && g.Edge(sorted[k].weight, sorted[k].a, sorted[k].b)
  {
    hide Graph.Valid, Grown, Beyond, Graph.W;
    var e := sorted[k];
    assert e in sorted;
    TreeEdgeAt(g, order, up, edges, e);
    WSymmetric(g, e.a, e.b);
    Separates(g, order, up, edges, e, e);
    assert Unbridged(order, up, root, g.Size(), e);
  }

  lemma Reach(g: Graph, sorted: seq<TreeEdge>, k: nat, u: nat, v: nat)
    requires g.Valid() && k < |sorted| && Sorted(sorted) && Reached(g, sorted, k, u, v) && u < g.Size()
    ensures g.Joined(sorted[k].weight, u, v)
  {
    hide Graph.Valid, Graph.Joined;
    if u == v {
      JoinedSelf(g, sorted[k].weight, u);
    } else {
      assert !EdgeLess(sorted[k], sorted[k - 1]);
      JoinedMonotone(g, sorted[k - 1].weight, sorted[k].weight, u, v);
    }
  }

  /** The trees of the two ends of edge `k` are joined at its weight. */
  lemma Across(g: Graph, root: seq<nat>, sorted: seq<TreeEdge>, k: nat, u: nat, v: nat)
    requires g.Valid() && k < |sorted| && Sorted(sorted) && Sound(g, root, sorted, k)
    requires sorted[k].a < g.Size() && sorted[k].b < g.Size() && g.Edge(sorted[k].weight, sorted[k].a, sorted[k].b)
    requires u < g.Size() && v < g.Size() && root[u] == root[sorted[k].a] && root[v] == root[sorted[k].b]
    ensures g.Joined(sorted[k].weight, u, v) && g.Joined(sorted[k].weight, v, u)
  {
    hide Graph.Valid, Graph.Joined, Graph.Edge, Sorted, Reached;
    var a, b, w := sorted[k].a, sorted[k].b, sorted[k].weight;
    Reach(g, sorted, k, u, a);
    Reach(g, sorted, k, b, v);
    JoinedEdge(g, w, a, b);
    JoinedTransitive(g, w, u, a, b);
    JoinedTransitive(g, w, u, b, v);
    JoinedSymmetric(g, w, u, v);
  }

  lemma NextSound(g: Graph, root: seq<nat>, sorted: seq<TreeEdge>, k: nat, ra: nat, rb: nat, id: nat)
    requires g.Valid() && k < |sorted| && Sorted(sorted) && Sound(g, root, sorted, k)
    requires sorted[k].a < g.Size() && sorted[k].b < g.Size() && g.Edge(sorted[k].weight, sorted[k].a, sorted[k].b)
    requires root[sorted[k].a] == ra && root[sorted[k].b] == rb
    requires forall x :: 0 <= x < g.Size() ==> root[x] < id
    ensures Sound(g, Regroup(root, ra, rb, id), sorted, k + 1)
  {
    hide Graph.Valid, Graph.Joined, Graph.Edge, Sorted;
    var root' := Regroup(root, ra, rb, id);
    forall u, v | 0 <= u < g.Size() && 0 <= v < g.Size() && root'[u] == root'[v]
      ensures Reached(g, sorted, k + 1, u, v)
    {
      if root[u] == root[v] {
        Reach(g, sorted, k, u, v);
      } else if root[u] == ra {
        Across(g, root, sorted, k, u, v);
      } else {
        Across(g, root, sorted, k, v, u);
      }
    }
  }

  /** The edges no heavier than `t` are among those done, when the next is heavier. */
  lemma DoneIsClosed(root: seq<nat>, edges: seq<TreeEdge>, sorted: seq<TreeEdge>, k: nat, t: real)
    requires Done(root, sorted, k) && Sorted(sorted) && (forall e :: e in edges ==> e in sorted)
    requires k < |sorted| ==> t < sorted[k].weight
    ensures Closed(root, edges, t)
  {
    forall q | k <= q < |sorted| ensures t < sorted[q].weight {
      assert q > k ==> !EdgeLess(sorted[q], sorted[k]);
    }
    forall e | e in edges && e.weight <= t ensures Agree(root, e.a, e.b) {
      var q :| 0 <= q < |sorted| && sorted[q] == e;
      assert q < k;
    }
  }

  /** Edge `k`'s weight is the height at which its two trees meet. */
  lemma MeetAt(g: Graph, order: seq<nat>, up: seq<nat>, edges: seq<TreeEdge>, root: seq<nat>, sorted: seq<TreeEdge>,
               k: nat, ls: set<nat>, rs: set<nat>)
    requires g.Valid() && Grown(g, order, up, edges) && Spans(g, order)
    requires Sorted(sorted) && (forall e :: e in edges ==> e in sorted)
    requires k < |sorted| && Done(root, sorted, k) && Sound(g, root, sorted, k)
    requires sorted[k].a < g.Size() && sorted[k].b < g.Size() && g.Edge(sorted[k].weight, sorted[k].a, sorted[k].b)
    requires root[sorted[k].a] != root[sorted[k].b]
    requires forall x :: x in ls ==> x < g.Size() && root[x] == root[sorted[k].a]
    requires forall x :: x in rs ==> x < g.Size() && root[x] == root[sorted[k].b]
    ensures Minimax(g, sorted[k].weight, ls, rs)
  {
    hide Graph.Valid, Graph.Joined, Graph.Edge, Sorted, Grown, Spans, Reached, Done, Sound;
    assert g.Size() <= |root| by { SoundSize(g, root, sorted, k); }
    forall u, v | u in ls && v in rs ensures MinimaxAt(g, sorted[k].weight, u, v) {
      Across(g, root, sorted, k, u, v);
      forall t | g.Joined(t, u, v) ensures sorted[k].weight <= t {
        if t < sorted[k].weight {
          DoneIsClosed(root, edges, sorted, k, t);
          JoinedMeans(g, order, up, edges, root, t, u, v);
        }
      }
    }
  }

  lemma SoundSize(g: Graph, root: seq<nat>, sorted: seq<TreeEdge>, k: nat)
    requires g.Valid() && k <= |sorted| && Sound(g, root, sorted, k)
    ensures g.Size() <= |root|
  {
  }

  // --- The loop -------------------------------------------------------------------------------

  /** Each leaf's last known node leads to its representative. */
  ghost predicate Leads(node: seq<nat>, nodes: seq<HNode>, root: seq<nat>) {
    |nodes| <= |root| && |node| <= |root| && forall x :: 0 <= x < |node| ==> LeadsAt(node, nodes, root, x)
  }

  ghost predicate LeadsAt(node: seq<nat>, nodes: seq<HNode>, root: seq<nat>, x: nat)
    requires |nodes| <= |root| && |node| <= |root| && x < |node|
  {
    node[x] < |nodes| && root[node[x]] == root[x]
  }

  ghost predicate HeightsFit(nodes: seq<HNode>, sorted: seq<TreeEdge>, k: nat) {
    k <= |sorted| && forall id, q :: 0 <= id < |nodes| && k <= q < |sorted| ==> nodes[id].dist <= sorted[q].weight
  }

  /** After the first `k` sorted edges. */
  ghost predicate HalfBuilt(g: Graph, order: seq<nat>, up: seq<nat>, sorted: seq<TreeEdge>, k: nat,
                            nodes: seq<HNode>, node: seq<nat>, root: seq<nat>)
    requires g.Valid()
  {
    var n := g.Size();
    && k <= |sorted| && |sorted| == n - 1 && |nodes| == n + k && |node| == n && |root| == 2 * n - 1
    && Sorted(sorted) && OneEach(sorted)
    && NodesOk(g, nodes) && Tops(nodes, n, root) && Leads(node, nodes, root) && HeightsFit(nodes, sorted, k)
    && Done(root, sorted, k) && Sound(g, root, sorted, k) && Waiting(order, up, root, n, sorted, k)
  }

  /** The sorted edges are those of the spanning tree. */
  ghost predicate SameEdges(sorted: seq<TreeEdge>, edges: seq<TreeEdge>) {
    forall e :: e in sorted <==> e in edges
  }

  lemma FirstState(g: Graph, order: seq<nat>, up: seq<nat>, edges: seq<TreeEdge>, sorted: seq<TreeEdge>,
                   nodes: seq<HNode>, node: seq<nat>)
    requires g.Valid() && g.Size() > 0 && Grown(g, order, up, edges) && |order| == g.Size()
    requires Sorted(sorted) && OneEach(sorted) && |sorted| == |edges| && SameEdges(sorted, edges)
    requires |nodes| == g.Size() && forall id :: 0 <= id < g.Size() ==> LeafOk(nodes, id)
    requires node == Singletons(g.Size())
    ensures HalfBuilt(g, order, up, sorted, 0, nodes, node, Singletons(2 * g.Size() - 1))
  {
    hide Graph.Valid, Grown, Sorted, OneEach, Beyond, Graph.W;
    var n, root := g.Size(), Singletons(2 * g.Size() - 1);
    forall id, q | 0 <= id < |nodes| && 0 <= q < |sorted| ensures nodes[id].dist <= sorted[q].weight {
      assert LeafOk(nodes, id) && sorted[q] in sorted;
      TreeEdgeAt(g, order, up, edges, sorted[q]);
      WSymmetric(g, sorted[q].a, sorted[q].b);
    }
    assert |edges| == n - 1 by { EdgeCount(g, order, up, edges); }
  }

  lemma EdgeCount(g: Graph, order: seq<nat>, up: seq<nat>, edges: seq<TreeEdge>)
    requires g.Valid() && Grown(g, order, up, edges)
    ensures |edges| == |order| - 1 && OneEach(edges)
  {
    hide Graph.Valid, Graph.W;
    forall i, j | 0 <= i < j < |edges| ensures edges[i].b != edges[j].b {
      var i', j' := i + 1, j + 1;
      assert Lightest(g, order, up, edges, i') && Lightest(g, order, up, edges, j');
    }
  }

  /** Joining the trees of the next edge's ends. */
  lemma NextHalf(g: Graph, order: seq<nat>, up: seq<nat>, edges: seq<TreeEdge>, sorted: seq<TreeEdge>, k: nat,
                 nodes: seq<HNode>, node: seq<nat>, root: seq<nat>, m: HNode, node': seq<nat>)
    requires g.Valid() && Grown(g, order, up, edges) && Spans(g, order) && SameEdges(sorted, edges)
    requires HalfBuilt(g, order, up, sorted, k, nodes, node, root) && k < |sorted|
    requires sorted[k].a < g.Size() && sorted[k].b < g.Size()
    requires m.left == root[sorted[k].a] && m.right == root[sorted[k].b] && m.dist == sorted[k].weight
    requires 0 <= m.left < |nodes| && 0 <= m.right < |nodes| && m.size == nodes[m.left].size + nodes[m.right].size
    requires node' == node[sorted[k].a := |nodes|][sorted[k].b := |nodes|]
    ensures HalfBuilt(g, order, up, sorted, k + 1, nodes + [m], node', Regroup(root, m.left, m.right, |nodes|))
    ensures m.left != m.right && |nodes| < |root| && Regroup(root, m.left, m.right, |nodes|)[|nodes|] == |nodes|
  {
    hide Graph.Valid, Grown, Spans, Graph.Edge, Under, Minimax, Beyond, Reached, NodesOk, TopIs;
    var n, id, e := g.Size(), |nodes|, sorted[k];
    TwoTrees(g, order, up, edges, root, sorted, k);
    assert TopIs(nodes, n, root, m.left) && TopIs(nodes, n, root, m.right);
    var ls, rs := Under(nodes, n, m.left), Under(nodes, n, m.right);
    TopLeaves(nodes, n, root, m.left);
    TopLeaves(nodes, n, root, m.right);
    MeetAt(g, order, up, edges, root, sorted, k, ls, rs);
    SizeIs(g, nodes, m.left);
    SizeIs(g, nodes, m.right);
    NodesMore(g, nodes, m);
    TopsMore(nodes, n, root, m);
    NextDone(root, sorted, k, m.left, m.right, id);
    NextSound(g, root, sorted, k, m.left, m.right, id);
    NextWaiting(g, order, up, edges, root, sorted, k, m.left, m.right, id);
    NextHeights(nodes, m, sorted, k);
    NextLeads(node, nodes, root, m, e.a, e.b);
  }

  lemma TopLeaves(nodes: seq<HNode>, n: nat, root: seq<nat>, id: nat)
    requires Built(nodes, n) && id < |nodes| && n <= |root| && TopIs(nodes, n, root, id)
    ensures forall x :: x in Under(nodes, n, id) ==> x < n && root[x] == id
  {
    hide Under;
  }

  lemma NextHeights(nodes: seq<HNode>, m: HNode, sorted: seq<TreeEdge>, k: nat)
    requires HeightsFit(nodes, sorted, k) && Sorted(sorted) && k < |sorted| && m.dist == sorted[k].weight
    ensures HeightsFit(nodes + [m], sorted, k + 1)
    ensures forall id :: 0 <= id < |nodes| ==> nodes[id].dist <= m.dist
  {
    forall q | k < q < |sorted| ensures sorted[k].weight <= sorted[q].weight {
      assert !EdgeLess(sorted[q], sorted[k]);
    }
  }

  lemma NextLeads(node: seq<nat>, nodes: seq<HNode>, root: seq<nat>, m: HNode, a: nat, b: nat)
    requires Leads(node, nodes, root) && a < |node| <= |root| && b < |node| && |nodes| < |root|
    requires m.left == root[a] && m.right == root[b] && root[|nodes|] == |nodes|
    requires forall x :: 0 <= x < |node| ==> root[x] < |nodes|
    ensures Leads(node[a := |nodes|][b := |nodes|], nodes + [m], Regroup(root, root[a], root[b], |nodes|))
  {
    var node', root' := node[a := |nodes|][b := |nodes|], Regroup(root, root[a], root[b], |nodes|);
    forall x | 0 <= x < |node| ensures LeadsAt(node', nodes + [m], root', x) {
      assert LeadsAt(node, nodes, root, x);
    }
  }

  /** Every leaf is under the node. */
  ghost predicate Covers(nodes: seq<HNode>, n: nat, id: nat)
    requires Built(nodes, n) && id < |nodes|
  {
    forall x: nat :: x in Under(nodes, n, id) <==> x < n
  }

  /** When every edge is done, all leaves are under the last node. */
  lemma AllJoined(g: Graph, order: seq<nat>, up: seq<nat>, edges: seq<TreeEdge>, sorted: seq<TreeEdge>,
                  nodes: seq<HNode>, node: seq<nat>, root: seq<nat>)
    requires g.Valid() && g.Size() >= 2 && Grown(g, order, up, edges) && |order| == g.Size() && Spans(g, order)
    requires SameEdges(sorted, edges) && HalfBuilt(g, order, up, sorted, g.Size() - 1, nodes, node, root)
    requires root[|nodes| - 1] == |nodes| - 1
    ensures Covers(nodes, g.Size(), |nodes| - 1)
  {
    hide Graph.Valid, Under, Minimax, Sound, Waiting, Leads, HeightsFit, Distinct, Lightest, JoinOk, LeafOk;
    var n, top, t := g.Size(), |nodes| - 1, sorted[g.Size() - 2].weight;
    forall q | 0 <= q < |edges| ensures edges[q].weight <= t {
      var e := edges[q];
      assert e in edges;
      var p :| 0 <= p < |sorted| && sorted[p] == e;
      assert p < n - 2 ==> !EdgeLess(sorted[n - 2], sorted[p]);
    }
    DoneIsClosed(root, edges, sorted, n - 1, t);
    forall v: nat | v < n ensures root[v] == root[order[0]] {
      assert v in order;
      Chain(g, order, up, edges, root, t, 0, Position(order, v));
    }
    assert TopIs(nodes, n, root, top);
    var x := SomeLeaf(nodes, n, top);
  }

  lemma {:induction false} SomeLeaf(nodes: seq<HNode>, n: nat, id: nat) returns (x: nat)
    requires Built(nodes, n) && id < |nodes|
    ensures x in Under(nodes, n, id)
    decreases id
  {
    if id < n {
      x := id;
    } else {
      x := SomeLeaf(nodes, n, nodes[id].left);
    }
  }

  lemma FindFits(g: Graph, order: seq<nat>, up: seq<nat>, sorted: seq<TreeEdge>, k: nat,
                 nodes: seq<HNode>, node: seq<nat>, root: seq<nat>, x: nat)
    requires g.Valid() && HalfBuilt(g, order, up, sorted, k, nodes, node, root) && x < g.Size()
    ensures node[x] < |nodes| <= |root| && root[node[x]] == root[x] && root[x] < |nodes|
  {
    hide Graph.Valid, NodesOk, TopIs, Done, Sound, Waiting, Sorted, OneEach, HeightsFit;
    assert LeadsAt(node, nodes, root, x);
  }

  ghost predicate Ends(g: Graph, sorted: seq<TreeEdge>) {
    forall q :: 0 <= q < |sorted| ==> sorted[q].a < g.Size() && sorted[q].b < g.Size() && sorted[q].a != sorted[q].b
  }

  lemma EndsFit(g: Graph, order: seq<nat>, up: seq<nat>, edges: seq<TreeEdge>, sorted: seq<TreeEdge>)
    requires g.Valid() && Grown(g, order, up, edges) && SameEdges(sorted, edges)
    ensures Ends(g, sorted)
  {
    hide Graph.Valid, Grown, Graph.W;
    forall q | 0 <= q < |sorted|
      ensures sorted[q].a < g.Size() && sorted[q].b < g.Size() && sorted[q].a != sorted[q].b
    {
      assert sorted[q] in sorted;
      TreeEdgeAt(g, order, up, edges, sorted[q]);
    }
  }

  lemma EverySpanned(g: Graph, order: seq<nat>, up: seq<nat>, edges: seq<TreeEdge>)
    requires g.Valid() && Grown(g, order, up, edges) && |order| == g.Size()
    ensures Spans(g, order)
  {
    hide Graph.Valid, Lightest;
    Covered(order, g.Size());
  }

  lemma Same(sorted: seq<TreeEdge>, edges: seq<TreeEdge>)
    requires forall e :: e in sorted <==> e in edges
    ensures SameEdges(sorted, edges)
  {
  }

  lemma LeavesOk(nodes: seq<HNode>)
    requires forall id :: 0 <= id < |nodes| ==> nodes[id] == HNode(-1, -1, 0.0, 1)
    ensures forall id :: 0 <= id < |nodes| ==> LeafOk(nodes, id)
  {
  }

  /** Hanging two roots under a fresh one. */
  lemma HangBoth(parent: seq<nat>, root: seq<nat>, rank: seq<nat>, top: nat, a: nat, b: nat, id: nat)
    requires Forest(parent, root, rank, top) && a < |parent| && b < |parent| && id < |parent|
    requires a != b && a != id && b != id && parent[a] == a && parent[b] == b && root[id] == id
    ensures |rank| == |parent| && |Raised(rank, a, id)| == |rank|
    ensures Forest(parent[a := id][b := id], Regroup(root, a, b, id), Raised(Raised(rank, a, id), b, id), top + 2)
    ensures |Raised(Raised(rank, a, id), b, id)| == |parent|
  {
    assert parent[id] == id by { assert Node(parent, root, rank, id); }
    JoinRoots(parent, root, rank, top, a, id);
    JoinRoots(parent[a := id], Redirect(root, a, id), Raised(rank, a, id), top + 1, b, id);
  }

  lemma HalfOk(g: Graph, order: seq<nat>, up: seq<nat>, sorted: seq<TreeEdge>, k: nat,
               nodes: seq<HNode>, node: seq<nat>, root: seq<nat>)
    requires g.Valid() && HalfBuilt(g, order, up, sorted, k, nodes, node, root)
    ensures NodesOk(g, nodes) && |nodes| == g.Size() + k && |sorted| == g.Size() - 1
    ensures forall id :: |nodes| <= id < |root| ==> root[id] == id
  {
    hide Graph.Valid, NodesOk, TopIs, Done, Sound, Waiting, Sorted, OneEach, HeightsFit, Leads;
  }

  ghost predicate Whole(g: Graph, nodes: seq<HNode>)
    requires g.Valid()
  {
    NodesOk(g, nodes) && |nodes| == 2 * g.Size() - 1 && Covers(nodes, g.Size(), |nodes| - 1)
  }

  method JoinNext(g: Graph, sorted: seq<TreeEdge>, k: nat, nodes: seq<HNode>, uf: array<nat>, ufNode: array<nat>,
                  ghost edges: seq<TreeEdge>, ghost order: seq<nat>, ghost up: seq<nat>,
                  ghost root: seq<nat>, ghost rank: seq<nat>, ghost top: nat)
    returns (nodes': seq<HNode>, ghost root': seq<nat>, ghost rank': seq<nat>)
    requires g.Valid() && Grown(g, order, up, edges) && Spans(g, order) && SameEdges(sorted, edges) && Ends(g, sorted)
    requires uf != ufNode && uf.Length == 2 * g.Size() - 1 && ufNode.Length == g.Size() && k < |sorted|
    requires HalfBuilt(g, order, up, sorted, k, nodes, ufNode[..], root)
    requires Forest(uf[..], root, rank, top) && |root| == |rank| == uf.Length
    modifies uf, ufNode
    ensures HalfBuilt(g, order, up, sorted, k + 1, nodes', ufNode[..], root') && |nodes'| == |nodes| + 1
    ensures Forest(uf[..], root', rank', top + 2) && |root'| == |rank'| == uf.Length
    ensures |nodes| < |root'| && root'[|nodes|] == |nodes|
  {
    hide Graph.Valid, Grown, HalfBuilt, Forest, SameEdges, Spans, Regroup, Raised;
    var e := sorted[k];
    FindFits(g, order, up, sorted, k, nodes, ufNode[..], root, e.a);
    FindFits(g, order, up, sorted, k, nodes, ufNode[..], root, e.b);
    ghost var node0: seq<nat> := ufNode[..];
    var ra := Find(uf, ufNode[e.a], root, rank, top);
    var rb := Find(uf, ufNode[e.b], root, rank, top);
    StillRoot(uf[..], root, rank, top, e.a);
    var id: nat := |nodes|;
    var m := HNode(ra, rb, e.weight, nodes[ra].size + nodes[rb].size);
    NextHalf(g, order, up, edges, sorted, k, nodes, node0, root, m, node0[e.a := id][e.b := id]);
    HalfOk(g, order, up, sorted, k, nodes, node0, root);
    HangBoth(uf[..], root, rank, top, ra, rb, id);
    nodes' := nodes + [m];
    ghost var uf0: seq<nat> := uf[..];
    uf[ra] := id;
    uf[rb] := id;
    ufNode[e.a] := id;
    ufNode[e.b] := id;
    assert uf[..] == uf0[ra := id][rb := id] && ufNode[..] == node0[e.a := id][e.b := id];
    root', rank' := Regroup(root, ra, rb, id), Raised(Raised(rank, ra, id), rb, id);
    ForestSize(uf[..], root', rank', top + 2);
  }

  /** Turns a spanning tree into the single-linkage hierarchy. */
  method Hierarchy(g: Graph, edges: seq<TreeEdge>) returns (nodes: seq<HNode>)
    requires g.Valid() && g.Size() >= 2 && IsSpanningTree(g, edges)
    ensures Whole(g, nodes)
  {
    hide Graph.Valid, Grown, HalfBuilt, Forest, SameEdges, Sorted, OneEach, Spans, NodesOk, LeafOk, Covers, Ends;
    var n := |g.dist|;
    ghost var order, up :| Grown(g, order, up, edges) && |order| == g.Size();
    EdgeCount(g, order, up, edges);
    EverySpanned(g, order, up, edges);
    var sorted := SortEdges(edges);
    Same(sorted, edges);
    EndsFit(g, order, up, edges, sorted);
    nodes := seq(n, _ => HNode(-1, -1, 0.0, 1));
    LeavesOk(nodes);
    var uf := new nat[2 * n - 1](i => i);
    var ufNode := new nat[n](i => i);
    ghost var root, rank, top := Singletons(2 * n - 1), seq(2 * n - 1, _ => 0), 0;
    SingletonsForest(2 * n - 1);
    assert uf[..] == Singletons(2 * n - 1) && ufNode[..] == Singletons(n);
    FirstState(g, order, up, edges, sorted, nodes, ufNode[..]);
    HalfOk(g, order, up, sorted, 0, nodes, ufNode[..], root);
    for k := 0 to |sorted|
      invariant HalfBuilt(g, order, up, sorted, k, nodes, ufNode[..], root) && |nodes| == n + k
      invariant Forest(uf[..], root, rank, top) && |root| == |rank| == 2 * n - 1
      invariant k > 0 ==> root[|nodes| - 1] == |nodes| - 1
    {
      nodes, root, rank := JoinNext(g, sorted, k, nodes, uf, ufNode, edges, order, up, root, rank, top);
      top := top + 2;
    }
    AllJoined(g, order, up, edges, sorted, nodes, ufNode[..], root);
    HalfOk(g, order, up, sorted, n - 1, nodes, ufNode[..], root);
  }
}
