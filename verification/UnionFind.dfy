/** A union-find forest in an array, with path halving: which roots lead where, and what a join
    of two roots changes. */
module UnionFind {

  /** `root[x]` is the representative of `x`; ranks rise along parent links, so there
      are no cycles. */
  ghost predicate Forest(parent: seq<nat>, root: seq<nat>, rank: seq<nat>, top: nat) {
    && |parent| == |root| == |rank|
    && (forall x :: 0 <= x < |parent| ==> parent[x] < |parent| && root[x] < |parent| && rank[x] <= top)
    && (forall x :: 0 <= x < |parent| ==> Node(parent, root, rank, x))
  }

  ghost predicate Node(parent: seq<nat>, root: seq<nat>, rank: seq<nat>, x: nat)
    requires x < |parent| == |root| == |rank| && parent[x] < |parent| && root[x] < |parent|
  {
    && (parent[x] == x ==> root[x] == x)
    && (parent[x] != x ==> rank[x] < rank[parent[x]])
    && root[parent[x]] == root[x] && parent[root[x]] == root[x]
  }

  /** Pointing a node at its grandparent changes no representative. */
  lemma HalvingKeeps(parent: seq<nat>, root: seq<nat>, rank: seq<nat>, top: nat, x: nat)
    requires Forest(parent, root, rank, top) && x < |parent|
    ensures parent[x] < |parent|
    ensures Forest(parent[x := parent[parent[x]]], root, rank, top)
  {
    var up := parent[x];
    assert Node(parent, root, rank, x) && Node(parent, root, rank, up);
    var parent' := parent[x := parent[up]];
    forall y | 0 <= y < |parent| ensures Node(parent', root, rank, y) {
      assert Node(parent, root, rank, y);
      assert Node(parent, root, rank, root[y]);
    }
  }

  method Find(parent: array<nat>, x0: nat, ghost root: seq<nat>, ghost rank: seq<nat>, ghost top: nat)
    returns (x: nat)
    requires Forest(parent[..], root, rank, top) && x0 < parent.Length
    modifies parent
    ensures Forest(parent[..], root, rank, top)
    ensures x == root[x0] && x < parent.Length && parent[x] == x
  {
    x := x0;
    while parent[x] != x
      invariant Forest(parent[..], root, rank, top) && x < parent.Length && root[x] == root[x0]
      decreases top - rank[x]
    {
      HalvingKeeps(parent[..], root, rank, top, x);
      assert Node(parent[..], root, rank, x) && Node(parent[..], root, rank, parent[x]);
      var up := parent[x];
      ghost var before := parent[..];
      parent[x] := parent[parent[x]];
      assert parent[..] == before[x := before[up]];
      assert Node(parent[..], root, rank, x);
      x := parent[x];
    }
    assert Node(parent[..], root, rank, x);
  }

  /** Path halving leaves representatives where they are. */
  lemma StillRoot(parent: seq<nat>, root: seq<nat>, rank: seq<nat>, top: nat, x: nat)
    requires Forest(parent, root, rank, top) && x < |parent|
    ensures root[x] < |parent| && parent[root[x]] == root[x]
  {
    assert Node(parent, root, rank, x);
  }

  lemma ForestSize(parent: seq<nat>, root: seq<nat>, rank: seq<nat>, top: nat)
    requires Forest(parent, root, rank, top)
    ensures |root| == |rank| == |parent|
  {
  }

  ghost function Singletons(n: nat): seq<nat> {
    seq(n, i => i)
  }

  lemma SingletonsForest(n: nat)
    ensures Forest(Singletons(n), Singletons(n), seq(n, _ => 0), 0)
  {
  }

  /** Everything represented by `a` is now represented by `b`. */
  ghost function Redirect(root: seq<nat>, a: nat, b: nat): seq<nat> {
    seq(|root|, x requires 0 <= x < |root| => if root[x] == a then b else root[x])
  }

  ghost function Raised(rank: seq<nat>, a: nat, b: nat): seq<nat>
    requires a < |rank| && b < |rank|
  {
    if a == b || rank[a] < rank[b] then rank else rank[b := rank[a] + 1]
  }

  /** Hanging one root under another joins their trees. */
  lemma JoinRoots(parent: seq<nat>, root: seq<nat>, rank: seq<nat>, top: nat, a: nat, b: nat)
    requires Forest(parent, root, rank, top) && a < |parent| && b < |parent|
    requires parent[a] == a && parent[b] == b
    ensures Forest(parent[a := b], Redirect(root, a, b), Raised(rank, a, b), top + 1)
  {
    var parent', root', rank' := parent[a := b], Redirect(root, a, b), Raised(rank, a, b);
    assert Node(parent, root, rank, a) && Node(parent, root, rank, b);
    forall x | 0 <= x < |parent| ensures Node(parent', root', rank', x) {
      assert Node(parent, root, rank, x);
      assert Node(parent, root, rank, root[x]);
    }
  }
}
