/** The condensed tree of HDBSCAN: the clusters the walk records, and the exit every point has
    under each cluster it was in. */
module CondensedTree {
  import opened SortedLists
  import opened Reachability
  import opened SingleLinkage

  const LAMBDA_CAP := 1000000000000.0

  /** `l` is the inverse of the distance `d`, or the cap when there is none. */
  ghost predicate IsLambda(l: real, d: real) {
    if d > 0.0 then l * d == 1.0 else l == 1000000000000.0
  }

  /** A distance has only one. */
  lemma OneLambda(l: real, m: real, d: real)
    requires IsLambda(l, d) && IsLambda(m, d)
    ensures l == m && l > 0.0
  {
    if d > 0.0 {
      assert (l - m) * d == 0.0;
    }
  }

  function LambdaOf(d: real): (l: real)
    ensures l > 0.0 && IsLambda(l, d)
  {
    if d <= 0.0 then LAMBDA_CAP else Inverse(d)
  }

  function Inverse(d: real): (l: real)
    requires d > 0.0
    ensures l > 0.0 && l * d == 1.0
  {
    1.0 / d
  }

  /** A cluster of the condensed tree. `exits` is where each of its points leaves it. */
  datatype Cluster = Cluster(birth: real, top: nat, exits: map<nat, real>, kids: seq<nat>, stab: real, sel: bool)

  /** A hierarchy whose joins have disjoint sides, with sizes to match. */
  ghost predicate Sized(nodes: seq<HNode>, n: nat) {
    && Built(nodes, n)
    && (forall id :: 0 <= id < n ==> nodes[id].size == 1)
    && forall id :: n <= id < |nodes| ==> JoinSized(nodes, n, id)
  }

  ghost predicate JoinSized(nodes: seq<HNode>, n: nat, id: nat)
    requires Built(nodes, n) && n <= id < |nodes|
  {
    && Under(nodes, n, nodes[id].left) !! Under(nodes, n, nodes[id].right)
    && nodes[id].size == nodes[nodes[id].left].size + nodes[nodes[id].right].size
  }

  lemma WholeIsSized(g: Graph, nodes: seq<HNode>)
    requires g.Valid() && NodesOk(g, nodes)
    ensures Sized(nodes, g.Size())
  {
    hide Graph.Valid, Under, Minimax;
    var n := g.Size();
    forall id | 0 <= id < n ensures nodes[id].size == 1 {
      assert LeafOk(nodes, id);
    }
    forall id | n <= id < |nodes| ensures JoinSized(nodes, n, id) {
      assert JoinOk(g, nodes, id);
      SizeIs(g, nodes, nodes[id].left);
      SizeIs(g, nodes, nodes[id].right);
      UnderSides(nodes, n, id);
    }
  }

  lemma UnderSides(nodes: seq<HNode>, n: nat, id: nat)
    requires Built(nodes, n) && n <= id < |nodes|
    ensures Under(nodes, n, id) == Under(nodes, n, nodes[id].left) + Under(nodes, n, nodes[id].right)
  {
  }

  // --- Walking the hierarchy -----------------------------------------------------------------

  predicate Big(nodes: seq<HNode>, min: nat, id: int) {
    0 <= id < |nodes| && nodes[id].size >= min
  }

  /** Where a cluster that holds node `v` ends: the first node on the way down whose sides
      are both big, or both small. */
  ghost function Ending(nodes: seq<HNode>, n: nat, min: nat, v: nat): (e: nat)
    requires Sized(nodes, n) && n <= v < |nodes| && min >= 2
    ensures n <= e <= v
    decreases v
  {
    var l, r := nodes[v].left, nodes[v].right;
    if Big(nodes, min, l) == Big(nodes, min, r) then v
    else if Big(nodes, min, l) then Ending(nodes, n, min, l)
    else Ending(nodes, n, min, r)
  }

  /** The node at which point `p` leaves a cluster that holds node `v`. */
  ghost function LeavesAt(nodes: seq<HNode>, n: nat, min: nat, v: nat, p: nat): (e: nat)
    requires Sized(nodes, n) && n <= v < |nodes| && min >= 2
    ensures n <= e <= v
    decreases v
  {
    var l, r := nodes[v].left, nodes[v].right;
    if Big(nodes, min, l) == Big(nodes, min, r) then v
    else
      var big := if Big(nodes, min, l) then l else r;
      if p in Under(nodes, n, big) then LeavesAt(nodes, n, min, big, p) else v
  }

  /** Every point under `v` has one exit, at the height where it leaves. */
  ghost predicate ExitsFor(nodes: seq<HNode>, n: nat, min: nat, exits: map<nat, real>, v: nat)
    requires Sized(nodes, n) && n <= v < |nodes| && min >= 2
  {
    forall p :: p in Under(nodes, n, v) ==>
      p in exits && exits[p] > 0.0 && IsLambda(exits[p], nodes[LeavesAt(nodes, n, min, v, p)].dist)
  }

  /** The children of a cluster that holds node `v` are the sides of the node it ends at,
      when those are big. */
  ghost predicate KidsFor(nodes: seq<HNode>, n: nat, min: nat, cs: seq<Cluster>, i: nat, v: nat)
    requires Sized(nodes, n) && n <= v < |nodes| && min >= 2 && i < |cs|
  {
    var e := Ending(nodes, n, min, v);
    if Big(nodes, min, nodes[e].left) then
      && |cs[i].kids| == 2 && i < cs[i].kids[0] < |cs| && i < cs[i].kids[1] < |cs|
      && cs[cs[i].kids[0]].top == nodes[e].left && cs[cs[i].kids[1]].top == nodes[e].right
      && cs[cs[i].kids[0]].birth == cs[cs[i].kids[1]].birth && IsLambda(cs[cs[i].kids[0]].birth, nodes[e].dist)
    else cs[i].kids == []
  }

  /** Cluster `i` holds its points' exits, and its children. */
  ghost predicate Complete(nodes: seq<HNode>, n: nat, min: nat, cs: seq<Cluster>, i: nat)
    requires Sized(nodes, n) && min >= 2 && i < |cs|
  {
    && n <= cs[i].top < |nodes| && Big(nodes, min, cs[i].top)
    && cs[i].exits.Keys == Under(nodes, n, cs[i].top)
    && ExitsFor(nodes, n, min, cs[i].exits, cs[i].top) && KidsFor(nodes, n, min, cs, i, cs[i].top)
    && !cs[i].sel
  }

  /** Clusters keep their place, top and birth; new ones follow. */
  ghost predicate Extends(cs: seq<Cluster>, cs': seq<Cluster>) {
    |cs| <= |cs'| && forall i :: 0 <= i < |cs| ==> cs'[i].top == cs[i].top && cs'[i].birth == cs[i].birth
  }

  lemma CompleteStays(nodes: seq<HNode>, n: nat, min: nat, cs: seq<Cluster>, cs': seq<Cluster>, i: nat)
    requires Sized(nodes, n) && min >= 2 && i < |cs| && Complete(nodes, n, min, cs, i)
    requires Extends(cs, cs') && cs'[i] == cs[i]
    ensures Complete(nodes, n, min, cs', i)
  {
    hide Sized, Under, ExitsFor;
  }

  /** A node with a big side is not a leaf. */
  lemma BigIsJoin(nodes: seq<HNode>, n: nat, min: nat, id: nat)
    requires Sized(nodes, n) && min >= 2 && Big(nodes, min, id)
    ensures n <= id < |nodes|
  {
  }

  // --- Listing the points under a node ---------------------------------------------------------

  ghost function Cost(nodes: seq<HNode>, n: nat, id: nat): nat
    requires Built(nodes, n) && id < |nodes|
    decreases id
  {
    if id < n then 1 else 1 + Cost(nodes, n, nodes[id].left) + Cost(nodes, n, nodes[id].right)
  }

  ghost predicate OnStack(nodes: seq<HNode>, stack: seq<nat>) {
    forall i :: 0 <= i < |stack| ==> stack[i] < |nodes|
  }

  ghost function StackCost(nodes: seq<HNode>, n: nat, stack: seq<nat>): nat
    requires Built(nodes, n) && OnStack(nodes, stack)
  {
    if stack == [] then 0
    else StackCost(nodes, n, stack[..|stack| - 1]) + Cost(nodes, n, stack[|stack| - 1])
  }

  /** The points under the nodes on the stack. */
  ghost function StackUnder(nodes: seq<HNode>, n: nat, stack: seq<nat>): set<nat>
    requires Built(nodes, n) && OnStack(nodes, stack)
  {
    if stack == [] then {}
    else StackUnder(nodes, n, stack[..|stack| - 1]) + Under(nodes, n, stack[|stack| - 1])
  }

  ghost predicate StackApart(nodes: seq<HNode>, n: nat, stack: seq<nat>)
    requires Built(nodes, n) && OnStack(nodes, stack)
  {
    stack != [] ==>
      && StackApart(nodes, n, stack[..|stack| - 1])
      && StackUnder(nodes, n, stack[..|stack| - 1]) !! Under(nodes, n, stack[|stack| - 1])
  }

  /** Replacing a join on top of the stack by its two sides. */
  lemma Unfolded(nodes: seq<HNode>, n: nat, stack: seq<nat>, l: nat, r: nat)
    requires Sized(nodes, n) && OnStack(nodes, stack) && stack != []
    requires n <= stack[|stack| - 1] && l == nodes[stack[|stack| - 1]].left && r == nodes[stack[|stack| - 1]].right
    ensures OnStack(nodes, stack[..|stack| - 1] + [l, r])
    ensures StackUnder(nodes, n, stack[..|stack| - 1] + [l, r]) == StackUnder(nodes, n, stack)
    ensures StackCost(nodes, n, stack[..|stack| - 1] + [l, r]) < StackCost(nodes, n, stack)
    ensures StackApart(nodes, n, stack) ==> StackApart(nodes, n, stack[..|stack| - 1] + [l, r])
  {
    var rest, top := stack[..|stack| - 1], stack[|stack| - 1];
    var one, two := rest + [l], rest + [l, r];
    assert two[..|two| - 1] == one && one[..|one| - 1] == rest;
    assert JoinSized(nodes, n, top);
  }

  method PointsUnder(nodes: seq<HNode>, n: nat, v: nat) returns (points: seq<nat>)
    requires Sized(nodes, n) && v < |nodes|
    ensures Ascending(points) && forall p :: p in points <==> p in Under(nodes, n, v)
  {
    hide Sized, Ascending, Under;
    assert Built(nodes, n) by { SizedBuilt(nodes, n); }
    var out: seq<nat>, stack: seq<nat> := [], [v];
    StartStack(nodes, n, v);
    while |stack| > 0
      invariant OnStack(nodes, stack)
      invariant forall i, j :: 0 <= i < j < |out| ==> out[i] != out[j]
      invariant StackApart(nodes, n, stack) && forall p :: p in out ==> p !in StackUnder(nodes, n, stack)
      invariant forall p :: p in Under(nodes, n, v) <==> p in out || p in StackUnder(nodes, n, stack)
      decreases StackCost(nodes, n, stack)
    {
      var x := stack[|stack| - 1];
      if x < n {
        Popped(nodes, n, stack);
        stack := stack[..|stack| - 1];
        out := out + [x];
      } else {
        var l: nat, r: nat := nodes[x].left, nodes[x].right;
        Unfolded(nodes, n, stack, l, r);
        stack := stack[..|stack| - 1] + [l, r];
      }
    }
    points := SortInts(out);
  }

  lemma SizedBuilt(nodes: seq<HNode>, n: nat)
    requires Sized(nodes, n)
    ensures Built(nodes, n)
  {
  }

  lemma StartStack(nodes: seq<HNode>, n: nat, v: nat)
    requires Built(nodes, n) && v < |nodes|
    ensures StackUnder(nodes, n, [v]) == Under(nodes, n, v) && StackApart(nodes, n, [v])
  {
    hide Under;
    assert [v][..0] == [];
  }

  lemma Popped(nodes: seq<HNode>, n: nat, stack: seq<nat>)
    requires Built(nodes, n) && stack != [] && OnStack(nodes, stack)
    requires stack[|stack| - 1] < n && StackApart(nodes, n, stack)
    ensures OnStack(nodes, stack[..|stack| - 1])
    ensures StackApart(nodes, n, stack[..|stack| - 1])
    ensures stack[|stack| - 1] !in StackUnder(nodes, n, stack[..|stack| - 1])
    ensures StackUnder(nodes, n, stack) == StackUnder(nodes, n, stack[..|stack| - 1]) + {stack[|stack| - 1]}
    ensures StackCost(nodes, n, stack[..|stack| - 1]) < StackCost(nodes, n, stack)
  {
  }

  method ContainsPoint(nodes: seq<HNode>, n: nat, v: nat, p: nat) returns (found: bool)
    requires Sized(nodes, n) && v < |nodes|
    ensures found <==> p in Under(nodes, n, v)
  {
    hide Sized, Under;
    assert Built(nodes, n) by { SizedBuilt(nodes, n); }
    var stack: seq<nat> := [v];
    StartStack(nodes, n, v);
    while |stack| > 0
      invariant OnStack(nodes, stack)
      invariant StackApart(nodes, n, stack)
      invariant p in Under(nodes, n, v) <==> p in StackUnder(nodes, n, stack)
      decreases StackCost(nodes, n, stack)
    {
      var x := stack[|stack| - 1];
      if x < n {
        Popped(nodes, n, stack);
        if x == p {
          return true;
        }
        stack := stack[..|stack| - 1];
      } else {
        var l: nat, r: nat := nodes[x].left, nodes[x].right;
        Unfolded(nodes, n, stack, l, r);
        stack := stack[..|stack| - 1] + [l, r];
      }
    }
    found := false;
  }

  // --- The walk -----------------------------------------------------------------------------------

  ghost function Recorded(exits: map<nat, real>, points: set<nat>, l: real): map<nat, real> {
    map p | p in exits.Keys + points :: if p in points then l else exits[p]
  }

  /** What a walk from node `v` does to cluster `c`, which had none of the node's points. */
  ghost predicate Walked(nodes: seq<HNode>, n: nat, min: nat, before: seq<Cluster>, after: seq<Cluster>, c: nat, v: nat)
    requires Sized(nodes, n) && min >= 2 && n <= v < |nodes| && c < |before|
  {
    && Extends(before, after)
    && (forall i :: 0 <= i < |before| && i != c ==> after[i] == before[i])
    && after[c].sel == before[c].sel
    && after[c].exits.Keys == before[c].exits.Keys + Under(nodes, n, v)
    && (forall p :: p in before[c].exits ==> after[c].exits[p] == before[c].exits[p])
    && ExitsFor(nodes, n, min, after[c].exits, v) && KidsFor(nodes, n, min, after, c, v)
    && forall i :: |before| <= i < |after| ==> Complete(nodes, n, min, after, i)
  }

  ghost predicate MayWalk(nodes: seq<HNode>, n: nat, min: nat, cs: seq<Cluster>, c: nat, v: nat)
    requires Sized(nodes, n)
  {
    && min >= 2 && n <= v < |nodes| && Big(nodes, min, v) && c < |cs| && cs[c].kids == []
    && cs[c].exits.Keys !! Under(nodes, n, v)
  }

  /** The walk ends: both sides are small. */
  lemma WalkEnds(nodes: seq<HNode>, n: nat, min: nat, before: seq<Cluster>, after: seq<Cluster>, c: nat, v: nat)
    requires Sized(nodes, n) && MayWalk(nodes, n, min, before, c, v)
    requires !Big(nodes, min, nodes[v].left) && !Big(nodes, min, nodes[v].right)
    requires after ==
      before[c := before[c].(exits := Recorded(before[c].exits, Under(nodes, n, v), LambdaOf(nodes[v].dist)))]
    ensures Walked(nodes, n, min, before, after, c, v)
  {
    hide Sized, Under;
  }

  /** The walk goes on into the one big side. */
  lemma WalkGoesOn(nodes: seq<HNode>, n: nat, min: nat, before: seq<Cluster>, mid: seq<Cluster>, after: seq<Cluster>,
                   c: nat, v: nat, big: nat, small: nat)
    requires Sized(nodes, n) && MayWalk(nodes, n, min, before, c, v)
    requires (big == nodes[v].left && small == nodes[v].right) || (big == nodes[v].right && small == nodes[v].left)
    requires Big(nodes, min, big) && !Big(nodes, min, small) && n <= big
    requires mid ==
      before[c := before[c].(exits := Recorded(before[c].exits, Under(nodes, n, small), LambdaOf(nodes[v].dist)))]
    requires Walked(nodes, n, min, mid, after, c, big)
    ensures Walked(nodes, n, min, before, after, c, v)
  {
    hide Sized, Under, Complete;
    Sides(nodes, n, v);
    var exits := after[c].exits;
    forall p | p in Under(nodes, n, v)
      ensures p in exits && exits[p] > 0.0 && IsLambda(exits[p], nodes[LeavesAt(nodes, n, min, v, p)].dist)
    {
      if p in Under(nodes, n, small) {
        assert p in mid[c].exits;
      }
    }
  }

  lemma Sides(nodes: seq<HNode>, n: nat, v: nat)
    requires Sized(nodes, n) && n <= v < |nodes|
    ensures Built(nodes, n)
    ensures Under(nodes, n, v) == Under(nodes, n, nodes[v].left) + Under(nodes, n, nodes[v].right)
    ensures Under(nodes, n, nodes[v].left) !! Under(nodes, n, nodes[v].right)
  {
    assert JoinSized(nodes, n, v);
  }

  /** A walk completes a new cluster. */
  lemma WalkCompletes(nodes: seq<HNode>, n: nat, min: nat, before: seq<Cluster>, after: seq<Cluster>, c: nat)
    requires Sized(nodes, n) && min >= 2 && c < |before|
    requires n <= before[c].top < |nodes| && Big(nodes, min, before[c].top)
    requires before[c].exits == map[] && !before[c].sel
    requires Walked(nodes, n, min, before, after, c, before[c].top)
    ensures Complete(nodes, n, min, after, c)
  {
    hide Sized, Under, ExitsFor, KidsFor;
  }

  /** The two new clusters a split starts. */
  ghost predicate Split(nodes: seq<HNode>, n: nat, before: seq<Cluster>, mid: seq<Cluster>, c: nat, v: nat)
    requires Sized(nodes, n) && n <= v < |nodes| && c < |before|
  {
    var l, cl, cr := LambdaOf(nodes[v].dist), |before|, |before| + 1;
    && Built(nodes, n)
    && mid == before[c := before[c].(exits := Recorded(before[c].exits, Under(nodes, n, v), l), kids := [cl, cr])]
         + [Cluster(l, nodes[v].left, map[], [], 0.0, false), Cluster(l, nodes[v].right, map[], [], 0.0, false)]
  }

  lemma SplitReady(nodes: seq<HNode>, n: nat, min: nat, before: seq<Cluster>, mid: seq<Cluster>, c: nat, v: nat)
    requires Sized(nodes, n) && MayWalk(nodes, n, min, before, c, v) && Split(nodes, n, before, mid, c, v)
    requires Big(nodes, min, nodes[v].left) && Big(nodes, min, nodes[v].right)
    ensures MayWalk(nodes, n, min, mid, |before|, nodes[v].left)
  {
    hide Under;
  }

  lemma SecondReady(nodes: seq<HNode>, n: nat, min: nat, before: seq<Cluster>, mid: seq<Cluster>, left: seq<Cluster>,
                    c: nat, v: nat)
    requires Sized(nodes, n) && MayWalk(nodes, n, min, before, c, v) && Split(nodes, n, before, mid, c, v)
    requires Big(nodes, min, nodes[v].left) && Big(nodes, min, nodes[v].right) && n <= nodes[v].left
    requires Walked(nodes, n, min, mid, left, |before|, nodes[v].left)
    ensures MayWalk(nodes, n, min, left, |before| + 1, nodes[v].right)
  {
    hide Under, ExitsFor, KidsFor, Complete;
  }

  /** The walk splits: both sides are big. */
  lemma WalkSplits(nodes: seq<HNode>, n: nat, min: nat, before: seq<Cluster>, mid: seq<Cluster>, left: seq<Cluster>,
                   after: seq<Cluster>, c: nat, v: nat)
    requires Sized(nodes, n) && MayWalk(nodes, n, min, before, c, v) && Split(nodes, n, before, mid, c, v)
    requires Big(nodes, min, nodes[v].left) && Big(nodes, min, nodes[v].right)
    requires n <= nodes[v].left && n <= nodes[v].right
    requires Walked(nodes, n, min, mid, left, |before|, nodes[v].left) && |before| + 1 < |left|
    requires Walked(nodes, n, min, left, after, |before| + 1, nodes[v].right)
    ensures Walked(nodes, n, min, before, after, c, v)
  {
    hide Sized, Under, ExitsFor, KidsFor, Complete;
    var cl, cr := |before|, |before| + 1;
    WalkCompletes(nodes, n, min, mid, left, cl);
    WalkCompletes(nodes, n, min, left, after, cr);
    forall i | |before| <= i < |after| ensures Complete(nodes, n, min, after, i) {
      if i < |left| && i != cr {
        CompleteStays(nodes, n, min, left, after, i);
      }
    }
    assert after[c] == mid[c];
    SplitFor(nodes, n, min, before, mid, after, c, v);
  }

  lemma SplitFor(nodes: seq<HNode>, n: nat, min: nat, before: seq<Cluster>, mid: seq<Cluster>, after: seq<Cluster>,
                 c: nat, v: nat)
    requires Sized(nodes, n) && MayWalk(nodes, n, min, before, c, v) && Split(nodes, n, before, mid, c, v)
    requires Big(nodes, min, nodes[v].left) && Big(nodes, min, nodes[v].right)
    requires Extends(mid, after) && c < |mid| && after[c] == mid[c]
    ensures ExitsFor(nodes, n, min, after[c].exits, v) && KidsFor(nodes, n, min, after, c, v)
  {
    hide Sized, Under;
  }

  lemma NoneRecorded(exits: map<nat, real>, l: real)
    ensures Recorded(exits, {}, l) == exits
  {
  }

  lemma OneRecorded(exits: map<nat, real>, done: set<nat>, p: nat, l: real)
    ensures Recorded(exits, done, l)[p := l] == Recorded(exits, done + {p}, l)
  {
  }

  lemma IsSplit(nodes: seq<HNode>, n: nat, before: seq<Cluster>, mid: seq<Cluster>, c: nat, v: nat)
    requires Sized(nodes, n) && n <= v < |nodes| && c < |before| && Built(nodes, n)
    requires var l, cl, cr := LambdaOf(nodes[v].dist), |before|, |before| + 1;
      mid == (before[c := before[c].(exits := Recorded(before[c].exits, Under(nodes, n, v), l))]
              + [Cluster(l, nodes[v].left, map[], [], 0.0, false), Cluster(l, nodes[v].right, map[], [], 0.0, false)])
             [c := before[c].(exits := Recorded(before[c].exits, Under(nodes, n, v), l), kids := [cl, cr])]
    ensures Split(nodes, n, before, mid, c, v)
  {
    hide Sized, Under;
  }
}
