/** HDBSCAN: tree, selection and labels, as one run builds them. */
module Hdbscan {
  import opened SortedLists
  import opened Distances
  import opened Reachability
  import opened Prim
  import opened SingleLinkage
  import opened Antichains
  import opened CondensedTree
  import opened Selection

  class Condenser {
    const nodes: seq<HNode>
    const n: nat
    const min: nat
    /** The clusters found so far; a cluster's children are named by their place. */
    var cs: seq<Cluster>

    ghost predicate Ready() {
      Sized(nodes, n) && min >= 2
    }

    constructor (nodes: seq<HNode>, n: nat, min: nat)
      ensures this.nodes == nodes && this.n == n && this.min == min && cs == []
    {
      this.nodes, this.n, this.min, cs := nodes, n, min, [];
    }

    /** Every point under node `v` leaves cluster `c` at `l`. */
    method RecordExits(c: nat, v: nat, l: real)
      requires Ready() && c < |cs| && v < |nodes|
      modifies this
      ensures Built(nodes, n)
      ensures cs == old(cs)[c := old(cs)[c].(exits := Recorded(old(cs)[c].exits, Under(nodes, n, v), l))]
    {
      hide Sized, Under, Recorded;
      SizedBuilt(nodes, n);
      var points := PointsUnder(nodes, n, v);
      ghost var exits, done: set<nat> := cs[c].exits, {};
      NoneRecorded(exits, l);
      for i := 0 to |points|
        invariant done <= Under(nodes, n, v) && forall p :: p in done <==> p in points[..i]
        invariant |cs| == |old(cs)| && cs == old(cs)[c := old(cs)[c].(exits := Recorded(exits, done, l))]
      {
        assert points[..i + 1] == points[..i] + [points[i]];
        OneRecorded(exits, done, points[i], l);
        cs := cs[c := cs[c].(exits := cs[c].exits[points[i] := l])];
        done := done + {points[i]};
      }
      assert points[..|points|] == points;
      assert done == Under(nodes, n, v);
    }

    /** Follows cluster `c` down from node `v`, starting a new cluster for each side of a
        split with two big sides. */
    method Walk(v: nat, c: nat)
      requires Ready() && MayWalk(nodes, n, min, cs, c, v)
      modifies this
      ensures Walked(nodes, n, min, old(cs), cs, c, v)
      decreases v
    {
      hide Sized, Under, Walked, Complete, Split;
      Sides(nodes, n, v);
      var nd := nodes[v];
      var left: nat, right: nat := nd.left, nd.right;
      var l := LambdaOf(nd.dist);
      ghost var before := cs;
      if Big(nodes, min, left) && Big(nodes, min, right) {
        BigIsJoin(nodes, n, min, left);
        BigIsJoin(nodes, n, min, right);
        RecordExits(c, v, l);
        var cl: nat, cr: nat := |cs|, |cs| + 1;
        cs := cs + [Cluster(l, left, map[], [], 0.0, false), Cluster(l, right, map[], [], 0.0, false)];
        cs := cs[c := cs[c].(kids := [cl, cr])];
        ghost var mid := cs;
        IsSplit(nodes, n, before, mid, c, v);
        SplitReady(nodes, n, min, before, mid, c, v);
        Walk(left, cl);
        ghost var afterLeft := cs;
        SecondReady(nodes, n, min, before, mid, afterLeft, c, v);
        Walk(right, cr);
        WalkSplits(nodes, n, min, before, mid, afterLeft, cs, c, v);
      } else if Big(nodes, min, left) {
        BigIsJoin(nodes, n, min, left);
        RecordExits(c, right, l);
        ghost var mid := cs;
        Walk(left, c);
        WalkGoesOn(nodes, n, min, before, mid, cs, c, v, left, right);
      } else if Big(nodes, min, right) {
        BigIsJoin(nodes, n, min, right);
        RecordExits(c, left, l);
        ghost var mid := cs;
        Walk(right, c);
        WalkGoesOn(nodes, n, min, before, mid, cs, c, v, right, left);
      } else {
        RecordExits(c, v, l);
        WalkEnds(nodes, n, min, before, cs, c, v);
      }
    }

    /** Builds the condensed tree of the hierarchy under `root`. */
    method Condense(root: nat)
      requires Ready() && n <= root < |nodes| && Big(nodes, min, root)
      modifies this
      ensures AllComplete(nodes, n, min, cs) && cs[0].top == root && cs[0].birth == 0.0
    {
      hide Sized, Under, Walked, Complete;
      cs := [Cluster(0.0, root, map[], [], 0.0, false)];
      ghost var before := cs;
      Walk(root, 0);
      WalkCompletes(nodes, n, min, before, cs, 0);
      AfterWalk(nodes, n, min, before, cs, root);
    }

    /** The sum over the cluster's points of how long each stays in it. */
    method Stability(c: nat) returns (s: real)
      requires c < |cs|
      modifies this
      ensures s == StabilityOf(old(cs)[c]) && cs == old(cs)[c := old(cs)[c].(stab := s)]
    {
      ghost var stays := Stays(cs[c]);
      var exits, birth := cs[c].exits, cs[c].birth;
      var left := exits.Keys;
      s := 0.0;
      while left != {}
        invariant cs == old(cs) && left <= exits.Keys && stays.Keys == exits.Keys
        invariant s + Sum(stays, left) == Sum(stays, stays.Keys)
      {
        var p :| p in left;
        SumPick(stays, left, p);
        s := s + (exits[p] - birth);
        left := left - {p};
      }
      cs := cs[c := cs[c].(stab := s)];
    }

    /** Takes back every selection inside cluster `c`. */
    method MarkDeselected(c: nat)
      requires Downward(KidsOf(cs)) && c < |cs|
      modifies this
      ensures Deselected(old(cs), cs, Sub(KidsOf(old(cs)), c))
      decreases |cs| - c, 1
    {
      hide Sub, SubKids, Deselected;
      ghost var cs0, kids := cs, KidsOf(cs);
      cs := cs[c := cs[c].(sel := false)];
      DeselectedOne(cs0, cs, c);
      ghost var cs1 := cs;
      DeselectKids(c);
      DeselectedThen(cs0, cs1, cs, {c}, SubKids(kids, c, |kids[c]|));
      SubIs(kids, c);
    }

    method DeselectKids(c: nat)
      requires Downward(KidsOf(cs)) && c < |cs|
      modifies this
      ensures Deselected(old(cs), cs, SubKids(KidsOf(old(cs)), c, |KidsOf(old(cs))[c]|))
      decreases |cs| - c, 0
    {
      hide Sub, SubKids, Deselected;
      ghost var cs0, kids := cs, KidsOf(cs);
      SubIs(kids, c);
      DeselectedNone(cs);
      for k := 0 to |cs[c].kids|
        invariant Deselected(cs0, cs, SubKids(kids, c, k)) && KidsOf(cs) == kids
      {
        ghost var cs1 := cs;
        MarkDeselected(cs[c].kids[k]);
        DeselectedThen(cs0, cs1, cs, SubKids(kids, c, k), Sub(kids, kids[c][k]));
        SubKidsMore(kids, c, k);
      }
    }

    /** Selects inside cluster `c` the clusters worth most: `c` itself, when it is worth at
        least what its children's selections are. */
    method SelectEom(c: nat) returns (best: real, ghost picked: set<nat>)
      requires Branching(KidsOf(cs)) && c < |cs| && Chosen(cs) !! Sub(KidsOf(cs), c)
      modifies this
      ensures Only(old(cs), cs, Sub(KidsOf(old(cs)), c)) && Rated(cs, Sub(KidsOf(old(cs)), c))
      ensures Chosen(cs) == Chosen(old(cs)) + picked
      ensures Picks(KidsOf(old(cs)), Stabilities(old(cs)), picked, Sub(KidsOf(old(cs)), c), best)
      ensures best == Best(KidsOf(old(cs)), Stabilities(old(cs)), c)
      ensures forall x :: x in picked <==> Foremost(old(cs), Sub(KidsOf(old(cs)), c), x)
      decreases |cs| - c
    {
      hide Sub, SubKids, Best, BestKids, Only, Rated, Picks, Stabilities, StabilityOf, Branching, Foremost;
      ghost var cs0, kids, w := cs, KidsOf(cs), Stabilities(cs);
      BranchIs(kids, c);
      BestIs(kids, cs0, c);
      var own := Stability(c);
      OnlyOne(cs0, cs, c);
      RatedOne(cs0, cs, c);
      OnlyKeeps(cs0, cs, {c});
      assert Chosen(cs) == Chosen(cs0);
      var sum := 0.0;
      picked := {};
      PicksNone(kids, w);
      ForemostNone(cs0, c);
      assert {c} + SubKids(kids, c, 0) == {c};
      for k := 0 to |cs[c].kids|
        invariant KidsOf(cs) == kids && Stabilities(cs) == w
        invariant Only(cs0, cs, {c} + SubKids(kids, c, k)) && Rated(cs, {c} + SubKids(kids, c, k))
        invariant Chosen(cs) == Chosen(cs0) + picked
        invariant Picks(kids, w, picked, SubKids(kids, c, k), sum) && sum == BestKids(kids, w, c, k)
        invariant forall x :: x in picked <==> Foremost(cs0, SubKids(kids, c, k), x)
      {
        ghost var cs1 := cs;
        KidUntouched(kids, w, Chosen(cs0), picked, sum, c, k);
        var more;
        ghost var extra;
        more, extra := SelectEom(cs[c].kids[k]);
        PicksMore(kids, w, c, k, picked, sum, extra, more);
        ForemostMore(cs0, cs1, c, k, picked, extra);
        RatedMore(cs0, cs1, cs, kids, c, k);
        sum := sum + more;
        picked := picked + extra;
      }
      ForemostOwn(cs0, c, own, sum);
      if own >= sum {
        ghost var cs1 := cs;
        cs := cs[c := cs[c].(sel := true)];
        ghost var cs2 := cs;
        OnlyOne(cs1, cs2, c);
        DeselectKids(c);
        TakesAll(cs0, cs1, cs2, cs, kids, w, c, picked, sum);
        best := own;
        picked := {c};
      } else {
        PicksWider(kids, w, picked, SubKids(kids, c, |kids[c]|), Sub(kids, c), sum);
        best := sum;
      }
    }

    /** Lists the selected clusters inside `c`, with their points. */
    method Gather(c: nat) returns (sels: seq<Selected>)
      requires Ready() && Branching(KidsOf(cs)) && c < |cs| && TopsFit(nodes, cs)
      requires Antichain(KidsOf(cs), Chosen(cs) * Sub(KidsOf(cs), c))
      ensures Gathered(nodes, n, cs, sels, Chosen(cs) * Sub(KidsOf(cs), c))
      decreases |cs| - c
    {
      hide Sized, Sub, SubKids, Gathered, Branching, Antichain, Ascending;
      ghost var kids := KidsOf(cs);
      SizedBuilt(nodes, n);
      BranchIs(kids, c);
      if cs[c].sel {
        OnlyItself(kids, Chosen(cs) * Sub(kids, c), c);
        var members := PointsUnder(nodes, n, cs[c].top);
        sels := [Selected(c, members)];
        GatheredOne(nodes, n, cs, c, members);
        return;
      }
      sels := [];
      GatheredNone(nodes, n, cs);
      assert Chosen(cs) * SubKids(kids, c, 0) == {};
      for k := 0 to |cs[c].kids|
        invariant Gathered(nodes, n, cs, sels, Chosen(cs) * SubKids(kids, c, k))
      {
        KidChosen(kids, Chosen(cs), c, k);
        var more := Gather(cs[c].kids[k]);
        SubKidsMore(kids, c, k);
        GatheredMore(nodes, n, cs, sels, more, Chosen(cs) * SubKids(kids, c, k), Chosen(cs) * Sub(kids, kids[c][k]));
        assert Chosen(cs) * SubKids(kids, c, k + 1)
            == Chosen(cs) * SubKids(kids, c, k) + Chosen(cs) * Sub(kids, kids[c][k]);
        sels := sels + more;
      }
      assert Chosen(cs) * Sub(kids, c) == Chosen(cs) * SubKids(kids, c, |kids[c]|);
    }

    /** The exits of a cluster's points, and the largest. */
    method ReadExits(s: Selected) returns (exits: seq<real>, maxExit: real, ghost at: nat)
      requires s.c < |cs| && s.members != []
      requires forall p :: p in s.members ==> p in cs[s.c].exits && cs[s.c].exits[p] > 0.0
      ensures |exits| == |s.members| && at < |exits| && exits[at] == maxExit
      ensures forall j :: 0 <= j < |exits| ==>
        s.members[j] in cs[s.c].exits && exits[j] == cs[s.c].exits[s.members[j]] && 0.0 < exits[j] <= maxExit
    {
      var from := cs[s.c].exits;
      exits, maxExit, at := [], 0.0, 0;
      for i := 0 to |s.members|
        invariant |exits| == i && (i == 0 ==> maxExit == 0.0)
        invariant forall j :: 0 <= j < i ==>
          s.members[j] in from && exits[j] == from[s.members[j]] && 0.0 < exits[j] <= maxExit
        invariant i > 0 ==> at < i && exits[at] == maxExit
      {
        var p := s.members[i];
        assert p in s.members;
        var exit := 0.0;
        if p in from {
          exit := from[p];
        } else {
          // Looking for the child that took the point in is never needed.
          assert false;
        }
        exits := exits + [exit];
        if exit > maxExit {
          maxExit, at := exit, i;
        }
      }
    }

    /** Labels the points of one selected cluster, with their shares of its largest exit. */
    method LabelOne(s: Selected, k: nat, labels: seq<int>, probs: seq<real>)
      returns (labels': seq<int>, probs': seq<real>)
      requires s.c < |cs| && |labels| == |probs| && s.members != []
      requires forall p :: p in s.members ==> p < |probs| && p in cs[s.c].exits && cs[s.c].exits[p] > 0.0
      ensures Stepped(s, k, labels, probs, labels', probs') && Scaled(cs[s.c].exits, s.members, probs')
    {
      hide Scaled, Fraction;
      ghost var from := cs[s.c].exits;
      var exits, maxExit, at := ReadExits(s);
      labels', probs' := labels, probs;
      for i := 0 to |s.members|
        invariant Marked(from, s, i, k, maxExit, labels, probs, labels', probs')
      {
        var p := s.members[i];
        assert p in s.members;
        var prob := if maxExit > 0.0 then exits[i] / maxExit else 1.0;
        FractionIs(exits[i], maxExit);
        prob := if prob > 1.0 then 1.0 else prob;
        MarkedMore(from, s, i, k, maxExit, labels, probs, labels', probs', prob);
        labels', probs' := labels'[p := k], probs'[p := prob];
      }
      assert s.members[..|s.members|] == s.members;
      IsScaled(from, s.members, probs', maxExit, exits, at);
    }

    method LabelAll(sels: seq<Selected>) returns (res: Result)
      requires Labelable(n, cs, sels)
      ensures Labelled(n, cs, sels, |sels|, res.labels, res.probabilities) && |res.stabilities| == |sels|
      ensures forall k :: 0 <= k < |sels| ==>
        sels[k].c < |cs| && res.stabilities[k] == StabilityOf(cs[sels[k].c])
    {
      hide Scaled, StabilityOf, Labelled, DisjointMembers;
      var labels: seq<int>, probs: seq<real>, stabs: seq<real> := seq(n, _ => NOISE), seq(n, _ => 0.0), [];
      NoneLabelled(n, cs, sels, labels, probs);
      for k := 0 to |sels|
        invariant Labelled(n, cs, sels, k, labels, probs) && |labels| == |probs| == n && |stabs| == k
        invariant forall j :: 0 <= j < k ==> sels[j].c < |cs| && stabs[j] == StabilityOf(cs[sels[j].c])
      {
        assert LabelableAt(n, cs, sels[k]);
        stabs := stabs + [cs[sels[k].c].stab];
        var labels', probs' := LabelOne(sels[k], k, labels, probs);
        LabelledMore(n, cs, sels, k, labels, probs, labels', probs');
        labels, probs := labels', probs';
      }
      res := Result(labels, probs, stabs);
    }
  }

  lemma NoneLabelled(n: nat, cs: seq<Cluster>, sels: seq<Selected>, labels: seq<int>, probs: seq<real>)
    requires labels == seq(n, _ => NOISE) && probs == seq(n, _ => 0.0)
    ensures Labelled(n, cs, sels, 0, labels, probs)
  {
  }

  lemma IsScaled(from: map<nat, real>, members: seq<nat>, probs: seq<real>, m: real, exits: seq<real>, at: nat)
    requires |exits| == |members| && forall p :: p in members ==> Fraction(from, probs, m, p)
    requires at < |exits| && members[at] in from && exits[at] == from[members[at]] == m
    ensures Scaled(from, members, probs)
  {
    var p := members[at];
    assert p in members && from[p] == m;
    assert ScaledBy(from, members, probs, m);
  }

  /** What one clustering went through. */
  datatype Run = Run(graph: Graph, nodes: seq<HNode>, tree: seq<Cluster>, picked: set<nat>, worth: real,
                     sels: seq<Selected>)

  ghost predicate NonNegative(dist: Matrix)
    requires Square(dist)
  {
    forall i, j :: 0 <= i < |dist| && 0 <= j < |dist| && i != j ==> dist[i][j] >= 0.0
  }

  /** The hierarchy is single linkage on mutual reachability with `k`-th nearest cores. */
  ghost predicate HierarchyOf(dist: Matrix, k: nat, run: Run)
    requires Square(dist)
  {
    && run.graph.Valid() && run.graph.dist == dist
    && (forall i :: 0 <= i < |dist| ==> KthNearest(dist, i, k, run.graph.core[i]))
    && Whole(run.graph, run.nodes)
  }

  /** The tree condenses it, and the selection is a most valuable antichain of the tree. */
  ghost predicate SelectionOf(n: nat, min: nat, run: Run) {
    && AllComplete(run.nodes, n, min, run.tree) && Branching(KidsOf(run.tree))
    && run.tree[0].top == |run.nodes| - 1 && run.tree[0].birth == 0.0
    && Picks(KidsOf(run.tree), Stabilities(run.tree), run.picked, Sub(KidsOf(run.tree), 0), run.worth)
    && run.worth == Best(KidsOf(run.tree), Stabilities(run.tree), 0)
    && forall x :: x in run.picked <==> Foremost(run.tree, Sub(KidsOf(run.tree), 0), x)
  }

  /** The labels number the selected clusters by their smallest points. */
  ghost predicate LabelsOf(n: nat, run: Run, res: Result) {
    && Built(run.nodes, n) && Gathered(run.nodes, n, run.tree, run.sels, run.picked)
    && BySmallest(run.sels) && DisjointMembers(run.sels)
    && Labelled(n, run.tree, run.sels, |run.sels|, res.labels, res.probabilities)
    && |res.stabilities| == |run.sels|
    && forall k :: 0 <= k < |run.sels| ==>
         run.sels[k].c < |run.tree| && res.stabilities[k] == StabilityOf(run.tree[run.sels[k].c])
  }

  function MinClusterSize(minClusterSize: int): (min: nat)
    ensures min >= 2 && min >= minClusterSize && (min == 2 || min == minClusterSize)
  {
    if minClusterSize < 2 then 2 else minClusterSize
  }

  method BuildHierarchy(dist: Matrix, k: nat) returns (g: Graph, nodes: seq<HNode>)
    requires Square(dist) && Symmetric(dist) && NonNegative(dist) && 1 <= k < |dist|
    ensures HierarchyOf(dist, k, Run(g, nodes, [], {}, 0.0, []))
  {
    hide Whole, Grown, KthNearest;
    var core := CoreDistances(dist, k);
    g := Graph(dist, core);
    var edges := SpanningTree(g);
    nodes := Hierarchy(g, edges);
  }

  lemma RootIsBig(g: Graph, nodes: seq<HNode>, min: nat)
    requires g.Valid() && Whole(g, nodes) && g.Size() >= min && min >= 2
    ensures g.Size() <= |nodes| - 1 && Big(nodes, min, |nodes| - 1)
    ensures Sized(nodes, g.Size()) && Built(nodes, g.Size())
  {
    hide Graph.Valid, Under, JoinOk, LeafOk;
    WholeIsSized(g, nodes);
    var n, root := g.Size(), |nodes| - 1;
    SizeIs(g, nodes, root);
    assert Under(nodes, n, root) == Below(n);
  }

  /** Clusters the points of a distance matrix. Fewer points than a cluster needs are all
      noise; otherwise the labels are those of a most valuable selection from the
      condensed single-linkage hierarchy. */
  method Cluster(dist: Matrix, minClusterSize: int) returns (res: Result, ghost run: Run)
    requires Square(dist) && Symmetric(dist) && NonNegative(dist)
    ensures |dist| < MinClusterSize(minClusterSize) ==>
      res == Result(seq(|dist|, _ => NOISE), seq(|dist|, _ => 0.0), [])
    ensures |dist| >= MinClusterSize(minClusterSize) ==>
      var min := MinClusterSize(minClusterSize);
      && HierarchyOf(dist, if min > |dist| - 1 then |dist| - 1 else min, run)
      && SelectionOf(|dist|, min, run) && LabelsOf(|dist|, run, res)
  {
    hide Whole, Sized, AllComplete, Only, Rated, Branching, Picks, Gathered, BySmallest, DisjointMembers, Labelled;
    hide Foremost, Labelable, Stabilities, StabilityOf, Sub, Antichain, Under, KthNearest, Big;
    var n := |dist|;
    var min := MinClusterSize(minClusterSize);
    if n < min {
      res := Result(seq(n, _ => NOISE), seq(n, _ => 0.0), []);
      run := Run(Graph(dist, []), [], [], {}, 0.0, []);
      return;
    }
    var k := if min > n - 1 then n - 1 else min;
    var g, nodes := BuildHierarchy(dist, k);
    RootIsBig(g, nodes, min);
    var root: nat := |nodes| - 1;
    var cond := new Condenser(nodes, n, min);
    cond.Condense(root);
    ghost var tree := cond.cs;
    CompleteIsReady(nodes, n, min, tree);
    var worth, picked := cond.SelectEom(0);
    ghost var kids := KidsOf(tree);
    OnlyKeeps(tree, cond.cs, Sub(kids, 0));
    OnlyTops(nodes, tree, cond.cs, Sub(kids, 0));
    PicksReady(kids, Stabilities(tree), Chosen(cond.cs), picked, Sub(kids, 0), worth);
    var found := cond.Gather(0);
    GatheredPoints(nodes, n, cond.cs, found, picked);
    var sels := SortSelected(found);
    SortKeeps(nodes, n, cond.cs, found, sels, picked);
    PicksAre(kids, Stabilities(tree), picked, Sub(kids, 0), worth);
    MakeLabelable(nodes, n, min, tree, cond.cs, sels, picked);
    res := cond.LabelAll(sels);
    OnlyGathered(nodes, n, tree, cond.cs, sels, picked, Sub(kids, 0));
    OnlyLabelled(n, tree, cond.cs, sels, |sels|, res.labels, res.probabilities, Sub(kids, 0));
    SameStabilities(tree, cond.cs, Sub(kids, 0));
    LabelableApart(n, cond.cs, sels);
    run := Run(g, nodes, tree, picked, worth, sels);
  }

  // --- What the result means -------------------------------------------------------------------

  /** The points `u` and `v` part at node `id`. */
  ghost predicate PartAt(nodes: seq<HNode>, n: nat, id: nat, u: nat, v: nat)
    requires Built(nodes, n)
  {
    && n <= id < |nodes|
    && ((u in Under(nodes, n, nodes[id].left) && v in Under(nodes, n, nodes[id].right))
        || (v in Under(nodes, n, nodes[id].left) && u in Under(nodes, n, nodes[id].right)))
  }

  lemma {:induction false} LowestCommon(nodes: seq<HNode>, n: nat, id: nat, u: nat, v: nat) returns (lca: nat)
    requires Built(nodes, n) && id < |nodes| && u != v && u in Under(nodes, n, id) && v in Under(nodes, n, id)
    ensures lca <= id && PartAt(nodes, n, lca, u, v)
    decreases id
  {
    var l, r := nodes[id].left, nodes[id].right;
    if u in Under(nodes, n, l) && v in Under(nodes, n, l) {
      lca := LowestCommon(nodes, n, l, u, v);
    } else if u in Under(nodes, n, r) && v in Under(nodes, n, r) {
      lca := LowestCommon(nodes, n, r, u, v);
    } else {
      lca := id;
    }
  }

  /** The height at two points' lowest common ancestor is the smallest possible maximum
      mutual-reachability weight over all walks between them. */
  lemma HeightIsMinimax(dist: Matrix, k: nat, run: Run, u: nat, v: nat) returns (lca: nat)
    requires Square(dist) && HierarchyOf(dist, k, run) && u < |dist| && v < |dist| && u != v
    ensures PartAt(run.nodes, |dist|, lca, u, v) && MinimaxAt(run.graph, run.nodes[lca].dist, u, v)
  {
    hide Graph.Valid, Under, MinimaxAt;
    var g, nodes, n := run.graph, run.nodes, |dist|;
    lca := LowestCommon(nodes, n, |nodes| - 1, u, v);
    assert JoinOk(g, nodes, lca);
    if u in Under(nodes, n, nodes[lca].right) {
      assert MinimaxAt(g, nodes[lca].dist, v, u);
      MinimaxTurned(g, nodes[lca].dist, v, u);
    } else {
      assert MinimaxAt(g, nodes[lca].dist, u, v);
    }
  }

  lemma MinimaxTurned(g: Graph, h: real, u: nat, v: nat)
    requires g.Valid() && MinimaxAt(g, h, u, v)
    ensures MinimaxAt(g, h, v, u)
  {
    hide Graph.Valid, Graph.Joined;
    JoinedSymmetric(g, h, u, v);
    forall t | g.Joined(t, v, u) ensures h <= t {
      JoinedSymmetric(g, t, v, u);
    }
  }

  /** No set of clusters, none inside another, is worth more than the selected ones. */
  lemma NoneWorthMore(n: nat, min: nat, run: Run, a: set<nat>)
    requires SelectionOf(n, min, run)
    requires Downward(KidsOf(run.tree)) && Antichain(KidsOf(run.tree), a) && a <= Sub(KidsOf(run.tree), 0)
    ensures a <= Stabilities(run.tree).Keys && run.picked <= Stabilities(run.tree).Keys
    ensures Sum(Stabilities(run.tree), a) <= Sum(Stabilities(run.tree), run.picked)
  {
    hide Complete, Sub, Antichain, Sum, StabilityOf, Best;
    SubWeighed(KidsOf(run.tree), Stabilities(run.tree), 0);
    BestIsMost(KidsOf(run.tree), Stabilities(run.tree), 0, a);
  }

  /** A point has a label exactly when it is a point of a selected cluster, and then of
      that one only. */
  lemma OneLabelEach(n: nat, run: Run, res: Result, p: nat)
    requires LabelsOf(n, run, res) && p < n
    ensures |res.labels| == n && NOISE <= res.labels[p] < |run.sels|
    ensures forall k: nat :: Carries(run.sels, k, p) <==> k == res.labels[p]
    ensures res.labels[p] == NOISE <==> res.probabilities[p] == 0.0
  {
    hide Gathered, Under, BySmallest;
    if k: nat :| Carries(run.sels, k, p) {
      assert Scaled(run.tree[run.sels[k].c].exits, run.sels[k].members, res.probabilities);
      var m :| ScaledBy(run.tree[run.sels[k].c].exits, run.sels[k].members, res.probabilities, m);
      assert Fraction(run.tree[run.sels[k].c].exits, res.probabilities, m, p);
    }
  }
}
