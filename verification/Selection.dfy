/** Excess-of-mass selection over the condensed tree: the flags on its clusters, the members the
    selected ones gather, and their order. */
module Selection {
  import opened SortedLists
  import opened SingleLinkage
  import opened Antichains
  import opened CondensedTree

  // --- The condensed tree as a tree of disjoint point sets ---------------------------------------

  ghost predicate AllComplete(nodes: seq<HNode>, n: nat, min: nat, cs: seq<Cluster>) {
    && Sized(nodes, n) && min >= 2 && |cs| > 0
    && forall i :: 0 <= i < |cs| ==> Complete(nodes, n, min, cs, i)
  }

  ghost function KidsOf(cs: seq<Cluster>): seq<seq<nat>> {
    seq(|cs|, i requires 0 <= i < |cs| => cs[i].kids)
  }

  lemma {:induction false} EndingInside(nodes: seq<HNode>, n: nat, min: nat, v: nat)
    requires Sized(nodes, n) && n <= v < |nodes| && min >= 2
    ensures Built(nodes, n) && Under(nodes, n, Ending(nodes, n, min, v)) <= Under(nodes, n, v)
    decreases v
  {
    hide Under;
    Sides(nodes, n, v);
    var l, r := nodes[v].left, nodes[v].right;
    if Big(nodes, min, l) == Big(nodes, min, r) {
    } else if Big(nodes, min, l) {
      EndingInside(nodes, n, min, l);
    } else {
      EndingInside(nodes, n, min, r);
    }
  }

  /** A child's points are some of its parent's, and two children have none in common. */
  lemma KidsInside(nodes: seq<HNode>, n: nat, min: nat, cs: seq<Cluster>, i: nat)
    requires AllComplete(nodes, n, min, cs) && i < |cs|
    ensures Built(nodes, n) && cs[i].top < |nodes| && (|cs[i].kids| == 0 || |cs[i].kids| == 2)
    ensures forall q :: 0 <= q < |cs[i].kids| ==> i < cs[i].kids[q] < |cs| && cs[cs[i].kids[q]].top < |nodes|
    ensures forall q :: 0 <= q < |cs[i].kids| ==>
      Under(nodes, n, cs[cs[i].kids[q]].top) <= Under(nodes, n, cs[i].top)
    ensures |cs[i].kids| == 2 ==> Under(nodes, n, cs[cs[i].kids[0]].top) !! Under(nodes, n, cs[cs[i].kids[1]].top)
  {
    hide Under, ExitsFor;
    assert Complete(nodes, n, min, cs, i);
    EndingInside(nodes, n, min, cs[i].top);
    Sides(nodes, n, Ending(nodes, n, min, cs[i].top));
  }

  lemma KidsDownward(nodes: seq<HNode>, n: nat, min: nat, cs: seq<Cluster>)
    requires AllComplete(nodes, n, min, cs)
    ensures Downward(KidsOf(cs))
  {
    hide AllComplete, Under;
    var kids := KidsOf(cs);
    forall i, q | 0 <= i < |kids| && 0 <= q < |kids[i]| ensures i < kids[i][q] < |kids| {
      KidsInside(nodes, n, min, cs, i);
    }
  }

  /** What is inside a cluster has only points of it. */
  lemma {:induction false} SubUnder(nodes: seq<HNode>, n: nat, min: nat, cs: seq<Cluster>, i: nat, x: nat)
    requires AllComplete(nodes, n, min, cs) && Downward(KidsOf(cs)) && i < |cs| && x in Sub(KidsOf(cs), i)
    ensures Built(nodes, n) && x < |cs| && cs[x].top < |nodes| && cs[i].top < |nodes|
    ensures Under(nodes, n, cs[x].top) <= Under(nodes, n, cs[i].top)
    decreases |cs| - i
  {
    hide AllComplete, Under;
    KidsInside(nodes, n, min, cs, i);
    if x != i {
      var kids := KidsOf(cs);
      var q := WhichKid(kids, i, |kids[i]|, x);
      SubUnder(nodes, n, min, cs, kids[i][q], x);
    }
  }

  lemma {:induction false} SomePoint(nodes: seq<HNode>, n: nat, v: nat)
    requires Built(nodes, n) && v < |nodes|
    ensures Under(nodes, n, v) != {}
    decreases v
  {
    if v >= n {
      SomePoint(nodes, n, nodes[v].left);
    }
  }

  lemma KidsBranch(nodes: seq<HNode>, n: nat, min: nat, cs: seq<Cluster>)
    requires AllComplete(nodes, n, min, cs)
    ensures Branching(KidsOf(cs))
  {
    hide AllComplete, Under, Sub;
    KidsDownward(nodes, n, min, cs);
    var kids := KidsOf(cs);
    forall i, q | 0 <= i < |kids| && 0 <= q < |kids[i]|
      ensures SubKids(kids, i, q) !! Sub(kids, kids[i][q])
    {
      KidsInside(nodes, n, min, cs, i);
      forall x | x in SubKids(kids, i, q) ensures x !in Sub(kids, kids[i][q]) {
        if x in Sub(kids, kids[i][q]) {
          var p := WhichKid(kids, i, q, x);
          SubUnder(nodes, n, min, cs, kids[i][p], x);
          SubUnder(nodes, n, min, cs, kids[i][q], x);
          SomePoint(nodes, n, cs[x].top);
        }
      }
    }
  }

  /** Two clusters, neither inside the other, share no point. */
  lemma {:induction false} PointsApart(nodes: seq<HNode>, n: nat, min: nat, cs: seq<Cluster>, i: nat, x: nat, y: nat)
    requires AllComplete(nodes, n, min, cs) && Downward(KidsOf(cs)) && i < |cs|
    requires x in Sub(KidsOf(cs), i) && y in Sub(KidsOf(cs), i) && x < |cs| && y < |cs|
    requires x !in Sub(KidsOf(cs), y) && y !in Sub(KidsOf(cs), x)
    ensures Built(nodes, n) && cs[x].top < |nodes| && cs[y].top < |nodes|
    ensures Under(nodes, n, cs[x].top) !! Under(nodes, n, cs[y].top)
    decreases |cs| - i
  {
    hide AllComplete, Under;
    var kids := KidsOf(cs);
    KidsInside(nodes, n, min, cs, i);
    var p := WhichKid(kids, i, |kids[i]|, x);
    var q := WhichKid(kids, i, |kids[i]|, y);
    if p == q {
      PointsApart(nodes, n, min, cs, kids[i][p], x, y);
    } else {
      SubUnder(nodes, n, min, cs, kids[i][p], x);
      SubUnder(nodes, n, min, cs, kids[i][q], y);
    }
  }

  lemma AfterWalk(nodes: seq<HNode>, n: nat, min: nat, before: seq<Cluster>, after: seq<Cluster>, root: nat)
    requires Sized(nodes, n) && min >= 2 && n <= root < |nodes| && |before| == 1 && before[0].top == root
    requires Walked(nodes, n, min, before, after, 0, root) && Complete(nodes, n, min, after, 0)
    ensures AllComplete(nodes, n, min, after) && after[0].top == root && after[0].birth == before[0].birth
  {
    hide Sized, Under, Complete, ExitsFor, KidsFor;
  }

  // --- Stability and flags ---------------------------------------------------------------------------

  /** How long each point stays in a cluster. */
  ghost function Stays(c: Cluster): map<nat, real> {
    map p | p in c.exits :: c.exits[p] - c.birth
  }

  ghost function StabilityOf(c: Cluster): real {
    Sum(Stays(c), Stays(c).Keys)
  }

  lemma {:induction false} SumLess(w: map<nat, real>, w': map<nat, real>, s: set<nat>, b: real)
    requires s <= w.Keys && s <= w'.Keys && forall p :: p in s ==> w'[p] == w[p] - b
    ensures Sum(w', s) == Sum(w, s) - |s| as real * b
  {
    if s != {} {
      var p :| p in s;
      SumPick(w, s, p);
      SumPick(w', s, p);
      SumLess(w, w', s - {p}, b);
      assert |s| as real * b == |s - {p}| as real * b + b;
    }
  }

  /** A cluster is worth its points' exits, less its birth once for every point. */
  lemma StabilityIs(c: Cluster)
    ensures StabilityOf(c) == Sum(c.exits, c.exits.Keys) - |c.exits.Keys| as real * c.birth
  {
    assert Stays(c).Keys == c.exits.Keys;
    SumLess(c.exits, Stays(c), c.exits.Keys, c.birth);
  }

  ghost function Stabilities(cs: seq<Cluster>): map<nat, real> {
    map i: nat | i < |cs| :: StabilityOf(cs[i])
  }

  ghost function Chosen(cs: seq<Cluster>): set<nat> {
    set i: nat | i < |cs| && cs[i].sel
  }

  /** Nothing changed but stabilities and flags, and those only in `s`. */
  ghost predicate Only(cs: seq<Cluster>, cs': seq<Cluster>, s: set<nat>) {
    && |cs'| == |cs|
    && forall i: nat :: i < |cs| ==>
         cs'[i] == cs[i].(stab := cs'[i].stab, sel := cs'[i].sel) && (i !in s ==> cs'[i] == cs[i])
  }

  lemma OnlyKeeps(cs: seq<Cluster>, cs': seq<Cluster>, s: set<nat>)
    requires Only(cs, cs', s)
    ensures KidsOf(cs') == KidsOf(cs) && Stabilities(cs') == Stabilities(cs)
  {
    forall i: nat | i < |cs| ensures StabilityOf(cs'[i]) == StabilityOf(cs[i]) {
      assert Stays(cs'[i]) == Stays(cs[i]);
    }
  }

  lemma OnlyOne(cs: seq<Cluster>, cs': seq<Cluster>, c: nat)
    requires c < |cs| == |cs'| && cs' == cs[c := cs[c].(stab := cs'[c].stab, sel := cs'[c].sel)]
    ensures Only(cs, cs', {c}) && KidsOf(cs') == KidsOf(cs)
  {
  }

  lemma OnlyThen(a: seq<Cluster>, b: seq<Cluster>, c: seq<Cluster>, s: set<nat>, t: set<nat>)
    requires Only(a, b, s) && Only(b, c, t)
    ensures Only(a, c, s + t)
  {
  }

  lemma SubIs(kids: seq<seq<nat>>, i: nat)
    requires Downward(kids) && i < |kids|
    ensures Sub(kids, i) == {i} + SubKids(kids, i, |kids[i]|) && SubKids(kids, i, 0) == {}
  {
  }

  /** The flags in `s` are cleared, and nothing else changed. */
  ghost predicate Deselected(cs: seq<Cluster>, cs': seq<Cluster>, s: set<nat>) {
    && |cs'| == |cs| && KidsOf(cs') == KidsOf(cs)
    && forall i: nat :: i < |cs| ==> cs'[i] == if i in s then cs[i].(sel := false) else cs[i]
  }

  lemma DeselectedNone(cs: seq<Cluster>)
    ensures Deselected(cs, cs, {})
  {
  }

  lemma DeselectedOne(cs: seq<Cluster>, cs': seq<Cluster>, c: nat)
    requires c < |cs| && cs' == cs[c := cs[c].(sel := false)]
    ensures Deselected(cs, cs', {c}) && KidsOf(cs') == KidsOf(cs)
  {
  }

  lemma DeselectedThen(a: seq<Cluster>, b: seq<Cluster>, c: seq<Cluster>, s: set<nat>, t: set<nat>)
    requires Deselected(a, b, s) && Deselected(b, c, t)
    ensures Deselected(a, c, s + t) && KidsOf(c) == KidsOf(a)
  {
  }

  /** The stabilities in `s` are up to date. */
  ghost predicate Rated(cs: seq<Cluster>, s: set<nat>) {
    forall i :: i in s ==> i < |cs| && cs[i].stab == StabilityOf(cs[i])
  }

  lemma RatedOne(cs: seq<Cluster>, cs': seq<Cluster>, c: nat)
    requires c < |cs| && cs' == cs[c := cs[c].(stab := StabilityOf(cs[c]))]
    ensures Rated(cs', {c})
  {
    assert Stays(cs'[c]) == Stays(cs[c]);
  }

  /** An antichain inside `s`, worth `total`. */
  ghost predicate Picks(kids: seq<seq<nat>>, w: map<nat, real>, picked: set<nat>, s: set<nat>, total: real) {
    Downward(kids) && Antichain(kids, picked) && picked <= s && picked <= w.Keys && Sum(w, picked) == total
  }

  /** Among `s`, cluster `x` is worth at least what can be selected inside it, and is inside no
      other such cluster. */
  ghost predicate Foremost(cs: seq<Cluster>, s: set<nat>, x: nat) {
    Downward(KidsOf(cs)) && Weighs(KidsOf(cs), Stabilities(cs)) && TopMost(KidsOf(cs), Stabilities(cs), s, x)
  }

  lemma ForemostNone(cs: seq<Cluster>, c: nat)
    requires Branching(KidsOf(cs)) && c < |cs|
    ensures forall x :: !Foremost(cs, SubKids(KidsOf(cs), c, 0), x)
  {
    hide StabilityOf, Sub;
  }

  lemma ForemostMore(cs: seq<Cluster>, cs1: seq<Cluster>, c: nat, k: nat, picked: set<nat>, extra: set<nat>)
    requires Branching(KidsOf(cs)) && c < |cs| && k < |KidsOf(cs)[c]| && KidsOf(cs)[c][k] < |cs|
    requires KidsOf(cs1) == KidsOf(cs) && Stabilities(cs1) == Stabilities(cs)
    requires forall x :: x in picked <==> Foremost(cs, SubKids(KidsOf(cs), c, k), x)
    requires forall x :: x in extra <==> Foremost(cs1, Sub(KidsOf(cs), KidsOf(cs)[c][k]), x)
    ensures forall x :: x in picked + extra <==> Foremost(cs, SubKids(KidsOf(cs), c, k + 1), x)
  {
    hide StabilityOf, Sub, SubKids, TopMost, Branching;
    assert Downward(KidsOf(cs)) by { BranchIs(KidsOf(cs), c); }
    assert Weighs(KidsOf(cs), Stabilities(cs));
    forall x ensures x in picked + extra <==> Foremost(cs, SubKids(KidsOf(cs), c, k + 1), x) {
      TopMostMore(KidsOf(cs), Stabilities(cs), c, k, x);
    }
  }

  lemma ForemostOwn(cs: seq<Cluster>, c: nat, own: real, sum: real)
    requires Branching(KidsOf(cs)) && c < |cs| && Weighs(KidsOf(cs), Stabilities(cs))
    requires own == StabilityOf(cs[c]) && sum == BestKids(KidsOf(cs), Stabilities(cs), c, |KidsOf(cs)[c]|)
    ensures own >= sum ==> forall x :: Foremost(cs, Sub(KidsOf(cs), c), x) <==> x == c
    ensures own < sum ==> forall x :: Foremost(cs, Sub(KidsOf(cs), c), x) <==>
                                      Foremost(cs, SubKids(KidsOf(cs), c, |KidsOf(cs)[c]|), x)
  {
    hide StabilityOf, Sub, SubKids, TopMost, Branching;
    var kids, w := KidsOf(cs), Stabilities(cs);
    assert Downward(kids) by { BranchIs(kids, c); }
    assert Wins(kids, w, c) <==> own >= sum;
    forall x ensures own >= sum ==> (Foremost(cs, Sub(kids, c), x) <==> x == c)
             ensures own < sum ==> (Foremost(cs, Sub(kids, c), x) <==> Foremost(cs, SubKids(kids, c, |kids[c]|), x))
    {
      TopMostOwn(kids, w, c, x);
    }
  }

  lemma PicksNone(kids: seq<seq<nat>>, w: map<nat, real>)
    requires Branching(kids)
    ensures Picks(kids, w, {}, {}, 0.0)
  {
  }

  lemma PicksWider(kids: seq<seq<nat>>, w: map<nat, real>, picked: set<nat>, s: set<nat>, t: set<nat>, total: real)
    requires Picks(kids, w, picked, s, total) && s <= t
    ensures Picks(kids, w, picked, t, total)
  {
  }

  lemma BranchIs(kids: seq<seq<nat>>, i: nat)
    requires Branching(kids) && i < |kids|
    ensures Downward(kids) && Sub(kids, i) == {i} + SubKids(kids, i, |kids[i]|) && SubKids(kids, i, 0) == {}
  {
    SubIs(kids, i);
  }

  lemma BestIs(kids: seq<seq<nat>>, cs: seq<Cluster>, c: nat)
    requires Branching(kids) && kids == KidsOf(cs) && c < |cs|
    ensures var w := Stabilities(cs);
      && Weighs(kids, w) && w[c] == StabilityOf(cs[c]) && BestKids(kids, w, c, 0) == 0.0
      && Best(kids, w, c) == if StabilityOf(cs[c]) >= BestKids(kids, w, c, |kids[c]|)
                             then StabilityOf(cs[c]) else BestKids(kids, w, c, |kids[c]|)
  {
    hide StabilityOf;
  }

  /** The next child's clusters have not been touched. */
  lemma KidUntouched(kids: seq<seq<nat>>, w: map<nat, real>, chosen: set<nat>, picked: set<nat>, total: real, c: nat,
                     k: nat)
    requires Branching(kids) && c < |kids| && k < |kids[c]| && chosen !! Sub(kids, c)
    requires Picks(kids, w, picked, SubKids(kids, c, k), total)
    ensures chosen + picked !! Sub(kids, kids[c][k])
  {
    hide Sub, SubKids;
    SubIs(kids, c);
    KidInside(kids, c, |kids[c]|, k);
    assert SubKids(kids, c, k) !! Sub(kids, kids[c][k]);
  }

  lemma PicksMore(kids: seq<seq<nat>>, w: map<nat, real>, c: nat, k: nat, picked: set<nat>, sum: real,
                  extra: set<nat>, more: real)
    requires Branching(kids) && c < |kids| && k < |kids[c]| && Weighs(kids, w)
    requires Picks(kids, w, picked, SubKids(kids, c, k), sum) && Picks(kids, w, extra, Sub(kids, kids[c][k]), more)
    ensures Picks(kids, w, picked + extra, SubKids(kids, c, k + 1), sum + more)
    ensures BestKids(kids, w, c, k + 1) == BestKids(kids, w, c, k) + Best(kids, w, kids[c][k])
  {
    hide Sub, SubKids, Sum, Antichain, Best, Branching;
    JoinAntichains(kids, c, k, picked, extra);
    SumUnion(w, picked, extra);
  }

  lemma RatedMore(cs0: seq<Cluster>, cs1: seq<Cluster>, cs2: seq<Cluster>, kids: seq<seq<nat>>, c: nat, k: nat)
    requires Branching(kids) && c < |kids| && k < |kids[c]| && |cs0| == |kids|
    requires Only(cs0, cs1, {c} + SubKids(kids, c, k)) && Rated(cs1, {c} + SubKids(kids, c, k))
    requires Only(cs1, cs2, Sub(kids, kids[c][k])) && Rated(cs2, Sub(kids, kids[c][k]))
    ensures Only(cs0, cs2, {c} + SubKids(kids, c, k + 1)) && Rated(cs2, {c} + SubKids(kids, c, k + 1))
    ensures KidsOf(cs2) == KidsOf(cs1) && Stabilities(cs2) == Stabilities(cs1)
  {
    hide Sub, SubKids, StabilityOf, Stabilities;
    var s, t := {c} + SubKids(kids, c, k), Sub(kids, kids[c][k]);
    OnlyThen(cs0, cs1, cs2, s, t);
    OnlyKeeps(cs1, cs2, t);
    SubKidsMore(kids, c, k);
    assert {c} + SubKids(kids, c, k + 1) == s + t;
    forall i | i in s && i !in t ensures i < |cs2| && cs2[i].stab == StabilityOf(cs2[i]) {
      assert cs2[i] == cs1[i];
    }
  }

  /** Cluster `c` is selected in place of what was selected inside it. */
  lemma TakesAll(cs0: seq<Cluster>, cs1: seq<Cluster>, cs2: seq<Cluster>, cs3: seq<Cluster>, kids: seq<seq<nat>>,
                 w: map<nat, real>, c: nat, picked: set<nat>, sum: real)
    requires Branching(kids) && c < |kids| && |cs0| == |kids| && Weighs(kids, w) && Chosen(cs0) !! Sub(kids, c)
    requires Only(cs0, cs1, Sub(kids, c)) && Rated(cs1, Sub(kids, c)) && Chosen(cs1) == Chosen(cs0) + picked
    requires Picks(kids, w, picked, SubKids(kids, c, |kids[c]|), sum)
    requires c < |cs1| && cs2 == cs1[c := cs1[c].(sel := true)]
    requires Deselected(cs2, cs3, SubKids(kids, c, |kids[c]|))
    ensures Only(cs0, cs3, Sub(kids, c)) && Rated(cs3, Sub(kids, c))
    ensures Chosen(cs3) == Chosen(cs0) + {c} && Picks(kids, w, {c}, Sub(kids, c), w[c])
  {
    hide Sub, SubKids, Branching, Stabilities;
    SubIs(kids, c);
    forall x | x in SubKids(kids, c, |kids[c]|) ensures c < x {
      SubKidsBounds(kids, c, |kids[c]|, x);
    }
    SumPick(w, {c}, c);
    assert {c} - {c} == {};
  }

  // --- Gathering ----------------------------------------------------------------------------------------

  /** A selected cluster and its points in ascending order. */
  datatype Selected = Selected(c: nat, members: seq<nat>)

  ghost predicate TopsFit(nodes: seq<HNode>, cs: seq<Cluster>) {
    forall i :: 0 <= i < |cs| ==> cs[i].top < |nodes|
  }

  ghost predicate MembersAre(nodes: seq<HNode>, n: nat, cs: seq<Cluster>, s: Selected)
    requires Built(nodes, n)
  {
    && s.c < |cs| && cs[s.c].top < |nodes| && Ascending(s.members)
    && forall p :: p in s.members <==> p in Under(nodes, n, cs[s.c].top)
  }

  ghost predicate Lists(sels: seq<Selected>, x: nat) {
    exists k :: 0 <= k < |sels| && sels[k].c == x
  }

  ghost predicate Different(sels: seq<Selected>) {
    forall j, k :: 0 <= j < k < |sels| ==> sels[j].c != sels[k].c
  }

  /** Each cluster of `s` is listed once, with its points. */
  ghost predicate Gathered(nodes: seq<HNode>, n: nat, cs: seq<Cluster>, sels: seq<Selected>, s: set<nat>)
    requires Built(nodes, n)
  {
    && (forall k :: 0 <= k < |sels| ==> sels[k].c in s && MembersAre(nodes, n, cs, sels[k]))
    && Different(sels) && forall x :: x in s ==> Lists(sels, x)
  }

  lemma OnlyItself(kids: seq<seq<nat>>, s: set<nat>, c: nat)
    requires Branching(kids) && c < |kids| && Antichain(kids, s) && c in s && s <= Sub(kids, c)
    ensures s == {c}
  {
    hide Sub;
    forall x | x in s ensures x == c {
    }
  }

  lemma GatheredOne(nodes: seq<HNode>, n: nat, cs: seq<Cluster>, c: nat, members: seq<nat>)
    requires Built(nodes, n) && c < |cs| && cs[c].top < |nodes| && Ascending(members)
    requires forall p :: p in members <==> p in Under(nodes, n, cs[c].top)
    ensures Gathered(nodes, n, cs, [Selected(c, members)], {c})
  {
    hide Under, Ascending;
    assert [Selected(c, members)][0].c == c;
  }

  lemma GatheredNone(nodes: seq<HNode>, n: nat, cs: seq<Cluster>)
    requires Built(nodes, n)
    ensures Gathered(nodes, n, cs, [], {})
  {
  }

  lemma GatheredMore(nodes: seq<HNode>, n: nat, cs: seq<Cluster>, sels: seq<Selected>, more: seq<Selected>,
                     s: set<nat>, t: set<nat>)
    requires Built(nodes, n) && s !! t
    requires Gathered(nodes, n, cs, sels, s) && Gathered(nodes, n, cs, more, t)
    ensures Gathered(nodes, n, cs, sels + more, s + t)
  {
    hide Under, MembersAre;
    var all := sels + more;
    forall x | x in s + t ensures Lists(all, x) {
      if x in s {
        var k :| 0 <= k < |sels| && sels[k].c == x;
        assert all[k].c == x;
      } else {
        var k :| 0 <= k < |more| && more[k].c == x;
        assert all[|sels| + k].c == x;
      }
    }
  }

  lemma KidChosen(kids: seq<seq<nat>>, chosen: set<nat>, c: nat, k: nat)
    requires Branching(kids) && c < |kids| && k < |kids[c]| && Antichain(kids, chosen * Sub(kids, c))
    ensures Antichain(kids, chosen * Sub(kids, kids[c][k]))
    ensures chosen * SubKids(kids, c, k) !! chosen * Sub(kids, kids[c][k])
  {
    hide Sub, SubKids, Antichain;
    SubIs(kids, c);
    KidInside(kids, c, |kids[c]|, k);
    AntichainSubset(kids, chosen * Sub(kids, c), chosen * Sub(kids, kids[c][k]));
    assert SubKids(kids, c, k) !! Sub(kids, kids[c][k]);
  }

  /** Selected clusters, ordered by their smallest points. */
  ghost predicate BySmallest(sels: seq<Selected>) {
    && (forall k :: 0 <= k < |sels| ==> sels[k].members != [])
    && forall j, k :: 0 <= j < k < |sels| ==> sels[j].members[0] <= sels[k].members[0]
  }

  method PlaceSelected(sels: seq<Selected>, s: Selected) returns (r: seq<Selected>)
    requires BySmallest(sels) && Different(sels) && s.members != [] && forall t :: t in sels ==> t.c != s.c
    ensures BySmallest(r) && Different(r) && |r| == |sels| + 1 && forall t :: t in r <==> t == s || t in sels
  {
    var at := 0;
    while at < |sels| && sels[at].members[0] <= s.members[0]
      invariant 0 <= at <= |sels|
      invariant forall k :: 0 <= k < at ==> sels[k].members[0] <= s.members[0]
    {
      at := at + 1;
    }
    r := sels[..at] + [s] + sels[at..];
    PlacedAt(sels, at, s);
    PlacedSelected(sels, at, s, r);
  }

  lemma PlacedSelected(sels: seq<Selected>, at: nat, s: Selected, r: seq<Selected>)
    requires BySmallest(sels) && Different(sels) && at <= |sels| && s.members != []
    requires forall t :: t in sels ==> t.c != s.c
    requires forall k :: 0 <= k < at ==> sels[k].members[0] <= s.members[0]
    requires at < |sels| ==> s.members[0] < sels[at].members[0]
    requires Placed(sels, at, s, r)
    ensures BySmallest(r) && Different(r)
  {
    forall i | 0 <= i < |sels| ensures sels[i].c != s.c && (i >= at ==> s.members[0] <= sels[i].members[0]) {
      assert sels[i] in sels;
    }
  }

  method SortSelected(sels: seq<Selected>) returns (r: seq<Selected>)
    requires Different(sels) && forall k :: 0 <= k < |sels| ==> sels[k].members != []
    ensures BySmallest(r) && Different(r) && |r| == |sels| && forall t :: t in r <==> t in sels
  {
    hide BySmallest;
    r := [];
    assert BySmallest(r) by { NoneBySmallest(); }
    for i := 0 to |sels|
      invariant BySmallest(r) && Different(r) && |r| == i && forall t :: t in r <==> t in sels[..i]
    {
      assert sels[..i + 1] == sels[..i] + [sels[i]];
      r := PlaceSelected(r, sels[i]);
    }
    assert sels[..|sels|] == sels;
  }

  lemma NoneBySmallest()
    ensures BySmallest([])
  {
  }

  lemma SortKeeps(nodes: seq<HNode>, n: nat, cs: seq<Cluster>, sels: seq<Selected>, r: seq<Selected>, s: set<nat>)
    requires Built(nodes, n) && Gathered(nodes, n, cs, sels, s)
    requires Different(r) && forall t :: t in r <==> t in sels
    ensures Gathered(nodes, n, cs, r, s)
  {
    hide Under, MembersAre;
    forall k | 0 <= k < |r| ensures r[k].c in s && MembersAre(nodes, n, cs, r[k]) {
      assert r[k] in sels;
    }
    forall x | x in s ensures Lists(r, x) {
      var k :| 0 <= k < |sels| && sels[k].c == x;
      assert sels[k] in r;
    }
  }

  /** Every listed cluster has points. */
  lemma GatheredPoints(nodes: seq<HNode>, n: nat, cs: seq<Cluster>, sels: seq<Selected>, s: set<nat>)
    requires Built(nodes, n) && Gathered(nodes, n, cs, sels, s)
    ensures Different(sels) && forall k :: 0 <= k < |sels| ==> sels[k].members != []
  {
    hide Under;
    forall k | 0 <= k < |sels| ensures sels[k].members != [] {
      assert MembersAre(nodes, n, cs, sels[k]);
      SomePoint(nodes, n, cs[sels[k].c].top);
    }
  }

  // --- Labels ---------------------------------------------------------------------------------------------

  const NOISE := -1

  /** Per point a label and a membership probability; per label its cluster's stability. */
  datatype Result = Result(labels: seq<int>, probabilities: seq<real>, stabilities: seq<real>)

  /** Probabilities are exits as fractions of the cluster's largest, `m`. */
  ghost predicate ScaledBy(exits: map<nat, real>, members: seq<nat>, probs: seq<real>, m: real) {
    && (forall p :: p in members ==> Fraction(exits, probs, m, p))
    && exists p :: p in members && p in exits && exits[p] == m
  }

  ghost predicate Fraction(exits: map<nat, real>, probs: seq<real>, m: real, p: nat) {
    p in exits && p < |probs| && 0.0 < probs[p] <= 1.0 && probs[p] * m == exits[p]
  }

  ghost predicate Scaled(exits: map<nat, real>, members: seq<nat>, probs: seq<real>) {
    exists m :: ScaledBy(exits, members, probs, m)
  }

  ghost predicate DisjointMembers(sels: seq<Selected>) {
    forall j, k, p :: 0 <= j < k < |sels| && p in sels[j].members ==> p !in sels[k].members
  }

  ghost predicate Carries(sels: seq<Selected>, j: nat, p: nat) {
    j < |sels| && p in sels[j].members
  }

  /** The first `k` selected clusters have been labelled, and nothing else. */
  ghost predicate Labelled(n: nat, cs: seq<Cluster>, sels: seq<Selected>, k: nat, labels: seq<int>, probs: seq<real>) {
    && k <= |sels| && |labels| == |probs| == n
    && (forall j: nat, p: nat :: j < k && Carries(sels, j, p) ==> p < n && labels[p] == j)
    && (forall j :: 0 <= j < k ==> sels[j].c < |cs| && Scaled(cs[sels[j].c].exits, sels[j].members, probs))
    && forall p :: 0 <= p < n && (forall j :: 0 <= j < k ==> !Carries(sels, j, p)) ==>
         labels[p] == NOISE && probs[p] == 0.0
  }

  ghost predicate Stepped(s: Selected, k: nat, labels: seq<int>, probs: seq<real>, labels': seq<int>,
                          probs': seq<real>) {
    && |labels'| == |labels| && |probs'| == |probs| && |labels| == |probs|
    && (forall p :: p in s.members ==> p < |labels| && labels'[p] == k)
    && forall p :: 0 <= p < |labels| && p !in s.members ==> labels'[p] == labels[p] && probs'[p] == probs[p]
  }

  lemma LabelledMore(n: nat, cs: seq<Cluster>, sels: seq<Selected>, k: nat, labels: seq<int>, probs: seq<real>,
                     labels': seq<int>, probs': seq<real>)
    requires Labelled(n, cs, sels, k, labels, probs) && k < |sels| && DisjointMembers(sels)
    requires sels[k].c < |cs| && Scaled(cs[sels[k].c].exits, sels[k].members, probs')
    requires Stepped(sels[k], k, labels, probs, labels', probs')
    ensures Labelled(n, cs, sels, k + 1, labels', probs')
  {
    hide Scaled;
    forall j | 0 <= j < k ensures Scaled(cs[sels[j].c].exits, sels[j].members, probs') {
      ScaledStays(cs[sels[j].c].exits, sels[j].members, probs, probs') by {
        forall p | p in sels[j].members ensures p < n && probs'[p] == probs[p] {
          assert Carries(sels, j, p);
        }
      }
    }
    forall p | 0 <= p < n && (forall j :: 0 <= j < k + 1 ==> !Carries(sels, j, p))
      ensures labels'[p] == NOISE && probs'[p] == 0.0
    {
      assert !Carries(sels, k, p);
    }
    forall j: nat, p: nat | j < k + 1 && Carries(sels, j, p) ensures p < n && labels'[p] == j {
    }
  }

  lemma ScaledStays(exits: map<nat, real>, members: seq<nat>, probs: seq<real>, probs': seq<real>)
    requires Scaled(exits, members, probs) && |probs'| == |probs|
    requires forall p :: p in members ==> p < |probs| && probs'[p] == probs[p]
    ensures Scaled(exits, members, probs')
  {
    var m :| ScaledBy(exits, members, probs, m);
    forall p | p in members ensures Fraction(exits, probs', m, p) {
      assert Fraction(exits, probs, m, p);
    }
    assert ScaledBy(exits, members, probs', m);
  }

  /** The first `i` points of the cluster have their label and share. */
  ghost predicate Marked(from: map<nat, real>, s: Selected, i: nat, k: nat, m: real,
                         labels: seq<int>, probs: seq<real>, labels': seq<int>, probs': seq<real>)
  {
    && i <= |s.members| && |labels'| == |labels| == |probs| == |probs'|
    && (forall p :: p in s.members[..i] ==> p < |labels| && labels'[p] == k && Fraction(from, probs', m, p))
    && forall p :: 0 <= p < |labels| && p !in s.members[..i] ==> labels'[p] == labels[p] && probs'[p] == probs[p]
  }

  lemma MarkedMore(from: map<nat, real>, s: Selected, i: nat, k: nat, m: real,
                   labels: seq<int>, probs: seq<real>, labels': seq<int>, probs': seq<real>, prob: real)
    requires Marked(from, s, i, k, m, labels, probs, labels', probs') && i < |s.members|
    requires s.members[i] < |labels| && s.members[i] in from && 0.0 < prob <= 1.0 && prob * m == from[s.members[i]]
    ensures s.members[i] < |labels'| == |probs'|
    ensures Marked(from, s, i + 1, k, m, labels, probs, labels'[s.members[i] := k], probs'[s.members[i] := prob])
  {
    var p := s.members[i];
    assert s.members[..i + 1] == s.members[..i] + [p];
    var probs2 := probs'[p := prob];
    forall q | q in s.members[..i] && q != p ensures Fraction(from, probs2, m, q) {
      assert Fraction(from, probs', m, q);
    }
  }

  lemma FractionIs(exit: real, m: real)
    requires 0.0 < exit <= m
    ensures 0.0 < exit / m <= 1.0 && exit / m * m == exit
  {
  }

  // --- What one run leaves behind -----------------------------------------------------------------------

  lemma CompleteIsReady(nodes: seq<HNode>, n: nat, min: nat, cs: seq<Cluster>)
    requires AllComplete(nodes, n, min, cs)
    ensures Branching(KidsOf(cs)) && Downward(KidsOf(cs)) && |cs| > 0 && Chosen(cs) == {} && TopsFit(nodes, cs)
  {
    KidsBranch(nodes, n, min, cs);
    hide Under, ExitsFor, KidsFor;
    forall i | 0 <= i < |cs| ensures !cs[i].sel && cs[i].top < |nodes| {
      assert Complete(nodes, n, min, cs, i);
    }
  }

  lemma OnlyTops(nodes: seq<HNode>, cs: seq<Cluster>, cs': seq<Cluster>, s: set<nat>)
    requires Only(cs, cs', s) && TopsFit(nodes, cs)
    ensures TopsFit(nodes, cs')
  {
  }

  lemma PicksReady(kids: seq<seq<nat>>, w: map<nat, real>, chosen: set<nat>, picked: set<nat>, s: set<nat>, total: real)
    requires Picks(kids, w, picked, s, total) && chosen == picked
    ensures Downward(kids) && Antichain(kids, chosen * s) && chosen * s == picked
  {
    assert chosen * s == picked;
  }

  /** Listed clusters that form an antichain share no point. */
  lemma MembersApart(nodes: seq<HNode>, n: nat, min: nat, tree: seq<Cluster>, cs: seq<Cluster>, sels: seq<Selected>,
                     picked: set<nat>)
    requires AllComplete(nodes, n, min, tree) && Downward(KidsOf(tree)) && Built(nodes, n)
    requires Only(tree, cs, Sub(KidsOf(tree), 0)) && Antichain(KidsOf(tree), picked) && picked <= Sub(KidsOf(tree), 0)
    requires Gathered(nodes, n, cs, sels, picked)
    ensures DisjointMembers(sels)
  {
    hide AllComplete, Under, Sub;
    forall j, k, p | 0 <= j < k < |sels| && p in sels[j].members ensures p !in sels[k].members {
      var x, y := sels[j].c, sels[k].c;
      assert MembersAre(nodes, n, cs, sels[j]) && MembersAre(nodes, n, cs, sels[k]);
      PointsApart(nodes, n, min, tree, 0, x, y);
    }
  }

  /** Every point of a cluster has an exit from it, and all exits are positive. */
  lemma ExitsPositive(nodes: seq<HNode>, n: nat, min: nat, tree: seq<Cluster>, cs: seq<Cluster>, s: Selected,
                      t: set<nat>)
    requires AllComplete(nodes, n, min, tree) && Only(tree, cs, t) && Built(nodes, n) && MembersAre(nodes, n, cs, s)
    ensures forall p :: p in s.members ==> p in cs[s.c].exits && cs[s.c].exits[p] > 0.0
  {
    hide Under;
    assert Complete(nodes, n, min, tree, s.c);
  }

  lemma UnderBelow(nodes: seq<HNode>, n: nat, v: nat, p: nat)
    requires Built(nodes, n) && v < |nodes| && p in Under(nodes, n, v)
    ensures p < n
    decreases v
  {
    if v >= n {
      if p in Under(nodes, n, nodes[v].left) {
        UnderBelow(nodes, n, nodes[v].left, p);
      } else {
        UnderBelow(nodes, n, nodes[v].right, p);
      }
    }
  }

  lemma OnlyGathered(nodes: seq<HNode>, n: nat, tree: seq<Cluster>, cs: seq<Cluster>, sels: seq<Selected>,
                     s: set<nat>, t: set<nat>)
    requires Built(nodes, n) && Only(tree, cs, t) && Gathered(nodes, n, cs, sels, s)
    ensures Gathered(nodes, n, tree, sels, s)
  {
    hide Under;
    forall k | 0 <= k < |sels| ensures MembersAre(nodes, n, tree, sels[k]) {
      assert MembersAre(nodes, n, cs, sels[k]);
    }
  }

  lemma OnlyLabelled(n: nat, tree: seq<Cluster>, cs: seq<Cluster>, sels: seq<Selected>, k: nat,
                     labels: seq<int>, probs: seq<real>, t: set<nat>)
    requires Only(tree, cs, t) && Labelled(n, cs, sels, k, labels, probs)
    ensures Labelled(n, tree, sels, k, labels, probs)
  {
    hide Scaled;
    forall j | 0 <= j < k ensures sels[j].c < |tree| && Scaled(tree[sels[j].c].exits, sels[j].members, probs) {
      assert tree[sels[j].c].exits == cs[sels[j].c].exits;
    }
  }

  /** What labelling needs of the listed clusters. */
  ghost predicate Labelable(n: nat, cs: seq<Cluster>, sels: seq<Selected>) {
    DisjointMembers(sels) && forall k :: 0 <= k < |sels| ==> LabelableAt(n, cs, sels[k])
  }

  ghost predicate LabelableAt(n: nat, cs: seq<Cluster>, s: Selected) {
    && s.c < |cs| && s.members != []
    && (forall p :: p in s.members ==> p < n && p in cs[s.c].exits && cs[s.c].exits[p] > 0.0)
    && cs[s.c].stab == StabilityOf(cs[s.c])
  }

  lemma MakeLabelable(nodes: seq<HNode>, n: nat, min: nat, tree: seq<Cluster>, cs: seq<Cluster>, sels: seq<Selected>,
                      picked: set<nat>)
    requires AllComplete(nodes, n, min, tree) && Downward(KidsOf(tree)) && Built(nodes, n)
    requires Only(tree, cs, Sub(KidsOf(tree), 0)) && Antichain(KidsOf(tree), picked) && picked <= Sub(KidsOf(tree), 0)
    requires Rated(cs, Sub(KidsOf(tree), 0)) && Gathered(nodes, n, cs, sels, picked)
    ensures Labelable(n, cs, sels)
  {
    hide AllComplete, Under, Sub, StabilityOf;
    MembersApart(nodes, n, min, tree, cs, sels, picked);
    GatheredPoints(nodes, n, cs, sels, picked);
    forall k | 0 <= k < |sels| ensures LabelableAt(n, cs, sels[k]) {
      var s := sels[k];
      assert MembersAre(nodes, n, cs, s);
      ExitsPositive(nodes, n, min, tree, cs, s, Sub(KidsOf(tree), 0));
      forall p | p in s.members ensures p < n {
        UnderBelow(nodes, n, cs[s.c].top, p);
      }
    }
  }

  lemma PicksAre(kids: seq<seq<nat>>, w: map<nat, real>, picked: set<nat>, s: set<nat>, total: real)
    requires Picks(kids, w, picked, s, total)
    ensures Downward(kids) && Antichain(kids, picked) && picked <= s
  {
  }

  lemma SameStabilities(cs: seq<Cluster>, cs': seq<Cluster>, s: set<nat>)
    requires Only(cs, cs', s)
    ensures |cs| == |cs'| && forall i :: 0 <= i < |cs| ==> StabilityOf(cs'[i]) == StabilityOf(cs[i])
  {
    forall i | 0 <= i < |cs| ensures StabilityOf(cs'[i]) == StabilityOf(cs[i]) {
      assert Stays(cs'[i]) == Stays(cs[i]);
    }
  }

  lemma LabelableApart(n: nat, cs: seq<Cluster>, sels: seq<Selected>)
    requires Labelable(n, cs, sels)
    ensures DisjointMembers(sels)
  {
  }
}
