/** Choosing nodes of a tree so that none is inside another, and the most that such a choice can
    be worth. */
module Antichains {

  // --- Sums over finite sets -----------------------------------------------------------------

  ghost function Sum(w: map<nat, real>, s: set<nat>): real
    requires s <= w.Keys
  {
    if s == {} then 0.0 else
      var x :| x in s;
      w[x] + Sum(w, s - {x})
  }

  lemma {:induction false} SumPick(w: map<nat, real>, s: set<nat>, x: nat)
    requires s <= w.Keys && x in s
    ensures Sum(w, s) == w[x] + Sum(w, s - {x})
  {
    var y :| y in s && Sum(w, s) == w[y] + Sum(w, s - {y});
    if y != x {
      SumPick(w, s - {y}, x);
      SumPick(w, s - {x}, y);
      assert s - {y} - {x} == s - {x} - {y};
    }
  }

  lemma {:induction false} SumUnion(w: map<nat, real>, s: set<nat>, t: set<nat>)
    requires s <= w.Keys && t <= w.Keys && s !! t
    ensures Sum(w, s + t) == Sum(w, s) + Sum(w, t)
  {
    if s == {} {
      assert s + t == t;
    } else {
      var x :| x in s;
      SumPick(w, s, x);
      SumPick(w, s + t, x);
      assert s + t - {x} == (s - {x}) + t;
      SumUnion(w, s - {x}, t);
    }
  }

  // --- Trees in a table of child lists -------------------------------------------------------

  /** Children come later in the table. */
  ghost predicate Downward(kids: seq<seq<nat>>) {
    forall i, q :: 0 <= i < |kids| && 0 <= q < |kids[i]| ==> i < kids[i][q] < |kids|
  }

  /** A cluster and everything inside it. */
  ghost function Sub(kids: seq<seq<nat>>, i: nat): set<nat>
    requires Downward(kids) && i < |kids|
    decreases |kids| - i, |kids[i]| + 1
  {
    {i} + SubKids(kids, i, |kids[i]|)
  }

  /** Everything inside the first `k` children. */
  ghost function SubKids(kids: seq<seq<nat>>, i: nat, k: nat): set<nat>
    requires Downward(kids) && i < |kids| && k <= |kids[i]|
    decreases |kids| - i, k
  {
    if k == 0 then {} else SubKids(kids, i, k - 1) + Sub(kids, kids[i][k - 1])
  }

  /** Siblings have nothing in common. */
  ghost predicate Branching(kids: seq<seq<nat>>) {
    Downward(kids) && forall i, q :: 0 <= i < |kids| && 0 <= q < |kids[i]| ==>
      SubKids(kids, i, q) !! Sub(kids, kids[i][q])
  }

  /** No member is inside another. */
  ghost predicate Antichain(kids: seq<seq<nat>>, a: set<nat>)
    requires Downward(kids)
  {
    forall x, y :: x in a && y in a && x != y ==> x < |kids| && y < |kids| && y !in Sub(kids, x)
  }

  /** Every node has a worth. */
  ghost predicate Weighs(kids: seq<seq<nat>>, w: map<nat, real>) {
    forall j: nat :: j < |kids| ==> j in w
  }

  /** The most that an antichain inside `i` can be worth. */
  ghost function Best(kids: seq<seq<nat>>, w: map<nat, real>, i: nat): real
    requires Downward(kids) && i < |kids| && Weighs(kids, w)
    decreases |kids| - i, |kids[i]| + 1
  {
    var below := BestKids(kids, w, i, |kids[i]|);
    if w[i] >= below then w[i] else below
  }

  ghost function BestKids(kids: seq<seq<nat>>, w: map<nat, real>, i: nat, k: nat): real
    requires Downward(kids) && i < |kids| && k <= |kids[i]| && Weighs(kids, w)
    decreases |kids| - i, k
  {
    if k == 0 then 0.0 else BestKids(kids, w, i, k - 1) + Best(kids, w, kids[i][k - 1])
  }

  lemma {:induction false} SubBounds(kids: seq<seq<nat>>, i: nat, x: nat)
    requires Downward(kids) && i < |kids| && x in Sub(kids, i)
    ensures i <= x < |kids|
    decreases |kids| - i, |kids[i]| + 1
  {
    if x != i {
      SubKidsBounds(kids, i, |kids[i]|, x);
    }
  }

  lemma {:induction false} SubKidsBounds(kids: seq<seq<nat>>, i: nat, k: nat, x: nat)
    requires Downward(kids) && i < |kids| && k <= |kids[i]| && x in SubKids(kids, i, k)
    ensures i < x < |kids|
    decreases |kids| - i, k
  {
    if x in SubKids(kids, i, k - 1) {
      SubKidsBounds(kids, i, k - 1, x);
    } else {
      SubBounds(kids, kids[i][k - 1], x);
    }
  }

  /** Inside one of the children. */
  lemma {:induction false} WhichKid(kids: seq<seq<nat>>, i: nat, k: nat, x: nat) returns (q: nat)
    requires Downward(kids) && i < |kids| && k <= |kids[i]| && x in SubKids(kids, i, k)
    ensures q < k && x in Sub(kids, kids[i][q])
  {
    if x in Sub(kids, kids[i][k - 1]) {
      q := k - 1;
    } else {
      q := WhichKid(kids, i, k - 1, x);
    }
  }

  lemma {:induction false} KidInside(kids: seq<seq<nat>>, i: nat, k: nat, q: nat)
    requires Downward(kids) && i < |kids| && q < k <= |kids[i]|
    ensures Sub(kids, kids[i][q]) <= SubKids(kids, i, k)
    ensures q < |kids[i]|
  {
    if q < k - 1 {
      KidInside(kids, i, k - 1, q);
    }
  }

  /** What is inside a member is inside the whole. */
  lemma {:induction false} SubTransitive(kids: seq<seq<nat>>, i: nat, x: nat)
    requires Downward(kids) && i < |kids| && x in Sub(kids, i)
    ensures x < |kids| && Sub(kids, x) <= Sub(kids, i)
    decreases |kids| - i
  {
    if x != i {
      var q := WhichKid(kids, i, |kids[i]|, x);
      SubTransitive(kids, kids[i][q], x);
      KidInside(kids, i, |kids[i]|, q);
    }
  }

  lemma SubWeighed(kids: seq<seq<nat>>, w: map<nat, real>, i: nat)
    requires Downward(kids) && i < |kids| && Weighs(kids, w)
    ensures Sub(kids, i) <= w.Keys
  {
    forall x | x in Sub(kids, i) ensures x in w {
      SubBounds(kids, i, x);
    }
  }

  lemma AntichainSubset(kids: seq<seq<nat>>, a: set<nat>, b: set<nat>)
    requires Downward(kids) && Antichain(kids, a) && b <= a
    ensures Antichain(kids, b)
  {
    hide Sub;
  }

  /** No antichain is worth more than `Best`. */
  lemma {:induction false} BestIsMost(kids: seq<seq<nat>>, w: map<nat, real>, i: nat, a: set<nat>)
    requires Branching(kids) && Weighs(kids, w) && i < |kids|
    requires Antichain(kids, a) && a <= Sub(kids, i) && a <= w.Keys
    ensures Sum(w, a) <= Best(kids, w, i)
    decreases |kids| - i, |kids[i]| + 1
  {
    if i in a {
      forall x | x in a ensures x == i {
        assert x in Sub(kids, i);
      }
      assert a == {i};
      SumPick(w, a, i);
      assert a - {i} == {};
    } else {
      BestKidsIsMost(kids, w, i, |kids[i]|, a);
    }
  }

  lemma {:induction false} BestKidsIsMost(kids: seq<seq<nat>>, w: map<nat, real>, i: nat, k: nat, a: set<nat>)
    requires Branching(kids) && Weighs(kids, w) && i < |kids| && k <= |kids[i]|
    requires Antichain(kids, a) && a <= SubKids(kids, i, k) && a <= w.Keys
    ensures Sum(w, a) <= BestKids(kids, w, i, k)
    decreases |kids| - i, k, 1
  {
    if k == 0 {
      NoKids(kids, w, i);
    } else {
      MoreKids(kids, w, i, k, a);
    }
  }

  lemma NoKids(kids: seq<seq<nat>>, w: map<nat, real>, i: nat)
    requires Downward(kids) && i < |kids| && Weighs(kids, w)
    ensures SubKids(kids, i, 0) == {} && BestKids(kids, w, i, 0) == 0.0 && Sum(w, {}) == 0.0
  {
  }

  lemma {:induction false} MoreKids(kids: seq<seq<nat>>, w: map<nat, real>, i: nat, k: nat, a: set<nat>)
    requires Branching(kids) && Weighs(kids, w) && i < |kids| && 0 < k <= |kids[i]|
    requires Antichain(kids, a) && a <= SubKids(kids, i, k) && a <= w.Keys
    ensures Sum(w, a) <= BestKids(kids, w, i, k)
    decreases |kids| - i, k, 0
  {
    var l: nat := k - 1;
    KidsApart(kids, i, l);
    hide *;
    var first, last := Halves(a, SubKids(kids, i, l), Sub(kids, kids[i][l]));
    AntichainSubset(kids, a, first);
    AntichainSubset(kids, a, last);
    BestKidsIsMost(kids, w, i, l, first);
    BestIsMost(kids, w, kids[i][l], last);
    SumUnion(w, first, last);
    BestKidsMore(kids, w, i, l);
  }

  lemma KidsApart(kids: seq<seq<nat>>, i: nat, l: nat)
    requires Branching(kids) && i < |kids| && l < |kids[i]|
    ensures Downward(kids) && i < kids[i][l] < |kids| && SubKids(kids, i, l) !! Sub(kids, kids[i][l])
    ensures SubKids(kids, i, l + 1) == SubKids(kids, i, l) + Sub(kids, kids[i][l])
  {
  }

  lemma BestKidsMore(kids: seq<seq<nat>>, w: map<nat, real>, i: nat, l: nat)
    requires Downward(kids) && i < |kids| && l < |kids[i]| && Weighs(kids, w)
    ensures BestKids(kids, w, i, l + 1) == BestKids(kids, w, i, l) + Best(kids, w, kids[i][l])
  {
  }

  lemma Halves(a: set<nat>, s: set<nat>, t: set<nat>) returns (first: set<nat>, last: set<nat>)
    requires a <= s + t && s !! t
    ensures first <= s && last <= t && first !! last && a == first + last && first <= a && last <= a
  {
    first, last := a * s, a * t;
  }

  /** Antichains inside different children make one antichain. */
  lemma JoinAntichains(kids: seq<seq<nat>>, i: nat, k: nat, a: set<nat>, b: set<nat>)
    requires Branching(kids) && i < |kids| && k < |kids[i]|
    requires Antichain(kids, a) && a <= SubKids(kids, i, k)
    requires Antichain(kids, b) && b <= Sub(kids, kids[i][k])
    ensures Antichain(kids, a + b) && a !! b && a + b <= SubKids(kids, i, k + 1)
  {
    hide Sub, SubKids;
    assert SubKids(kids, i, k) !! Sub(kids, kids[i][k]);
    assert SubKids(kids, i, k + 1) == SubKids(kids, i, k) + Sub(kids, kids[i][k]) by { SubKidsMore(kids, i, k); }
    forall x | x in a ensures x < |kids| && Sub(kids, x) <= SubKids(kids, i, k) {
      var q := WhichKid(kids, i, k, x);
      SubTransitive(kids, kids[i][q], x);
      KidInside(kids, i, k, q);
    }
    forall y | y in b ensures y < |kids| && Sub(kids, y) <= Sub(kids, kids[i][k]) {
      SubTransitive(kids, kids[i][k], y);
    }
  }

  // --- Which antichain is chosen -------------------------------------------------------------

  /** A node that is worth at least what can be had inside it. */
  ghost predicate Wins(kids: seq<seq<nat>>, w: map<nat, real>, x: nat)
    requires Downward(kids) && Weighs(kids, w)
  {
    x < |kids| && w[x] >= BestKids(kids, w, x, |kids[x]|)
  }

  /** Among `s`, `x` wins and is inside no other that does. */
  ghost predicate TopMost(kids: seq<seq<nat>>, w: map<nat, real>, s: set<nat>, x: nat)
    requires Downward(kids) && Weighs(kids, w)
  {
    && x in s && Wins(kids, w, x)
    && forall y :: y in s && y != x && y < |kids| && x in Sub(kids, y) ==> !Wins(kids, w, y)
  }

  lemma TopMostNone(kids: seq<seq<nat>>, w: map<nat, real>, c: nat)
    requires Downward(kids) && Weighs(kids, w) && c < |kids|
    ensures forall x: nat :: !TopMost(kids, w, SubKids(kids, c, 0), x)
  {
  }

  /** One more child brings its own winners. */
  lemma TopMostMore(kids: seq<seq<nat>>, w: map<nat, real>, c: nat, k: nat, x: nat)
    requires Branching(kids) && Weighs(kids, w) && c < |kids| && k < |kids[c]|
    ensures TopMost(kids, w, SubKids(kids, c, k + 1), x) <==>
            TopMost(kids, w, SubKids(kids, c, k), x) || TopMost(kids, w, Sub(kids, kids[c][k]), x)
  {
    KidsApart(kids, c, k);
    hide Sub, SubKids, Wins, Branching;
    var s, t := SubKids(kids, c, k), Sub(kids, kids[c][k]);
    forall y | y in s ensures y < |kids| && Sub(kids, y) <= s {
      var q := WhichKid(kids, c, k, y);
      SubTransitive(kids, kids[c][q], y);
      KidInside(kids, c, k, q);
    }
    forall y | y in t ensures y < |kids| && Sub(kids, y) <= t {
      SubTransitive(kids, kids[c][k], y);
    }
  }

  /** A node that wins is the only winner that is inside no other; one that does not win leaves
      the choice to its children. */
  lemma TopMostOwn(kids: seq<seq<nat>>, w: map<nat, real>, c: nat, x: nat)
    requires Branching(kids) && Weighs(kids, w) && c < |kids|
    ensures Wins(kids, w, c) ==> (TopMost(kids, w, Sub(kids, c), x) <==> x == c)
    ensures !Wins(kids, w, c) ==>
      (TopMost(kids, w, Sub(kids, c), x) <==> TopMost(kids, w, SubKids(kids, c, |kids[c]|), x))
  {
    var below := SubKids(kids, c, |kids[c]|);
    assert Sub(kids, c) == {c} + below;
    forall y | y in below ensures c < y < |kids| {
      SubKidsBounds(kids, c, |kids[c]|, y);
    }
    hide SubKids, Wins;
    forall y | y in below && c in Sub(kids, y) ensures false {
      SubBounds(kids, y, c);
    }
  }

  lemma SubKidsMore(kids: seq<seq<nat>>, i: nat, k: nat)
    requires Downward(kids) && i < |kids| && k < |kids[i]|
    ensures SubKids(kids, i, k + 1) == SubKids(kids, i, k) + Sub(kids, kids[i][k])
  {
  }
}
