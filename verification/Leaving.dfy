/** Where points leave clusters and where clusters end, said without walking. */
module Leaving {
  import opened SingleLinkage
  import opened CondensedTree

  /** A node's size is the number of points under it, so that it is big when they are at least
      `min`. */
  lemma {:induction false} BigIsMany(nodes: seq<HNode>, n: nat, min: nat, id: nat)
    requires Sized(nodes, n) && id < |nodes|
    ensures nodes[id].size == |Under(nodes, n, id)| > 0
    ensures Big(nodes, min, id) <==> |Under(nodes, n, id)| >= min
    decreases id
  {
    if id >= n {
      assert JoinSized(nodes, n, id);
      BigIsMany(nodes, n, min, nodes[id].left);
      BigIsMany(nodes, n, min, nodes[id].right);
    }
  }

  /** Node `x` is `v`, or on one of its sides. */
  ghost predicate Inside(nodes: seq<HNode>, n: nat, v: nat, x: nat)
    requires Built(nodes, n) && v < |nodes|
    decreases v
  {
    x == v || (v >= n && (Inside(nodes, n, nodes[v].left, x) || Inside(nodes, n, nodes[v].right, x)))
  }

  lemma {:induction false} InsideUnder(nodes: seq<HNode>, n: nat, v: nat, x: nat)
    requires Built(nodes, n) && v < |nodes| && Inside(nodes, n, v, x)
    ensures x <= v && Under(nodes, n, x) <= Under(nodes, n, v)
    decreases v
  {
    if x != v {
      if Inside(nodes, n, nodes[v].left, x) {
        InsideUnder(nodes, n, nodes[v].left, x);
      } else {
        InsideUnder(nodes, n, nodes[v].right, x);
      }
    }
  }

  ghost predicate Many(nodes: seq<HNode>, n: nat, min: nat, id: nat)
    requires Built(nodes, n) && id < |nodes|
  {
    |Under(nodes, n, id)| >= min
  }

  /** Exactly one side of the join has at least `min` points. */
  ghost predicate OneMany(nodes: seq<HNode>, n: nat, min: nat, x: nat)
    requires Built(nodes, n) && n <= x < |nodes|
  {
    Many(nodes, n, min, nodes[x].left) != Many(nodes, n, min, nodes[x].right)
  }

  /** At join `x`, point `p` stays with the one side that has many points. */
  ghost predicate Stays(nodes: seq<HNode>, n: nat, min: nat, x: nat, p: nat)
    requires Built(nodes, n) && n <= x < |nodes|
  {
    && OneMany(nodes, n, min, x)
    && p in Under(nodes, n, if Many(nodes, n, min, nodes[x].left) then nodes[x].left else nodes[x].right)
  }

  /** A point leaves a cluster at the highest join inside it, over the point, at which it does
      not stay with the only big side. */
  lemma {:induction false} LeavesAtIs(nodes: seq<HNode>, n: nat, min: nat, v: nat, p: nat)
    requires Sized(nodes, n) && n <= v < |nodes| && min >= 2 && p in Under(nodes, n, v)
    ensures var e := LeavesAt(nodes, n, min, v, p);
      && Inside(nodes, n, v, e) && p in Under(nodes, n, e) && !Stays(nodes, n, min, e, p)
      && forall x: nat :: n <= x < |nodes| && x > e && Inside(nodes, n, v, x) && p in Under(nodes, n, x) ==>
           Stays(nodes, n, min, x, p)
    decreases v
  {
    var l, r, e := nodes[v].left, nodes[v].right, LeavesAt(nodes, n, min, v, p);
    assert JoinSized(nodes, n, v);
    BigIsMany(nodes, n, min, l);
    BigIsMany(nodes, n, min, r);
    if Stays(nodes, n, min, v, p) {
      var big, small := if Big(nodes, min, l) then l else r, if Big(nodes, min, l) then r else l;
      BigIsJoin(nodes, n, min, big);
      LeavesAtIs(nodes, n, min, big, p);
      forall x: nat | n <= x < |nodes| && x > e && Inside(nodes, n, v, x) && p in Under(nodes, n, x) && x != v
        ensures Stays(nodes, n, min, x, p)
      {
        if Inside(nodes, n, small, x) {
          InsideUnder(nodes, n, small, x);
        }
      }
    } else {
      forall x: nat | x > e && Inside(nodes, n, v, x) ensures false {
        InsideUnder(nodes, n, v, x);
      }
    }
  }

  /** A cluster ends at the highest join inside it that has many points and not exactly one
      side with many. */
  lemma {:induction false} EndingIs(nodes: seq<HNode>, n: nat, min: nat, v: nat)
    requires Sized(nodes, n) && n <= v < |nodes| && min >= 2 && Many(nodes, n, min, v)
    ensures var e := Ending(nodes, n, min, v);
      && Inside(nodes, n, v, e) && Many(nodes, n, min, e) && !OneMany(nodes, n, min, e)
      && forall x: nat :: n <= x < |nodes| && x > e && Inside(nodes, n, v, x) && Many(nodes, n, min, x) ==>
           OneMany(nodes, n, min, x)
    decreases v
  {
    var l, r, e := nodes[v].left, nodes[v].right, Ending(nodes, n, min, v);
    BigIsMany(nodes, n, min, l);
    BigIsMany(nodes, n, min, r);
    if OneMany(nodes, n, min, v) {
      var big, small := if Big(nodes, min, l) then l else r, if Big(nodes, min, l) then r else l;
      BigIsJoin(nodes, n, min, big);
      EndingIs(nodes, n, min, big);
      forall x: nat | n <= x < |nodes| && x > e && Inside(nodes, n, v, x) && Many(nodes, n, min, x) && x != v
        ensures OneMany(nodes, n, min, x)
      {
        if Inside(nodes, n, small, x) {
          FewInside(nodes, n, min, small, x);
        }
      }
    } else {
      forall x: nat | x > e && Inside(nodes, n, v, x) ensures false {
        InsideUnder(nodes, n, v, x);
      }
    }
  }

  lemma FewInside(nodes: seq<HNode>, n: nat, min: nat, v: nat, x: nat)
    requires Built(nodes, n) && v < |nodes| && x < |nodes| && Inside(nodes, n, v, x) && !Many(nodes, n, min, v)
    ensures !Many(nodes, n, min, x)
  {
    InsideUnder(nodes, n, v, x);
    Fewer(Under(nodes, n, x), Under(nodes, n, v));
  }

  lemma Fewer(s: set<nat>, t: set<nat>)
    requires s <= t
    ensures |s| <= |t|
  {
    assert t == s + (t - s);
  }
}
