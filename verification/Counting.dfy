/** How many entries the memo can ever hold: the values the register can take, times the subsets
    of the operations. */
module Counting {
  import opened SearchTree
  import opened Register

  function Pow2(n: nat): nat {
    if n == 0 then 1 else 2 * Pow2(n - 1)
  }

  ghost function Plus(s: set<nat>, i: nat): set<nat> {
    s + {i}
  }

  ghost function PlusEach(sets: set<set<nat>>, i: nat): set<set<nat>> {
    set s | s in sets :: Plus(s, i)
  }

  ghost function Subsets(n: nat): set<set<nat>> {
    if n == 0 then {{}}
    else Subsets(n - 1) + PlusEach(Subsets(n - 1), n - 1)
  }

  /** A set obtained by mapping another is no larger. */
  lemma {:induction false} ImageSize<A, B>(source: set<A>, image: set<B>, f: A -> B)
    requires forall b :: b in image ==> exists a :: a in source && f(a) == b
    ensures |image| <= |source|
    decreases |source|
  {
    if image != {} {
      var b :| b in image;
      var a :| a in source && f(a) == b;
      forall b' | b' in image - {b} ensures exists a' :: a' in source - {a} && f(a') == b' {
        var a' :| a' in source && f(a') == b';
        assert a' in source - {a};
      }
      ImageSize(source - {a}, image - {b}, f);
    }
  }

  lemma PlusEachSize(sets: set<set<nat>>, i: nat)
    ensures |PlusEach(sets, i)| <= |sets|
  {
    ImageSize(sets, PlusEach(sets, i), (s: set<nat>) => Plus(s, i));
  }

  lemma UnionSize<T>(a: set<T>, b: set<T>)
    ensures |a + b| <= |a| + |b|
  {
    assert a + b == a + (b - a);
  }

  lemma Doubled(sets: set<set<nat>>, i: nat, bound: nat)
    requires |sets| <= bound
    ensures |sets + PlusEach(sets, i)| <= 2 * bound
  {
    hide PlusEach;
    PlusEachSize(sets, i);
    UnionSize(sets, PlusEach(sets, i));
  }

  lemma {:induction false} SubsetsSize(n: nat)
    ensures |Subsets(n)| <= Pow2(n)
  {
    hide *;
    if n == 0 {
      SubsetsOfNone();
    } else {
      SubsetsSize(n - 1);
      SubsetsNext(n);
      Doubled(Subsets(n - 1), n - 1, Pow2(n - 1));
    }
  }

  lemma SubsetsOfNone()
    ensures |Subsets(0)| == 1 && Pow2(0) == 1
  {
    var none: set<nat> := {};
    assert Subsets(0) == {none};
  }

  lemma SubsetsNext(n: nat)
    requires n > 0
    ensures Subsets(n) == Subsets(n - 1) + PlusEach(Subsets(n - 1), n - 1) && Pow2(n) == 2 * Pow2(n - 1)
  {
    hide PlusEach;
  }

  lemma {:induction false} SubsetsComplete(n: nat, s: set<nat>)
    requires forall i :: i in s ==> i < n
    ensures s in Subsets(n)
  {
    if n == 0 {
      assert s == {};
    } else {
      SubsetsComplete(n - 1, s - {n - 1});
      if n - 1 in s {
        assert s == Plus(s - {n - 1}, n - 1);
      } else {
        assert s == s - {n - 1};
      }
    }
  }

  lemma {:induction false} PairsSize(values: set<Value>, subsets: set<set<nat>>, spots: set<Spot>)
    requires forall spot :: spot in spots ==> spot.state in values && spot.placed in subsets
    ensures |spots| <= |values| * |subsets|
    decreases |values|
  {
    if values == {} {
      assert spots == {};
    } else {
      var v :| v in values;
      var mine := set spot | spot in spots && spot.state == v;
      var others := spots - mine;
      PairsSize(values - {v}, subsets, others);
      WithState(v, subsets, mine);
      assert spots == mine + others;
      UnionSize(mine, others);
      OneMore(|values - {v}|, |subsets|);
      assert |values| == |values - {v}| + 1;
    }
  }

  lemma WithState(v: Value, subsets: set<set<nat>>, mine: set<Spot>)
    requires forall spot :: spot in mine ==> spot.state == v && spot.placed in subsets
    ensures |mine| <= |subsets|
  {
    forall spot | spot in mine ensures exists s :: s in subsets && Spot(v, s) == spot {
      assert Spot(v, spot.placed) == spot;
    }
    ImageSize(subsets, mine, (s: set<nat>) => Spot(v, s));
  }

  lemma OneMore(a: nat, b: nat)
    ensures (a + 1) * b == a * b + b
  {
  }

  /** Distinct spots over the first `n` operations. */
  lemma SpotsBound(values: set<Value>, n: nat, spots: set<Spot>)
    requires forall spot :: spot in spots ==> spot.state in values && forall i :: i in spot.placed ==> i < n
    ensures |spots| <= |values| * Pow2(n)
  {
    forall spot | spot in spots ensures spot.placed in Subsets(n) {
      SubsetsComplete(n, spot.placed);
    }
    PairsSize(values, Subsets(n), spots);
    SubsetsSize(n);
    Times(|values|, |Subsets(n)|, Pow2(n));
  }

  lemma Times(a: nat, b: nat, c: nat)
    requires b <= c
    ensures a * b <= a * c
  {
  }
}
