/** Binary search for the first bad revision, over revisions that may not answer. */
module Bisect {

  datatype Verdict = Good | Bad | Skip

  /** How a search over the candidates ends. `PastEnd` is a range that closed beyond its
      upper end; `Expired` is one the budget cut short. */
  datatype Outcome =
    | Found(at: nat)
    | Exhausted(lo: nat, hi: nat)
    | Expired(lo: nat, hi: nat)
    | PastEnd

  // --- The walk outward from the middle ----------------------------------------------------

  function Middle(lo: nat, hi: nat): (m: nat)
    requires lo < hi
    ensures lo <= m < hi && m - lo <= hi - m <= m - lo + 1
  {
    lo + (hi - lo) / 2
  }

  function Inside(lo: nat, hi: nat, i: int): seq<nat> {
    if lo <= i <= hi then [i] else []
  }

  /** The revisions at distance `off` from `mid` and beyond, nearest first and the older of
      two equally near first. */
  ghost function Outward(lo: nat, hi: nat, mid: nat, off: nat): seq<nat>
    requires lo <= mid <= hi
    decreases hi - lo + 1 - off
  {
    if off > hi - lo then []
    else if off == 0 then [mid] + Outward(lo, hi, mid, 1)
    else Inside(lo, hi, mid - off) + Inside(lo, hi, mid + off) + Outward(lo, hi, mid, off + 1)
  }

  ghost predicate Fits(measure: seq<Verdict>, order: seq<nat>) {
    forall q :: 0 <= q < |order| ==> order[q] < |measure|
  }

  /** The position of the first revision in `order` that answers. */
  ghost function First(measure: seq<Verdict>, order: seq<nat>): (p: nat)
    requires Fits(measure, order)
    ensures p <= |order| && (p < |order| ==> measure[order[p]] != Skip)
    ensures forall q :: 0 <= q < p ==> measure[order[q]] == Skip
  {
    if order == [] || measure[order[0]] != Skip then 0
    else 1 + First(measure, order[1..])
  }

  /** `i` is among the first `p`. */
  ghost predicate Among(order: seq<nat>, p: nat, i: nat) {
    exists q :: 0 <= q < p && q < |order| && order[q] == i
  }

  ghost predicate Far(mid: nat, off: nat, i: int) {
    i <= mid - off || i >= mid + off
  }

  lemma {:induction false} OutwardInside(lo: nat, hi: nat, mid: nat, off: nat)
    requires lo <= mid <= hi
    ensures forall q :: 0 <= q < |Outward(lo, hi, mid, off)| ==>
      lo <= Outward(lo, hi, mid, off)[q] <= hi && Far(mid, off, Outward(lo, hi, mid, off)[q])
    decreases hi - lo + 1 - off
  {
    if off <= hi - lo {
      OutwardInside(lo, hi, mid, off + 1);
    }
  }

  lemma AmongLater(a: seq<nat>, b: seq<nat>, p: nat, i: nat)
    requires Among(b, p, i)
    ensures Among(a + b, |a| + p, i)
  {
    var q :| 0 <= q < p && q < |b| && b[q] == i;
    assert (a + b)[|a| + q] == i;
  }

  lemma AmongFirst(a: seq<nat>, b: seq<nat>, q: nat, p: nat)
    requires q < |a| && q < p
    ensures Among(a + b, p, a[q])
  {
    assert (a + b)[q] == a[q];
  }

  lemma {:induction false} OutwardCovers(lo: nat, hi: nat, mid: nat, off: nat, i: nat)
    requires lo <= mid <= hi && lo <= i <= hi && Far(mid, off, i)
    ensures Among(Outward(lo, hi, mid, off), |Outward(lo, hi, mid, off)|, i)
    decreases hi - lo + 1 - off
  {
    var head := if off == 0 then [mid] else Inside(lo, hi, mid - off) + Inside(lo, hi, mid + off);
    var tail := Outward(lo, hi, mid, off + 1);
    assert Outward(lo, hi, mid, off) == head + tail;
    if i == mid - off {
      AmongFirst(head, tail, 0, |head| + |tail|);
    } else if i == mid + off {
      AmongFirst(head, tail, |head| - 1, |head| + |tail|);
    } else {
      OutwardCovers(lo, hi, mid, off + 1, i);
      AmongLater(head, tail, |tail|, i);
    }
  }

  /** The walk from the middle reaches the upper end last. */
  lemma {:induction false} EndIsLast(lo: nat, hi: nat, mid: nat, off: nat, p: nat, i: nat)
    requires lo <= mid < hi && mid - lo <= hi - mid && off <= hi - mid
    requires p < |Outward(lo, hi, mid, off)| && Outward(lo, hi, mid, off)[p] == hi
    requires lo <= i < hi && Far(mid, off, i)
    ensures Among(Outward(lo, hi, mid, off), p, i)
    decreases hi - lo + 1 - off
  {
    var head := if off == 0 then [mid] else Inside(lo, hi, mid - off) + Inside(lo, hi, mid + off);
    var tail := Outward(lo, hi, mid, off + 1);
    assert Outward(lo, hi, mid, off) == head + tail;
    if mid + off == hi {
      OutwardInside(lo, hi, mid, off + 1);
      AmongFirst(head, tail, 0, p);
    } else if i == mid - off {
      AmongFirst(head, tail, 0, p);
    } else if i == mid + off {
      AmongFirst(head, tail, |head| - 1, p);
    } else {
      EndIsLast(lo, hi, mid, off + 1, p - |head|, i);
      AmongLater(head, tail, p - |head|, i);
    }
  }

  /** `x` is nearer to `mid` than `y`, or as near and older. */
  ghost predicate NearerTo(mid: nat, x: nat, y: nat) {
    var dx, dy := if x < mid then mid - x else x - mid, if y < mid then mid - y else y - mid;
    dx < dy || (dx == dy && x < y)
  }

  /** The walk asks nearer revisions first, and of two equally near the older one. */
  lemma {:induction false} OutwardNearestFirst(lo: nat, hi: nat, mid: nat, off: nat)
    requires lo <= mid <= hi
    ensures forall q, r :: 0 <= q < r < |Outward(lo, hi, mid, off)| ==>
      NearerTo(mid, Outward(lo, hi, mid, off)[q], Outward(lo, hi, mid, off)[r])
    decreases hi - lo + 1 - off
  {
    if off <= hi - lo {
      OutwardNearestFirst(lo, hi, mid, off + 1);
      OutwardInside(lo, hi, mid, off + 1);
    }
  }

  ghost function Order(lo: nat, hi: nat): (order: seq<nat>)
    requires lo < hi
    ensures forall q :: 0 <= q < |order| ==> lo <= order[q] <= hi
  {
    OutwardInside(lo, hi, Middle(lo, hi), 0);
    Outward(lo, hi, Middle(lo, hi), 0)
  }

  lemma OrderIs(lo: nat, hi: nat)
    requires lo < hi
    ensures Order(lo, hi) == [] + Outward(lo, hi, Middle(lo, hi), 0)
  {
  }

  /** A walk that nothing answers has asked the whole range; one that the upper end answers
      has asked everything below it. */
  lemma WalkAsks(measure: seq<Verdict>, lo: nat, hi: nat)
    requires lo < hi < |measure|
    ensures var order := Order(lo, hi); var p := First(measure, order);
      && (p == |order| ==> forall i :: lo <= i <= hi ==> measure[i] == Skip)
      && (p < |order| && order[p] == hi ==> forall i :: lo <= i < hi ==> measure[i] == Skip)
  {
    var mid, order := Middle(lo, hi), Order(lo, hi);
    var p := First(measure, order);
    if p == |order| {
      forall i | lo <= i <= hi ensures measure[i] == Skip {
        OutwardCovers(lo, hi, mid, 0, i);
        var q :| 0 <= q < |order| && order[q] == i;
      }
    } else if order[p] == hi {
      forall i | lo <= i < hi ensures measure[i] == Skip {
        EndIsLast(lo, hi, mid, 0, p, i);
        var q :| 0 <= q < p && order[q] == i;
      }
    }
  }

  // --- The search as a function --------------------------------------------------------------

  /** The search of a range with `limit` tests left. */
  ghost function Search(measure: seq<Verdict>, lo: nat, hi: nat, limit: nat): Outcome
    requires hi < |measure|
    decreases limit
  {
    if lo > hi then PastEnd
    else if lo == hi then Found(lo)
    else
      var order := Order(lo, hi);
      var p := First(measure, order);
      if (if p < |order| then p >= limit else p > limit) then Expired(lo, hi)
      else if p == |order| then Exhausted(lo, hi)
      else if measure[order[p]] == Bad then Search(measure, lo, order[p], limit - p - 1)
      else Search(measure, order[p] + 1, hi, limit - p - 1)
  }

  /** What the search knows about the ends of its range. */
  ghost predicate Bounded(measure: seq<Verdict>, lo: nat, hi: nat) {
    && hi < |measure| && (hi == |measure| - 1 || measure[hi] == Bad)
    && lo <= hi + 1 && (lo == 0 || measure[lo - 1] == Good)
  }

  /** A found revision measured bad, or is the trusted end; the one before it measured
      good, or is the good end. */
  ghost predicate Honest(measure: seq<Verdict>, o: Outcome)
    requires |measure| > 0
  {
    match o
    case Found(a) =>
      a < |measure| && (a == |measure| - 1 || measure[a] == Bad) && (a == 0 || measure[a - 1] == Good)
    case Exhausted(l, h) => l < h == |measure| - 1 && forall i :: l <= i <= h ==> measure[i] == Skip
    case Expired(l, h) => l < h && Bounded(measure, l, h)
    case PastEnd => measure[|measure| - 1] == Good
  }

  lemma {:induction false} SearchIsHonest(measure: seq<Verdict>, lo: nat, hi: nat, limit: nat)
    requires Bounded(measure, lo, hi) && (lo > hi ==> measure[hi] == Good)
    ensures Honest(measure, Search(measure, lo, hi, limit))
    decreases limit
  {
    hide First, Order;
    if lo < hi {
      WalkAsks(measure, lo, hi);
      var order := Order(lo, hi);
      var p := First(measure, order);
      if p < limit && p < |order| {
        if measure[order[p]] == Bad {
          SearchIsHonest(measure, lo, order[p], limit - p - 1);
        } else {
          SearchIsHonest(measure, order[p] + 1, hi, limit - p - 1);
        }
      }
    }
  }

  // --- Over a monotone history ------------------------------------------------------------------

  /** No measurement contradicts `first` being the first bad revision. */
  ghost predicate Consistent(measure: seq<Verdict>, first: nat) {
    && first < |measure|
    && (forall i :: 0 <= i < first ==> measure[i] != Bad)
    && forall i :: first <= i < |measure| ==> measure[i] != Good
  }

  /** The surviving range always holds the first bad revision. */
  ghost predicate Holds(o: Outcome, first: nat) {
    match o
    case Found(a) => a == first
    case Exhausted(l, h) => l <= first <= h
    case Expired(l, h) => l <= first <= h
    case PastEnd => false
  }

  lemma {:induction false} RangeHoldsFirst(measure: seq<Verdict>, lo: nat, hi: nat, limit: nat, first: nat)
    requires Consistent(measure, first) && lo <= first <= hi < |measure|
    ensures Holds(Search(measure, lo, hi, limit), first)
    decreases limit
  {
    hide First, Order;
    if lo < hi {
      var order := Order(lo, hi);
      var p := First(measure, order);
      if p < limit && p < |order| {
        if measure[order[p]] == Bad {
          RangeHoldsFirst(measure, lo, order[p], limit - p - 1, first);
        } else {
          RangeHoldsFirst(measure, order[p] + 1, hi, limit - p - 1, first);
        }
      }
    }
  }

  /** Two neighbours answer: the first bad revision and the last good one, which may be the
      good end itself. */
  ghost predicate Pinned(measure: seq<Verdict>, first: nat) {
    first < |measure| && measure[first] == Bad && (first == 0 || measure[first - 1] == Good)
  }

  lemma {:induction false} PinnedSettles(measure: seq<Verdict>, lo: nat, hi: nat, first: nat) returns (limit: nat)
    requires Consistent(measure, first) && Pinned(measure, first) && lo <= first <= hi < |measure|
    ensures Search(measure, lo, hi, limit) == Found(first)
    decreases hi - lo
  {
    hide First, Order;
    if lo == hi {
      limit := 0;
    } else {
      WalkAsks(measure, lo, hi);
      var order := Order(lo, hi);
      var p := First(measure, order);
      var rest: nat;
      if measure[order[p]] == Bad {
        rest := PinnedSettles(measure, lo, order[p], first);
      } else {
        rest := PinnedSettles(measure, order[p] + 1, hi, first);
      }
      limit := p + 1 + rest;
    }
  }

  /** The search of all the candidates. */
  ghost function FullSearch(measure: seq<Verdict>, limit: nat): Outcome
    requires |measure| > 0
  {
    Search(measure, 0, |measure| - 1, limit)
  }

  /** Nothing measured good comes after something measured bad. */
  ghost predicate Monotone(measure: seq<Verdict>) {
    forall i, j :: 0 <= i < j < |measure| ==> !(measure[i] == Bad && measure[j] == Good)
  }

  /** `b` is the first position that measures bad. */
  ghost predicate LeastBad(measure: seq<Verdict>, b: nat) {
    b < |measure| && measure[b] == Bad && forall i :: 0 <= i < b ==> measure[i] != Bad
  }

  lemma {:induction false} SomeLeastBad(measure: seq<Verdict>, i: nat) returns (b: nat)
    requires i < |measure| && measure[i] == Bad
    ensures LeastBad(measure, b)
  {
    b := i;
    if j: nat :| j < i && measure[j] == Bad {
      b := SomeLeastBad(measure, j);
    }
  }

  /** A first bad revision whose predecessor does not answer keeps the range from closing. */
  lemma {:induction false} NeverSettles(measure: seq<Verdict>, lo: nat, hi: nat, limit: nat, b: nat)
    requires Monotone(measure) && LeastBad(measure, b) && b > 0 && measure[b - 1] != Good
    requires lo < b <= hi < |measure|
    ensures Search(measure, lo, hi, limit).Expired?
    decreases limit
  {
    hide First, Order;
    WalkAsks(measure, lo, hi);
    var order := Order(lo, hi);
    var p := First(measure, order);
    if p < limit && p < |order| {
      if measure[order[p]] == Bad {
        NeverSettles(measure, lo, order[p], limit - p - 1, b);
      } else {
        NeverSettles(measure, order[p] + 1, hi, limit - p - 1, b);
      }
    }
  }

  /** With nothing bad, the range closes or is given up. */
  lemma {:induction false} NoBadEnds(measure: seq<Verdict>, lo: nat, hi: nat) returns (limit: nat)
    requires hi < |measure| && forall i :: 0 <= i < |measure| ==> measure[i] != Bad
    ensures !Search(measure, lo, hi, limit).Expired?
    decreases hi - lo
  {
    hide First, Order;
    limit := 0;
    if lo < hi {
      var order := Order(lo, hi);
      var p := First(measure, order);
      limit := p;
      if p < |order| {
        var rest := NoBadEnds(measure, order[p] + 1, hi);
        limit := p + 1 + rest;
      }
    }
  }

  /** Over a monotone history, a search without a budget ends exactly when the revision
      before the first bad one answers, if there is one of either. Otherwise it comes to a
      range that it measures again and again, and gets no further. */
  lemma EndsExactlyWhen(measure: seq<Verdict>)
    requires |measure| > 0 && Monotone(measure)
    ensures (exists limit: nat :: !FullSearch(measure, limit).Expired?) <==>
            forall b: nat :: LeastBad(measure, b) ==> b == 0 || measure[b - 1] == Good
  {
    hide Search;
    var n := |measure|;
    if i: nat :| i < n && measure[i] == Bad {
      var b := SomeLeastBad(measure, i);
      if b == 0 || measure[b - 1] == Good {
        var limit := PinnedSettles(measure, 0, n - 1, b);
        assert !FullSearch(measure, limit).Expired?;
      } else {
        forall limit: nat ensures FullSearch(measure, limit).Expired? {
          NeverSettles(measure, 0, n - 1, limit, b);
        }
      }
    } else {
      var limit := NoBadEnds(measure, 0, n - 1);
      assert !FullSearch(measure, limit).Expired?;
    }
  }

  /** One skipped revision on either side of the only bad one, with a trusted bad end. */
  lemma SkippedAround(limit: nat)
    ensures FullSearch([Skip, Bad, Skip], limit).Expired?
  {
    EndsExactlyWhen([Skip, Bad, Skip]);
    assert LeastBad([Skip, Bad, Skip], 1);
  }

  /** With a bad end that measures bad, a search without a budget finds an answer exactly
      when two neighbours pin it down. Otherwise it comes to a range whose every revision
      but the last is skipped, measures that last one again, and gets no further. */
  lemma FindsExactlyWhenPinned(measure: seq<Verdict>, first: nat)
    requires Consistent(measure, first) && measure[|measure| - 1] == Bad
    ensures (exists limit: nat :: FullSearch(measure, limit).Found?) <==> Pinned(measure, first)
    ensures !Pinned(measure, first) ==> forall limit: nat :: FullSearch(measure, limit).Expired?
  {
    hide Search;
    var n := |measure|;
    if Pinned(measure, first) {
      var limit := PinnedSettles(measure, 0, n - 1, first);
      assert FullSearch(measure, limit).Found?;
    } else {
      forall limit: nat ensures FullSearch(measure, limit).Expired? {
        SearchIsHonest(measure, 0, n - 1, limit);
        RangeHoldsFirst(measure, 0, n - 1, limit, first);
      }
    }
  }

  /** One skipped revision before the bad end: every budget runs out. */
  lemma SkippedNeverEnds(limit: nat)
    ensures FullSearch([Skip, Bad], limit).Expired?
  {
    assert Consistent([Skip, Bad], 1) && !Pinned([Skip, Bad], 1);
    FindsExactlyWhenPinned([Skip, Bad], 1);
  }

  /** The last candidate measures good and the one before it does not answer. */
  ghost predicate EndPassable(measure: seq<Verdict>) {
    && |measure| > 1 && measure[|measure| - 1] == Good && measure[|measure| - 2] == Skip
  }

  lemma {:induction false} PassedMeans(measure: seq<Verdict>, lo: nat, hi: nat, limit: nat)
    requires Bounded(measure, lo, hi) && lo <= hi && Search(measure, lo, hi, limit) == PastEnd
    ensures EndPassable(measure)
    decreases limit
  {
    hide First, Order;
    WalkAsks(measure, lo, hi);
    var order := Order(lo, hi);
    var p := First(measure, order);
    if measure[order[p]] == Bad {
      PassedMeans(measure, lo, order[p], limit - p - 1);
    } else if order[p] < hi {
      PassedMeans(measure, order[p] + 1, hi, limit - p - 1);
    } else {
      SearchIsHonest(measure, lo, hi, limit);
      assert measure[hi - 1] == Skip;
    }
  }

  lemma {:induction false} PassableIsPassed(measure: seq<Verdict>, lo: nat) returns (limit: nat)
    requires EndPassable(measure) && Monotone(measure) && lo < |measure| - 1
    ensures Search(measure, lo, |measure| - 1, limit) == PastEnd
    decreases |measure| - lo
  {
    hide First, Order;
    var hi := |measure| - 1;
    WalkAsks(measure, lo, hi);
    var order := Order(lo, hi);
    var p := First(measure, order);
    limit := p + 1;
    if order[p] < hi {
      var rest := PassableIsPassed(measure, order[p] + 1);
      limit := p + 1 + rest;
    }
  }

  /** With a trusted bad end, the range of a monotone history can close beyond its upper end
      exactly when that end would have measured good and the revision before it is skipped.
      The position that is then read is one past the last candidate. */
  lemma EndIsPassedExactly(measure: seq<Verdict>)
    requires |measure| > 0 && Monotone(measure)
    ensures (exists limit: nat :: FullSearch(measure, limit) == PastEnd) <==> EndPassable(measure)
  {
    hide Search;
    if limit: nat :| FullSearch(measure, limit) == PastEnd {
      PassedMeans(measure, 0, |measure| - 1, limit);
    }
    if EndPassable(measure) {
      var limit := PassableIsPassed(measure, 0);
      assert FullSearch(measure, limit) == PastEnd;
    }
  }

  /** The smallest such history. */
  lemma GoodEndIsPassed() returns (limit: nat)
    ensures FullSearch([Skip, Good], limit) == PastEnd
  {
    EndIsPassedExactly([Skip, Good]);
    limit :| FullSearch([Skip, Good], limit) == PastEnd;
  }

  // --- Without skips ------------------------------------------------------------------------------

  /** The least `k` with `n <= 2^k`. */
  ghost function CeilLog2(n: nat): nat
    requires n > 0
  {
    if n == 1 then 0 else 1 + CeilLog2((n + 1) / 2)
  }

  ghost function Power(k: nat): nat {
    if k == 0 then 1 else 2 * Power(k - 1)
  }

  lemma {:induction false} CeilLog2Is(n: nat, k: nat)
    requires n > 0
    ensures Power(k) >= 1 && (n <= Power(k) <==> CeilLog2(n) <= k)
  {
    if k > 0 {
      CeilLog2Is((n + 1) / 2, k - 1);
    }
  }

  lemma {:induction false} CeilLog2Grows(m: nat, n: nat)
    requires 0 < m <= n
    ensures CeilLog2(m) <= CeilLog2(n)
  {
    if m > 1 {
      CeilLog2Grows((m + 1) / 2, (n + 1) / 2);
    }
  }

  lemma MiddleFirst(measure: seq<Verdict>, lo: nat, hi: nat)
    requires lo < hi < |measure| && measure[Middle(lo, hi)] != Skip
    ensures |Order(lo, hi)| > 0 && Order(lo, hi)[0] == Middle(lo, hi) && First(measure, Order(lo, hi)) == 0
  {
  }

  /** With no skips, the search needs at most log2 of the range's size, rounded up. */
  lemma {:induction false} FastWithoutSkips(measure: seq<Verdict>, lo: nat, hi: nat, limit: nat)
    requires lo <= hi < |measure| && (forall i :: 0 <= i < |measure| ==> measure[i] != Skip)
    requires limit >= CeilLog2(hi - lo + 1)
    ensures Search(measure, lo, hi, limit).Found?
    decreases hi - lo
  {
    hide Order, First;
    if lo < hi {
      var mid, n := Middle(lo, hi), hi - lo + 1;
      MiddleFirst(measure, lo, hi);
      if measure[mid] == Bad {
        CeilLog2Grows(mid - lo + 1, (n + 1) / 2);
        FastWithoutSkips(measure, lo, mid, limit - 1);
      } else {
        CeilLog2Grows(hi - mid, (n + 1) / 2);
        FastWithoutSkips(measure, mid + 1, hi, limit - 1);
      }
    }
  }

  // --- The search as a program -----------------------------------------------------------------

  /** Those of `cands` that are in the range. */
  ghost function Filtered(lo: nat, hi: nat, cands: seq<int>): seq<nat> {
    if cands == [] then [] else Inside(lo, hi, cands[0]) + Filtered(lo, hi, cands[1..])
  }

  function Candidates(mid: nat, off: nat): (cands: seq<int>)
    ensures forall i :: i in cands ==> i == mid - off || i == mid + off
    ensures forall c, d :: 0 <= c < d < |cands| ==> cands[c] != cands[d]
  {
    if off == 0 then [mid] else [mid - off, mid + off]
  }

  lemma FilteredNext(lo: nat, hi: nat, cands: seq<int>, c: nat)
    requires c < |cands|
    ensures Filtered(lo, hi, cands[c..]) == Inside(lo, hi, cands[c]) + Filtered(lo, hi, cands[c + 1..])
  {
    assert cands[c..][1..] == cands[c + 1..];
  }

  lemma {:induction false} FilteredFits(lo: nat, hi: nat, cands: seq<int>)
    ensures forall q :: 0 <= q < |Filtered(lo, hi, cands)| ==> lo <= Filtered(lo, hi, cands)[q] <= hi
  {
    if cands != [] {
      FilteredFits(lo, hi, cands[1..]);
    }
  }

  /** One distance of the walk, and what is left of it. */
  lemma OutwardRing(lo: nat, hi: nat, mid: nat, off: nat)
    requires lo <= mid <= hi
    ensures Outward(lo, hi, mid, off) == Filtered(lo, hi, Candidates(mid, off)) + Outward(lo, hi, mid, off + 1)
    ensures off > hi - lo ==> Filtered(lo, hi, Candidates(mid, off)) == []
  {
    var cands := Candidates(mid, off);
    if off == 0 {
      assert Filtered(lo, hi, cands) == [mid];
    } else {
      assert cands[1..] == [mid + off] && [mid + off][1..] == [];
      assert Filtered(lo, hi, cands[1..]) == Inside(lo, hi, mid + off);
      assert Filtered(lo, hi, cands) == Inside(lo, hi, mid - off) + Inside(lo, hi, mid + off);
    }
  }

  lemma {:induction false} OutwardEnds(lo: nat, hi: nat, mid: nat, off: nat)
    requires lo <= mid <= hi && mid - off < lo && mid + off > hi
    ensures Outward(lo, hi, mid, off) == []
    decreases hi - lo + 1 - off
  {
    if off <= hi - lo {
      OutwardEnds(lo, hi, mid, off + 1);
    }
  }

  ghost predicate AllSkip(measure: seq<Verdict>, order: seq<nat>) {
    Fits(measure, order) && forall q :: 0 <= q < |order| ==> measure[order[q]] == Skip
  }

  /** Revisions that did not answer come before the first that does. */
  lemma FirstAfter(measure: seq<Verdict>, done: seq<nat>, rest: seq<nat>)
    requires AllSkip(measure, done) && Fits(measure, rest)
    ensures Fits(measure, done + rest) && First(measure, done + rest) == |done| + First(measure, rest)
  {
    if done == [] {
      assert done + rest == rest;
    } else {
      assert (done + rest)[1..] == done[1..] + rest;
      FirstAfter(measure, done[1..], rest);
    }
  }

  /** What asking `order` with `left` tests to go comes to. */
  ghost predicate Asked(measure: seq<Verdict>, order: seq<nat>, left: nat, asked: seq<nat>, answered: bool,
                        expired: bool)
  {
    && Fits(measure, order) && |asked| <= left && asked <= order
    && if answered then
         !expired && |asked| > 0 && AllSkip(measure, asked[..|asked| - 1])
         && asked[|asked| - 1] < |measure| && measure[asked[|asked| - 1]] != Skip
       else AllSkip(measure, asked) && if expired then |asked| == left && asked != order else asked == order
  }

  /** Asking in turn is looking for the first that answers, within the budget. */
  lemma AskedIsFirst(measure: seq<Verdict>, order: seq<nat>, left: nat, asked: seq<nat>, answered: bool, expired: bool)
    requires Asked(measure, order, left, asked, answered, expired)
    ensures var p := First(measure, order);
      && expired == (if p < |order| then p >= left else p > left)
      && answered == (!expired && p < |order|)
      && |asked| == (if expired then left else if answered then p + 1 else p)
  {
    var k := if answered then |asked| - 1 else |asked|;
    var done, rest := asked[..k], order[k..];
    assert order == done + rest;
    FirstAfter(measure, done, rest);
    if answered {
      assert rest[0] == asked[k];
    }
  }

  lemma OutOfTests(measure: seq<Verdict>, order: seq<nat>, left: nat, asked: seq<nat>, rest: seq<nat>)
    requires Fits(measure, order) && order == asked + rest && rest != [] && AllSkip(measure, asked) && |asked| == left
    ensures Asked(measure, order, left, asked, false, true)
  {
  }

  lemma Answered(measure: seq<Verdict>, order: seq<nat>, left: nat, asked: seq<nat>, i: nat, rest: seq<nat>)
    requires Fits(measure, order) && order == asked + [i] + rest && AllSkip(measure, asked) && |asked| < left
    requires i < |measure| && measure[i] != Skip
    ensures Asked(measure, order, left, asked + [i], true, false)
  {
    assert (asked + [i])[..|asked|] == asked;
  }

  /** Asking one more list after nothing has answered. */
  lemma AskedMore(measure: seq<Verdict>, done: seq<nat>, ring: seq<nat>, rest: seq<nat>, left: nat,
                  asked: seq<nat>, answered: bool, expired: bool)
    requires AllSkip(measure, done) && |done| <= left && Fits(measure, rest)
    requires Asked(measure, ring, left - |done|, asked, answered, expired) && (answered || expired)
    ensures Asked(measure, done + ring + rest, left, done + asked, answered, expired)
  {
    var all := done + asked;
    if answered {
      assert all[..|all| - 1] == done + asked[..|asked| - 1];
      assert all[|all| - 1] == asked[|asked| - 1];
    }
    assert ring[..|asked|] == asked;
    assert (done + ring + rest)[..|all|] == all;
    if expired {
      assert |asked| < |ring|;
    }
  }

  ghost predicate Around(mid: nat, off: nat, tried: set<int>) {
    forall i :: i in tried ==> mid - off < i < mid + off
  }

  ghost predicate Untried(cands: seq<int>, c: nat, tried: set<int>) {
    forall d :: c <= d < |cands| ==> cands[d] !in tried
  }

  lemma FirstTried(mid: nat, off: nat, tried: set<int>)
    requires Around(mid, off, tried)
    ensures Around(mid, off + 1, tried) && Untried(Candidates(mid, off), 0, tried)
  {
  }

  lemma OneTried(mid: nat, off: nat, cands: seq<int>, c: nat, tried: set<int>)
    requires cands == Candidates(mid, off) && c < |cands| && Around(mid, off + 1, tried) && Untried(cands, c, tried)
    ensures cands[c] !in tried && Untried(cands, c + 1, tried)
    ensures Around(mid, off + 1, tried + {cands[c]}) && Untried(cands, c + 1, tried + {cands[c]})
  {
    hide Candidates;
    assert cands[c] in cands;
  }

  lemma RingFits(measure: seq<Verdict>, ring: seq<nat>, lo: nat, hi: nat)
    requires hi < |measure| && forall q :: 0 <= q < |ring| ==> lo <= ring[q] <= hi
    ensures Fits(measure, ring) && AllSkip(measure, [])
  {
  }

  lemma SkippedMore(measure: seq<Verdict>, asked: seq<nat>, i: nat)
    requires AllSkip(measure, asked) && i < |measure| && measure[i] == Skip
    ensures AllSkip(measure, asked + [i])
  {
  }

  lemma NothingAsked(measure: seq<Verdict>, mid: nat)
    ensures AllSkip(measure, []) && Around(mid, 0, {})
  {
  }

  /** The order is what has been asked, the next distance, and the rest. */
  lemma NextRing(measure: seq<Verdict>, lo: nat, hi: nat, mid: nat, off: nat, done: seq<nat>)
    requires lo <= mid < hi < |measure| && mid == Middle(lo, hi)
    requires Order(lo, hi) == done + Outward(lo, hi, mid, off)
    ensures var ring, rest := Filtered(lo, hi, Candidates(mid, off)), Outward(lo, hi, mid, off + 1);
      && Order(lo, hi) == done + ring + rest && Fits(measure, rest) && (off > hi - lo ==> ring == [])
  {
    hide Outward, Filtered, Candidates, Order;
    OutwardRing(lo, hi, mid, off);
    OutwardInside(lo, hi, mid, off + 1);
  }

  /** Both sides are past the ends of the range: everything has been asked. */
  lemma LastRing(measure: seq<Verdict>, lo: nat, hi: nat, mid: nat, off: nat, asked: seq<nat>, left: nat)
    requires lo <= mid <= hi < |measure| && lo < hi && mid - off < lo && mid + off > hi
    requires AllSkip(measure, asked) && |asked| <= left && Order(lo, hi) == asked + Outward(lo, hi, mid, off + 1)
    ensures Asked(measure, Order(lo, hi), left, asked, false, false)
  {
    hide Outward, Order;
    OutwardEnds(lo, hi, mid, off + 1);
    assert asked + [] == asked;
    WholeAsked(measure, asked, left);
  }

  class Bisection {
    /** What each candidate measures, oldest first. */
    const measure: seq<Verdict>
    /** How many tests the wall budget leaves time for. */
    const limit: nat
    var steps: seq<nat>
    var skipped: seq<nat>

    constructor (measure: seq<Verdict>, limit: nat)
      ensures this.measure == measure && this.limit == limit && steps == [] && skipped == []
    {
      this.measure, this.limit, steps, skipped := measure, limit, [], [];
    }

    method Test(i: nat) returns (v: Verdict, cont: bool)
      requires i < |measure| && |steps| <= limit
      modifies this
      ensures cont == (|old(steps)| < limit)
      ensures steps == if cont then old(steps) + [i] else old(steps)
      ensures skipped == if cont && measure[i] == Skip then old(skipped) + [i] else old(skipped)
      ensures v == if cont then measure[i] else Skip
    {
      if |steps| == limit {
        return Skip, false;
      }
      v, cont := measure[i], true;
      steps := steps + [i];
      if v == Skip {
        skipped := skipped + [i];
      }
    }

    /** Asks one revision, if it is in the range and new. */
    method AskOne(lo: nat, hi: nat, i: int, tried: set<int>, ghost ring: seq<nat>, ghost before: seq<nat>,
                  ghost rest: seq<nat>, ghost left: nat)
      returns (v: Verdict, answered: bool, expired: bool, some: bool, ghost asked: seq<nat>)
      requires hi < |measure| && |steps| <= limit && limit - |steps| == left - |before| && |before| <= left
      requires ring == before + Inside(lo, hi, i) + rest && Fits(measure, ring) && AllSkip(measure, before)
      requires i !in tried
      modifies this
      ensures |steps| <= limit && steps == old(steps) + asked && some == (lo <= i <= hi)
      ensures answered || expired ==> Asked(measure, ring, left, before + asked, answered, expired)
      ensures answered ==> asked == [i] && 0 <= i < |measure| && v == measure[i]
      ensures !answered && !expired ==>
        asked == Inside(lo, hi, i) && AllSkip(measure, before + asked) && ring == before + asked + rest
    {
      hide Asked, AllSkip, Fits;
      v, answered, expired, some, asked := Skip, false, false, false, [];
      if i < lo || i > hi || i in tried {
        assert before + asked == before;
        return;
      }
      some := true;
      var cont;
      v, cont := Test(i);
      if !cont {
        assert ring == before + ([i] + rest) && before + asked == before;
        OutOfTests(measure, ring, left, before, [i] + rest);
        expired := true;
        return;
      }
      asked := [i];
      if v != Skip {
        Answered(measure, ring, left, before, i, rest);
        answered := true;
        return;
      }
      SkippedMore(measure, before, i);
    }

    /** Asks the revisions at one distance that have not been asked yet. */
    method Ask(lo: nat, hi: nat, mid: nat, off: nat, tried: set<int>)
      returns (v: Verdict, idx: nat, answered: bool, expired: bool, some: bool, tried': set<int>, ghost asked: seq<nat>)
      requires lo <= mid < hi < |measure| && |steps| <= limit && Around(mid, off, tried)
      modifies this
      ensures |steps| <= limit && steps == old(steps) + asked
      ensures Asked(measure, Filtered(lo, hi, Candidates(mid, off)), limit - |old(steps)|, asked, answered, expired)
      ensures answered ==> asked != [] && idx == asked[|asked| - 1] < |measure| && v == measure[idx]
      ensures !answered && !expired ==> (some <==> asked != [])
      ensures Around(mid, off + 1, tried')
    {
      hide Asked, Filtered, Candidates, Around, Untried, AllSkip, Fits;
      var cands := Candidates(mid, off);
      ghost var ring, left := Filtered(lo, hi, cands), limit - |steps|;
      FilteredFits(lo, hi, cands);
      RingFits(measure, ring, lo, hi);
      some, tried', asked := false, tried, [];
      FirstTried(mid, off, tried);
      assert cands[0..] == cands && ring == asked + Filtered(lo, hi, cands[0..]);
      for c := 0 to |cands|
        invariant ring == asked + Filtered(lo, hi, cands[c..]) && AllSkip(measure, asked) && |asked| <= left
        invariant |steps| <= limit && steps == old(steps) + asked && (some <==> asked != [])
        invariant Around(mid, off + 1, tried') && Untried(cands, c, tried')
      {
        var i := cands[c];
        OneTried(mid, off, cands, c, tried');
        FilteredNext(lo, hi, cands, c);
        ghost var before := asked;
        var verdict, hit, out, one;
        ghost var more;
        verdict, hit, out, one, more :=
          AskOne(lo, hi, i, tried', ring, before, Filtered(lo, hi, cands[c + 1..]), left);
        asked := before + more;
        if one {
          tried', some := tried' + {i}, true;
        }
        if hit || out {
          return verdict, if i < 0 then 0 else i, hit, out, some, tried', asked;
        }
      }
      NoneLeft(lo, hi, cands);
      assert ring == asked;
      WholeAsked(measure, asked, left);
      return Skip, mid, false, false, some, tried', asked;
    }

    /** Asks the revisions outward from `mid` until one answers. */
    method Probe(lo: nat, hi: nat, mid: nat) returns (v: Verdict, idx: nat, ok: bool, expired: bool,
                                                      ghost asked: seq<nat>)
      requires lo < hi < |measure| && mid == Middle(lo, hi) && |steps| <= limit
      modifies this
      ensures |steps| <= limit && steps == old(steps) + asked
      ensures Asked(measure, Order(lo, hi), limit - |old(steps)|, asked, ok, expired)
      ensures ok ==> asked != [] && idx == asked[|asked| - 1] < |measure| && v == measure[idx]
    {
      hide Outward, Asked, Filtered, Candidates, Order, AllSkip, Around, Inside, Fits;
      var tried: set<int> := {};
      var off: nat := 0;
      asked := [];
      ghost var left := limit - |steps|;
      OrderIs(lo, hi);
      NothingAsked(measure, mid);
      while true
        invariant off <= hi - lo + 1 && |steps| <= limit && steps == old(steps) + asked && |asked| <= left
        invariant AllSkip(measure, asked) && Order(lo, hi) == asked + Outward(lo, hi, mid, off)
        invariant Around(mid, off, tried)
        decreases hi - lo + 1 - off
      {
        ghost var done, ring, rest := asked, Filtered(lo, hi, Candidates(mid, off)), Outward(lo, hi, mid, off + 1);
        NextRing(measure, lo, hi, mid, off, done);
        var answered, some;
        ghost var more;
        v, idx, answered, expired, some, tried, more := Ask(lo, hi, mid, off, tried);
        asked := done + more;
        if answered || expired {
          AskedMore(measure, done, ring, rest, left, more, answered, expired);
          return v, idx, answered, expired, asked;
        }
        AskedAll(measure, done, ring, left - |done|, more);
        if !some && mid - off < lo && mid + off > hi {
          LastRing(measure, lo, hi, mid, off, asked, left);
          return Skip, mid, false, false, asked;
        }
        off := off + 1;
      }
    }

    /** Narrows the range until one revision is left, or no more can be learned. */
    method Run() returns (o: Outcome)
      requires |measure| > 0 && steps == []
      modifies this
      ensures o == FullSearch(measure, limit) && |steps| <= limit
    {
      hide Search, Asked, Order, First;
      var lo: nat, hi: nat := 0, |measure| - 1;
      while lo < hi
        invariant hi < |measure| && |steps| <= limit
        invariant Search(measure, lo, hi, limit - |steps|) == FullSearch(measure, limit)
        decreases limit - |steps|, hi - lo
      {
        var mid: nat := lo + (hi - lo) / 2;
        ghost var left := limit - |steps|;
        var v, idx, ok, expired;
        ghost var asked;
        v, idx, ok, expired, asked := Probe(lo, hi, mid);
        SearchStep(measure, lo, hi, left, asked, ok, expired);
        if !ok {
          return if expired then Expired(lo, hi) else Exhausted(lo, hi);
        }
        if v == Bad {
          hi := idx;
        } else {
          lo := idx + 1;
        }
      }
      SearchEnds(measure, lo, hi, limit - |steps|);
      o := if lo > hi then PastEnd else Found(lo);
    }
  }

  /** A wrong answer about an end is a false premise; otherwise the search speaks, unless
      it was cancelled before an end was tested. */
  datatype Report = FalsePremise | Stopped | Answer(outcome: Outcome)

  /** Measures the two ends first, unless told to trust them. These two tests stop for a
      cancellation only, never for the wall budget; `limit` is what the budget leaves the
      search once they are done. */
  method Bisect(good: Verdict, measure: seq<Verdict>, skipEndpointCheck: bool, canceled: (bool, bool), limit: nat)
    returns (r: Report)
    requires |measure| > 0
    ensures skipEndpointCheck ==> r == Answer(FullSearch(measure, limit))
    ensures r.Answer? ==> r.outcome == FullSearch(measure, limit)
    ensures !skipEndpointCheck ==>
      && (r.Answer? <==> !canceled.0 && !canceled.1 && good == Good && measure[|measure| - 1] == Bad)
      && (r == Stopped <==> canceled.0 || (good == Good && canceled.1))
  {
    if !skipEndpointCheck {
      if canceled.0 {
        return Stopped;
      }
      if good != Good {
        return FalsePremise;
      }
      if canceled.1 {
        return Stopped;
      }
      if measure[|measure| - 1] != Bad {
        return FalsePremise;
      }
    }
    var b := new Bisection(measure, limit);
    var o := b.Run();
    r := Answer(o);
  }

  /** Once the bad end has measured bad, the search finds an answer or runs out of budget:
      it never reports a range in which everything was skipped. */
  lemma CheckedEndAnswers(measure: seq<Verdict>, limit: nat)
    requires |measure| > 0 && measure[|measure| - 1] == Bad
    ensures FullSearch(measure, limit).Found? || FullSearch(measure, limit).Expired?
  {
    hide Search;
    SearchIsHonest(measure, 0, |measure| - 1, limit);
  }

  lemma SearchEnds(measure: seq<Verdict>, lo: nat, hi: nat, limit: nat)
    requires lo >= hi && hi < |measure|
    ensures Search(measure, lo, hi, limit) == if lo > hi then PastEnd else Found(lo)
  {
  }

  /** One round of the loop is one step of the search. */
  lemma SearchStep(measure: seq<Verdict>, lo: nat, hi: nat, left: nat, asked: seq<nat>, ok: bool, expired: bool)
    requires lo < hi < |measure| && Asked(measure, Order(lo, hi), left, asked, ok, expired)
    ensures |asked| <= left
    ensures !ok ==> Search(measure, lo, hi, left) == if expired then Expired(lo, hi) else Exhausted(lo, hi)
    ensures ok ==> asked != [] && asked[|asked| - 1] <= hi
    ensures ok && measure[asked[|asked| - 1]] == Bad ==>
      Search(measure, lo, hi, left) == Search(measure, lo, asked[|asked| - 1], left - |asked|)
    ensures ok && measure[asked[|asked| - 1]] != Bad ==>
      Search(measure, lo, hi, left) == Search(measure, asked[|asked| - 1] + 1, hi, left - |asked|)
  {
    hide First, Order;
    AskedIsFirst(measure, Order(lo, hi), left, asked, ok, expired);
    if ok {
      assert asked[|asked| - 1] == Order(lo, hi)[|asked| - 1];
    }
  }

  lemma NoneLeft(lo: nat, hi: nat, cands: seq<int>)
    ensures Filtered(lo, hi, cands[|cands|..]) == []
  {
  }

  lemma AskedAll(measure: seq<Verdict>, done: seq<nat>, ring: seq<nat>, left: nat, more: seq<nat>)
    requires AllSkip(measure, done) && Asked(measure, ring, left, more, false, false)
    ensures more == ring && AllSkip(measure, done + more)
  {
  }

  lemma WholeAsked(measure: seq<Verdict>, asked: seq<nat>, left: nat)
    requires AllSkip(measure, asked) && |asked| <= left
    ensures Asked(measure, asked, left, asked, false, false)
  {
  }
}
