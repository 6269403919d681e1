/** The linked event list as a table of places: what lifting an operation and putting it back do
    to the pointers. */
module LinkTable {
  import opened EventList

  /** The pointers of every node, as places; -1 stands for no node. */
  datatype Links = Links(next: seq<int>, prev: seq<int>)

  /** The live places, in increasing order, are exactly what the pointers thread
      together, forwards and backwards, from the head (0) to the tail (`last`). */
  ghost predicate Threaded(k: Links, live: set<nat>, last: nat) {
    && |k.next| == |k.prev| == last + 1
    && 0 in live && last in live && (forall p :: p in live ==> p <= last)
    && (forall p :: p in live && p < last ==> NextOk(k, live, last, p))
    && (forall p :: p in live && 0 < p ==> PrevOk(k, live, last, p))
  }

  ghost predicate NextOk(k: Links, live: set<nat>, last: nat, p: nat)
    requires |k.next| == |k.prev| == last + 1 && p < last
  {
    && p < k.next[p] <= last && k.next[p] in live && k.prev[k.next[p]] == p
    && Gap(live, p, k.next[p])
  }

  /** No live place lies between `p` and `q`. */
  ghost predicate Gap(live: set<nat>, p: int, q: int) {
    forall r :: p < r < q ==> r !in live
  }

  ghost predicate PrevOk(k: Links, live: set<nat>, last: nat, p: nat)
    requires |k.next| == |k.prev| == last + 1 && 0 < p <= last
  {
    0 <= k.prev[p] < p && k.prev[p] in live && k.next[k.prev[p]] == p
  }

  /** `x` has neighbours, and they are not `x` itself. */
  ghost predicate HasNeighbours(k: Links, x: nat) {
    && x < |k.next| == |k.prev|
    && 0 <= k.prev[x] < |k.next| && 0 <= k.next[x] < |k.next|
    && k.prev[x] != x && k.next[x] != x
  }

  /** The neighbours of `x` are joined past it; the pointers of `x` are kept. */
  ghost function Unlink(k: Links, x: nat): Links
    requires HasNeighbours(k, x)
  {
    Links(k.next[k.prev[x] := k.next[x]], k.prev[k.next[x] := k.prev[x]])
  }

  /** The neighbours that `x` remembers are joined to it again. */
  ghost function Relink(k: Links, x: nat): Links
    requires HasNeighbours(k, x)
  {
    Links(k.next[k.prev[x] := x], k.prev[k.next[x] := x])
  }

  lemma GapJoins(live: set<nat>, a: nat, x: nat, b: int)
    requires Gap(live, a, x) && Gap(live, x, b)
    ensures Gap(live - {x}, a, b)
  {
  }

  lemma GapShrinks(live: set<nat>, p: nat, q: int, x: nat)
    requires Gap(live, p, q)
    ensures Gap(live - {x}, p, q)
  {
  }

  lemma UnlinkNext(k: Links, live: set<nat>, last: nat, x: nat, p: nat)
    requires Threaded(k, live, last) && x in live && 0 < x < last && HasNeighbours(k, x)
    requires p in live - {x} && p < last
    ensures NextOk(Unlink(k, x), live - {x}, last, p)
  {
    hide Gap;
    var a, b := k.prev[x], k.next[x];
    assert NextOk(k, live, last, x) && PrevOk(k, live, last, x);
    assert NextOk(k, live, last, a) && NextOk(k, live, last, p);
    if p == a {
      GapJoins(live, a, x, b);
    } else {
      GapShrinks(live, p, k.next[p], x);
      assert k.next[p] != x && k.next[p] != b;
    }
  }

  lemma UnlinkPrev(k: Links, live: set<nat>, last: nat, x: nat, p: nat)
    requires Threaded(k, live, last) && x in live && 0 < x < last && HasNeighbours(k, x)
    requires p in live - {x} && 0 < p
    ensures PrevOk(Unlink(k, x), live - {x}, last, p)
  {
    hide Gap;
    assert NextOk(k, live, last, x) && PrevOk(k, live, last, x);
    assert PrevOk(k, live, last, k.next[x]) && PrevOk(k, live, last, p);
  }

  lemma UnlinkThreads(k: Links, live: set<nat>, last: nat, x: nat)
    requires Threaded(k, live, last) && x in live && 0 < x < last
    ensures HasNeighbours(k, x) && Threaded(Unlink(k, x), live - {x}, last)
  {
    assert NextOk(k, live, last, x) && PrevOk(k, live, last, x);
    forall p | p in live - {x} && p < last ensures NextOk(Unlink(k, x), live - {x}, last, p) {
      UnlinkNext(k, live, last, x, p);
    }
    forall p | p in live - {x} && 0 < p ensures PrevOk(Unlink(k, x), live - {x}, last, p) {
      UnlinkPrev(k, live, last, x, p);
    }
  }

  lemma RelinkUndoes(k: Links, live: set<nat>, last: nat, x: nat)
    requires Threaded(k, live, last) && x in live && 0 < x < last
    ensures HasNeighbours(k, x) && HasNeighbours(Unlink(k, x), x)
    ensures Relink(Unlink(k, x), x) == k
  {
    assert NextOk(k, live, last, x) && PrevOk(k, live, last, x);
    assert k.next[k.prev[x]] == x && k.prev[k.next[x]] == x;
  }

  // --- Whole operations -----------------------------------------------------------

  ghost function Lifted(k: Links, call: nat, ret: nat): Links
    requires HasNeighbours(k, call) && HasNeighbours(Unlink(k, call), ret)
  {
    Unlink(Unlink(k, call), ret)
  }

  ghost function Unlifted(k: Links, call: nat, ret: nat): Links
    requires HasNeighbours(k, ret) && HasNeighbours(Relink(k, ret), call)
  {
    Relink(Relink(k, ret), call)
  }

  /** The places still on the list once the operations in `placed` are lifted. */
  ghost function Live(t: Track, placed: set<nat>): (live: set<nat>)
    ensures forall p: nat :: p in live <==> p <= t.Last() && (t.Inner(p) ==> t.At(p).idx !in placed)
  {
    set p: nat | p <= t.Last() && (t.Inner(p) ==> t.At(p).idx !in placed)
  }

  lemma LiveAfter(t: Track, placed: set<nat>, i: nat)
    requires t.Valid() && i < |t.ops| && i !in placed
    ensures t.call[i] in Live(t, placed) && t.ret[i] in Live(t, placed) && t.call[i] != t.ret[i]
    ensures Live(t, placed + {i}) == Live(t, placed) - {t.call[i]} - {t.ret[i]}
    ensures 0 < t.call[i] < t.Last() && 0 < t.ret[i] < t.Last()
  {
    assert t.At(t.call[i]) == CallEvent(t.ops[i], i) && t.At(t.ret[i]) == ReturnEvent(t.ops[i], i);
    forall p: nat | t.Inner(p) && t.At(p).idx == i ensures p == t.call[i] || p == t.ret[i] {
      assert p == t.Place(t.At(p));
    }
  }

  /** Lifting keeps the list exactly the live places, and unlifting puts every
      pointer back where it was. */
  lemma LiftThreads(k: Links, t: Track, placed: set<nat>, i: nat)
    requires t.Valid() && i < |t.ops| && i !in placed
    requires Threaded(k, Live(t, placed), t.Last())
    ensures HasNeighbours(k, t.call[i]) && HasNeighbours(Unlink(k, t.call[i]), t.ret[i])
    ensures var k' := Lifted(k, t.call[i], t.ret[i]);
      && Threaded(k', Live(t, placed + {i}), t.Last())
      && HasNeighbours(k', t.ret[i]) && HasNeighbours(Relink(k', t.ret[i]), t.call[i])
      && Unlifted(k', t.call[i], t.ret[i]) == k
  {
    LiveAfter(t, placed, i);
    hide *;
    LiftTwo(k, Live(t, placed), t.Last(), t.call[i], t.ret[i]);
  }

  lemma LiftTwo(k: Links, live: set<nat>, last: nat, c: nat, r: nat)
    requires Threaded(k, live, last) && c in live && r in live && c != r && 0 < c < last && 0 < r < last
    ensures HasNeighbours(k, c) && HasNeighbours(Unlink(k, c), r)
    ensures var k' := Lifted(k, c, r);
      && Threaded(k', live - {c} - {r}, last)
      && HasNeighbours(k', r) && HasNeighbours(Relink(k', r), c) && Unlifted(k', c, r) == k
  {
    hide *;
    UnlinkThreads(k, live, last, c);
    RelinkUndoes(k, live, last, c);
    UnlinkThreads(Unlink(k, c), live - {c}, last, r);
    RelinkUndoes(Unlink(k, c), live - {c}, last, r);
    LiftedIs(k, c, r);
  }

  lemma LiftedIs(k: Links, c: nat, r: nat)
    requires HasNeighbours(k, c) && HasNeighbours(Unlink(k, c), r) && HasNeighbours(Unlink(k, c), c)
    requires var k' := Unlink(Unlink(k, c), r); HasNeighbours(k', r) && Relink(k', r) == Unlink(k, c)
    requires Relink(Unlink(k, c), c) == k
    ensures var k' := Unlink(Unlink(k, c), r);
      Lifted(k, c, r) == k' && HasNeighbours(Relink(k', r), c) && Unlifted(k', c, r) == k
  {
  }

  ghost function Initial(last: nat): Links {
    Links(seq(last + 1, p => if p == last then -1 else p + 1), seq(last + 1, p => p - 1))
  }

  lemma InitialThreaded(t: Track)
    ensures Threaded(Initial(t.Last()), Live(t, {}), t.Last())
  {
    var k, live, last := Initial(t.Last()), Live(t, {}), t.Last();
    forall p | p in live && p < last ensures NextOk(k, live, last, p) {
      assert p + 1 in live;
    }
    forall p | p in live && 0 < p ensures PrevOk(k, live, last, p) {
      assert p - 1 in live;
    }
  }

  ghost function SetOf(path: seq<nat>): set<nat> {
    set i | i in path
  }

  /** `path` names operations, none twice. */
  ghost predicate IsPath(t: Track, path: seq<nat>) {
    && (forall a :: 0 <= a < |path| ==> path[a] < |t.ops|)
    && (forall a, b :: 0 <= a < b < |path| ==> path[a] != path[b])
  }

  lemma PathPrefix(t: Track, path: seq<nat>)
    requires IsPath(t, path) && path != []
    ensures var front, i := path[..|path| - 1], path[|path| - 1];
      IsPath(t, front) && i < |t.ops| && i !in SetOf(front) && SetOf(path) == SetOf(front) + {i}
  {
    var front := path[..|path| - 1];
    assert path == front + [path[|path| - 1]];
  }

  /** The pointers once the operations of `path` are lifted, in that order. */
  ghost function After(t: Track, path: seq<nat>): (k: Links)
    requires t.Valid() && IsPath(t, path)
    ensures Threaded(k, Live(t, SetOf(path)), t.Last())
  {
    if path == [] then
      InitialThreaded(t);
      assert SetOf(path) == {};
      Initial(t.Last())
    else
      var front, i := path[..|path| - 1], path[|path| - 1];
      PathPrefix(t, path);
      LiftThreads(After(t, front), t, SetOf(front), i);
      Lifted(After(t, front), t.call[i], t.ret[i])
  }

  /** In stack order, putting the last operation back restores the whole table. */
  lemma UnliftLast(t: Track, path: seq<nat>, i: nat)
    requires t.Valid() && IsPath(t, path + [i])
    ensures IsPath(t, path) && i < |t.ops|
    ensures HasNeighbours(After(t, path), t.call[i]) && HasNeighbours(Unlink(After(t, path), t.call[i]), t.ret[i])
    ensures After(t, path + [i]) == Lifted(After(t, path), t.call[i], t.ret[i])
    ensures var k := After(t, path + [i]);
      && HasNeighbours(k, t.ret[i]) && HasNeighbours(Relink(k, t.ret[i]), t.call[i])
      && Unlifted(k, t.call[i], t.ret[i]) == After(t, path)
  {
    var whole := path + [i];
    assert whole[..|whole| - 1] == path;
    PathPrefix(t, whole);
    LiftThreads(After(t, path), t, SetOf(path), i);
  }

  /** The first node that is still on the list. */
  lemma FirstLive(t: Track, path: seq<nat>) returns (e: nat)
    requires t.Valid() && IsPath(t, path)
    ensures 0 < e <= t.Last() && After(t, path).next[0] == e
    ensures e in Live(t, SetOf(path)) && Gap(Live(t, SetOf(path)), 0, e)
  {
    e := NextLive(t, path, 0);
  }

  lemma NextLive(t: Track, path: seq<nat>, p: nat) returns (e: nat)
    requires t.Valid() && IsPath(t, path) && p in Live(t, SetOf(path)) && p < t.Last()
    ensures p < e <= t.Last() && After(t, path).next[p] == e
    ensures e in Live(t, SetOf(path)) && Gap(Live(t, SetOf(path)), p, e)
  {
    var k := After(t, path);
    assert NextOk(k, Live(t, SetOf(path)), t.Last(), p);
    e := k.next[p];
  }
}
