/** The depth-first search as such: dead spots, memo hits and running out. */
module SearchTree {
  import opened Register
  import opened EventList
  import opened LinkTable

  /** The values `op` may leave in the register, in the order they are tried. */
  function Alternatives(state: Value, op: Op): seq<Value> {
    if op.kind == Read then
      if state.Unknown? then [Known(op.value)]
      else if state == Known(op.value) then [state]
      else []
    else if !op.maybe then [Known(op.value)]
    else if state == Known(op.value) then [Known(op.value)]
    else [Known(op.value), state]
  }

  /** The alternatives tried are exactly the register's steps. */
  lemma AlternativesAreSteps(state: Value, op: Op, after: Value)
    ensures after in Alternatives(state, op) <==> Step(state, op, after)
  {
    var alts := Alternatives(state, op);
    if |alts| == 1 {
      assert alts[0] in alts;
    } else if |alts| == 2 {
      assert alts[0] in alts && alts[1] in alts;
    }
  }

  // --- Pending operations --------------------------------------------------------

  ghost function Pending(ops: seq<Op>, placed: set<nat>): multiset<Op> {
    if ops == [] then multiset{}
    else
      var i := |ops| - 1;
      Pending(ops[..i], placed) + if i in placed then multiset{} else multiset{ops[i]}
  }

  lemma {:induction false} PendingAll(ops: seq<Op>)
    ensures Pending(ops, {}) == multiset(ops)
  {
    if ops != [] {
      PendingAll(ops[..|ops| - 1]);
      assert ops == ops[..|ops| - 1] + [ops[|ops| - 1]];
    }
  }

  lemma {:induction false} PendingIgnores(ops: seq<Op>, placed: set<nat>, i: nat)
    requires |ops| <= i
    ensures Pending(ops, placed + {i}) == Pending(ops, placed)
  {
    if ops != [] {
      PendingIgnores(ops[..|ops| - 1], placed, i);
    }
  }

  lemma PendingLast(ops: seq<Op>, placed: set<nat>)
    requires ops != []
    ensures var n := |ops| - 1;
      Pending(ops, placed) == Pending(ops[..n], placed) + if n in placed then multiset{} else multiset{ops[n]}
  {
  }

  lemma {:induction false} PendingMinus(ops: seq<Op>, placed: set<nat>, i: nat)
    requires i < |ops| && i !in placed
    ensures ops[i] in Pending(ops, placed)
    ensures Pending(ops, placed + {i}) == Pending(ops, placed) - multiset{ops[i]}
  {
    hide Pending;
    var n := |ops| - 1;
    PendingLast(ops, placed);
    PendingLast(ops, placed + {i});
    if i == n {
      PendingIgnores(ops[..n], placed, i);
    } else {
      PendingMinus(ops[..n], placed, i);
    }
  }

  lemma {:induction false} PendingMember(ops: seq<Op>, placed: set<nat>, op: Op) returns (i: nat)
    requires op in Pending(ops, placed)
    ensures i < |ops| && i !in placed && ops[i] == op
  {
    i := |ops| - 1;
    if i in placed || ops[i] != op {
      i := PendingMember(ops[..i], placed, op);
    }
  }

  // --- Dead ends -------------------------------------------------------------------

  /** Nothing can be made of this register value with these operations placed. */
  ghost predicate Dead(ops: seq<Op>, placed: set<nat>, state: Value) {
    !CanFinish(Pending(ops, placed), state)
  }

  /** The first `upto` alternatives of operation `i` lead nowhere. */
  ghost predicate Tried(ops: seq<Op>, placed: set<nat>, state: Value, i: nat, upto: nat)
    requires i < |ops|
  {
    forall a :: 0 <= a < upto && a < |Alternatives(state, ops[i])| ==>
      Dead(ops, placed + {i}, Alternatives(state, ops[i])[a])
  }

  ghost predicate Rejected(ops: seq<Op>, placed: set<nat>, state: Value, i: nat)
    requires i < |ops|
  {
    Tried(ops, placed, state, i, |Alternatives(state, ops[i])|)
  }

  /** Everything on the list before place `e` is the call of a rejected operation. */
  ghost predicate PassedOver(t: Track, placed: set<nat>, state: Value, e: nat)
    requires t.Valid()
  {
    forall p: nat :: p in Live(t, placed) && 0 < p < e && t.Inner(p) ==>
      !t.At(p).isReturn && Rejected(t.ops, placed, state, t.At(p).idx)
  }

  /** An operation reached with only calls before it may come first. */
  lemma ReachedMayComeFirst(t: Track, placed: set<nat>, state: Value, i: nat, j: nat)
    requires t.Valid() && i < |t.ops| && j < |t.ops| && i !in placed && j !in placed && i != j
    requires PassedOver(t, placed, state, t.call[i])
    ensures !MustPrecede(t.ops[j], t.ops[i])
  {
    ReturnBeforeCall(t, i, j);
    LiveAfter(t, placed, j);
    assert t.Inner(t.ret[j]) && t.At(t.ret[j]) == ReturnEvent(t.ops[j], j);
  }

  /** An operation whose call stands behind a pending return cannot come first. */
  lemma BehindReturn(t: Track, placed: set<nat>, e: nat, i: nat)
    requires t.Valid() && t.Inner(e) && e in Live(t, placed) && t.At(e).isReturn
    requires i < |t.ops| && i !in placed && e <= t.call[i]
    ensures !MayComeFirst(t.ops[i], Pending(t.ops, placed))
  {
    var r := t.At(e).idx;
    assert e == t.Place(t.At(e));
    assert t.At(t.call[i]) == CallEvent(t.ops[i], i);
    ReturnBeforeCall(t, i, r);
    PendingMinus(t.ops, placed, i);
    PendingMinus(t.ops, placed + {i}, r);
  }

  /** An operation that could come next was passed over, so it leads nowhere. */
  lemma PassedIsDead(t: Track, placed: set<nat>, state: Value, e: nat, i: nat, after: Value)
    requires t.Valid() && PassedOver(t, placed, state, e)
    requires i < |t.ops| && i !in placed && t.call[i] < e
    requires Step(state, t.ops[i], after)
    ensures Dead(t.ops, placed + {i}, after)
  {
    LiveAfter(t, placed, i);
    assert t.Inner(t.call[i]) && t.At(t.call[i]) == CallEvent(t.ops[i], i);
    AlternativesAreSteps(state, t.ops[i], after);
    var alts := Alternatives(state, t.ops[i]);
    var a :| 0 <= a < |alts| && alts[a] == after;
    assert Rejected(t.ops, placed, state, i);
  }

  /** At the tail, or at the return of an operation not yet placed, no choice is
      left: whichever operation came first was passed over. */
  lemma DeadEnd(t: Track, placed: set<nat>, state: Value, e: nat)
    requires t.Valid() && e in Live(t, placed) && 0 < e
    requires e == t.Last() || t.At(e).isReturn
    requires PassedOver(t, placed, state, e)
    requires Pending(t.ops, placed) != multiset{}
    ensures Dead(t.ops, placed, state)
  {
    var pending := Pending(t.ops, placed);
    if CanFinish(pending, state) {
      CanFinishStep(pending, state);
      var op, after :| GoodNext(pending, state, op, after);
      var i := PendingMember(t.ops, placed, op);
      PendingMinus(t.ops, placed, i);
      if t.call[i] < e {
        PassedIsDead(t, placed, state, e, i, after);
      } else {
        assert t.Inner(t.call[i]);
        BehindReturn(t, placed, e, i);
      }
      assert false;
    }
  }

  lemma NothingPassed(t: Track, placed: set<nat>, state: Value, e: nat)
    requires t.Valid() && Gap(Live(t, placed), 0, e)
    ensures PassedOver(t, placed, state, e)
  {
  }

  lemma OnePassed(t: Track, placed: set<nat>, state: Value, p: nat, e: nat)
    requires t.Valid() && PassedOver(t, placed, state, p) && Gap(Live(t, placed), p, e)
    requires t.Inner(p) && !t.At(p).isReturn && Rejected(t.ops, placed, state, t.At(p).idx)
    ensures PassedOver(t, placed, state, e)
  {
    hide Rejected;
  }

  /** The list is empty exactly when nothing is pending. */
  lemma EmptyList(t: Track, placed: set<nat>, e: nat)
    requires t.Valid() && 0 < e <= t.Last() && e in Live(t, placed) && Gap(Live(t, placed), 0, e)
    ensures e == t.Last() <==> Pending(t.ops, placed) == multiset{}
  {
    if e < t.Last() {
      assert t.Inner(e);
      PendingMinus(t.ops, placed, t.At(e).idx);
    } else if Pending(t.ops, placed) != multiset{} {
      var op :| op in Pending(t.ops, placed);
      var i := PendingMember(t.ops, placed, op);
      assert t.Inner(t.call[i]);
      LiveAfter(t, placed, i);
    }
  }

  // --- The stack of choices ----------------------------------------------------------

  /** The choices on the stack: operation `path[k]` was placed on `states[k]` by
      its alternative `alts[k]`, leaving `states[k + 1]`. */
  datatype Trail = Trail(path: seq<nat>, states: seq<Value>, alts: seq<nat>) {
    ghost predicate Shaped(t: Track) {
      IsPath(t, path) && |states| == |path| + 1 && |alts| == |path| && states[0] == Unknown
    }

    function State(): Value requires |states| > 0 { states[|states| - 1] }
  }

  /** The search chose alternative `a` of operation `i` on `before`, having
      rejected everything it would have tried earlier. */
  ghost predicate Choice(t: Track, placed: set<nat>, before: Value, i: nat, a: nat, after: Value)
    requires t.Valid() && i < |t.ops|
  {
    && a < |Alternatives(before, t.ops[i])| && Alternatives(before, t.ops[i])[a] == after
    && PassedOver(t, placed, before, t.call[i])
    && Tried(t.ops, placed, before, i, a)
  }

  ghost predicate FrameOk(t: Track, tr: Trail, k: nat)
    requires t.Valid() && tr.Shaped(t) && k < |tr.path|
  {
    Choice(t, SetOf(tr.path[..k]), tr.states[k], tr.path[k], tr.alts[k], tr.states[k + 1])
  }

  ghost predicate TrailOk(t: Track, tr: Trail) {
    t.Valid() && tr.Shaped(t) && forall k :: 0 <= k < |tr.path| ==> FrameOk(t, tr, k)
  }

  ghost function Pushed(tr: Trail, i: nat, after: Value, a: nat): Trail {
    Trail(tr.path + [i], tr.states + [after], tr.alts + [a])
  }

  ghost function Popped(tr: Trail): Trail
    requires tr.path != [] && |tr.states| == |tr.path| + 1 && |tr.alts| == |tr.path|
  {
    var k := |tr.path| - 1;
    Trail(tr.path[..k], tr.states[..k + 1], tr.alts[..k])
  }

  lemma PushShaped(t: Track, tr: Trail, i: nat, after: Value, a: nat)
    requires tr.Shaped(t) && i < |t.ops| && i !in SetOf(tr.path)
    ensures var tr' := Pushed(tr, i, after, a);
      tr'.Shaped(t) && SetOf(tr'.path) == SetOf(tr.path) + {i} && Popped(tr') == tr
  {
    var tr' := Pushed(tr, i, after, a);
    forall b | 0 <= b < |tr.path| ensures tr.path[b] != i {
      assert tr.path[b] in tr.path;
    }
    assert tr'.Shaped(t);
    PathPrefix(t, tr'.path);
    assert tr'.path[..|tr'.path| - 1] == tr.path;
    assert tr'.states[..|tr'.path|] == tr.states && tr'.alts[..|tr'.path| - 1] == tr.alts;
  }

  lemma PushOk(t: Track, tr: Trail, i: nat, a: nat, after: Value)
    requires TrailOk(t, tr) && i < |t.ops| && i !in SetOf(tr.path)
    requires Choice(t, SetOf(tr.path), tr.State(), i, a, after)
    ensures var tr' := Pushed(tr, i, after, a);
      TrailOk(t, tr') && SetOf(tr'.path) == SetOf(tr.path) + {i} && Popped(tr') == tr
  {
    hide Choice;
    var tr' := Pushed(tr, i, after, a);
    PushShaped(t, tr, i, after, a);
    forall k | 0 <= k < |tr'.path| ensures FrameOk(t, tr', k) {
      if k < |tr.path| {
        assert tr'.path[..k] == tr.path[..k];
        assert FrameOk(t, tr, k);
      } else {
        assert tr'.path[..k] == tr.path;
      }
    }
  }

  lemma PopShaped(t: Track, tr: Trail)
    requires tr.Shaped(t) && tr.path != []
    ensures var back, k := Popped(tr), |tr.path| - 1; var i := tr.path[k];
      && back.Shaped(t) && i < |t.ops| && i !in SetOf(back.path) && SetOf(tr.path) == SetOf(back.path) + {i}
      && tr == Pushed(back, i, tr.State(), tr.alts[k])
  {
    var back, k := Popped(tr), |tr.path| - 1;
    PathPrefix(t, tr.path);
    assert tr.path == back.path + [tr.path[k]];
    assert tr.states == back.states + [tr.State()];
    assert tr.alts == back.alts + [tr.alts[k]];
  }

  /** The choices below the last one still stand, and so does what was known when
      the last one was made. */
  lemma PopOk(t: Track, tr: Trail)
    requires TrailOk(t, tr) && tr.path != []
    ensures var back, k := Popped(tr), |tr.path| - 1; var i := tr.path[k];
      && TrailOk(t, back) && i < |t.ops| && i !in SetOf(back.path) && SetOf(tr.path) == SetOf(back.path) + {i}
      && Choice(t, SetOf(back.path), back.State(), i, tr.alts[k], tr.State())
      && tr == Pushed(back, i, tr.State(), tr.alts[k])
  {
    hide Choice;
    var back, k := Popped(tr), |tr.path| - 1;
    PopShaped(t, tr);
    forall b | 0 <= b < |back.path| ensures FrameOk(t, back, b) {
      assert back.path[..b] == tr.path[..b];
      assert FrameOk(t, tr, b);
    }
    assert FrameOk(t, tr, k);
  }

  /** Once the chosen alternative is known to lead nowhere, the next is due. */
  lemma ChoiceFailed(t: Track, placed: set<nat>, before: Value, i: nat, a: nat, after: Value)
    requires t.Valid() && i < |t.ops| && Choice(t, placed, before, i, a, after)
    requires Dead(t.ops, placed + {i}, after)
    ensures PassedOver(t, placed, before, t.call[i]) && Tried(t.ops, placed, before, i, a + 1)
  {
    hide PassedOver, Dead;
  }

  // --- The memo ------------------------------------------------------------------------

  /** A register value together with the operations placed when it was reached. */
  datatype Spot = Spot(state: Value, placed: set<nat>)

  ghost predicate OnTrail(tr: Trail, spot: Spot)
    requires |tr.states| == |tr.path| + 1
  {
    exists k :: 1 <= k <= |tr.path| && Spot(tr.states[k], SetOf(tr.path[..k])) == spot
  }

  /** A recorded spot was explored to no end, or is still being explored. */
  ghost predicate MemoOk(t: Track, tr: Trail, seen: set<Spot>)
    requires |tr.states| == |tr.path| + 1
  {
    forall spot :: spot in seen ==> Dead(t.ops, spot.placed, spot.state) || OnTrail(tr, spot)
  }

  lemma {:induction false} PathCard(t: Track, path: seq<nat>)
    requires IsPath(t, path)
    ensures |SetOf(path)| == |path|
  {
    if path == [] {
      assert SetOf(path) == {};
    } else {
      PathPrefix(t, path);
      PathCard(t, path[..|path| - 1]);
    }
  }

  lemma OnTrailSize(t: Track, tr: Trail, spot: Spot)
    requires tr.Shaped(t) && OnTrail(tr, spot)
    ensures |spot.placed| <= |tr.path|
  {
    var k :| 1 <= k <= |tr.path| && Spot(tr.states[k], SetOf(tr.path[..k])) == spot;
    PathCard(t, tr.path[..k]);
  }

  /** A recorded spot with one operation more than the stack cannot be on the
      stack, so it leads nowhere and may be pruned. */
  lemma MemoHit(t: Track, tr: Trail, seen: set<Spot>, i: nat, after: Value)
    requires tr.Shaped(t) && MemoOk(t, tr, seen)
    requires i < |t.ops| && i !in SetOf(tr.path) && Spot(after, SetOf(tr.path) + {i}) in seen
    ensures Dead(t.ops, SetOf(tr.path) + {i}, after)
  {
    var spot := Spot(after, SetOf(tr.path) + {i});
    PathCard(t, tr.path);
    if OnTrail(tr, spot) {
      OnTrailSize(t, tr, spot);
    }
  }

  lemma MemoPush(t: Track, tr: Trail, seen: set<Spot>, i: nat, after: Value, a: nat)
    requires tr.Shaped(t) && MemoOk(t, tr, seen)
    ensures MemoOk(t, Pushed(tr, i, after, a), seen + {Spot(after, SetOf(tr.path + [i]))})
  {
    var tr' := Pushed(tr, i, after, a);
    forall spot | OnTrail(tr, spot) ensures OnTrail(tr', spot) {
      var k :| 1 <= k <= |tr.path| && Spot(tr.states[k], SetOf(tr.path[..k])) == spot;
      assert tr'.path[..k] == tr.path[..k] && tr'.states[k] == tr.states[k];
    }
    var n := |tr'.path|;
    assert tr'.path[..n] == tr.path + [i];
    assert OnTrail(tr', Spot(after, SetOf(tr.path + [i])));
  }

  lemma MemoPop(t: Track, tr: Trail, seen: set<Spot>)
    requires tr.Shaped(t) && tr.path != [] && MemoOk(t, tr, seen)
    requires Dead(t.ops, SetOf(tr.path), tr.State())
    ensures MemoOk(t, Popped(tr), seen)
  {
    var back := Popped(tr);
    forall spot | spot in seen && OnTrail(tr, spot)
      ensures Dead(t.ops, spot.placed, spot.state) || OnTrail(back, spot)
    {
      var k :| 1 <= k <= |tr.path| && Spot(tr.states[k], SetOf(tr.path[..k])) == spot;
      if k < |tr.path| {
        assert back.path[..k] == tr.path[..k] && back.states[k] == tr.states[k];
      } else {
        assert tr.path[..k] == tr.path;
      }
    }
  }

  // --- The two answers -------------------------------------------------------------------

  /** The operations a path places, in order. */
  function Placement(ops: seq<Op>, path: seq<nat>): seq<Op>
    requires forall i :: i in path ==> i < |ops|
  {
    seq(|path|, k requires 0 <= k < |path| => (assert path[k] in path; ops[path[k]]))
  }

  lemma PathInRange(t: Track, path: seq<nat>)
    requires IsPath(t, path)
    ensures forall i :: i in path ==> i < |t.ops|
  {
  }

  lemma {:induction false} PlacementPending(t: Track, path: seq<nat>)
    requires IsPath(t, path)
    ensures (PathInRange(t, path); multiset(Placement(t.ops, path)) + Pending(t.ops, SetOf(path)) == multiset(t.ops))
  {
    if path == [] {
      assert SetOf(path) == {};
      PendingAll(t.ops);
    } else {
      var front, i := path[..|path| - 1], path[|path| - 1];
      PathPrefix(t, path);
      PlacementPending(t, front);
      PendingMinus(t.ops, SetOf(front), i);
      assert Placement(t.ops, path) == Placement(t.ops, front) + [t.ops[i]];
    }
  }

  lemma PlacementRealTime(t: Track, tr: Trail)
    requires TrailOk(t, tr)
    ensures (PathInRange(t, tr.path); RespectsRealTime(Placement(t.ops, tr.path)))
  {
    forall a, b | 0 <= a < b < |tr.path| ensures !MustPrecede(t.ops[tr.path[b]], t.ops[tr.path[a]]) {
      assert FrameOk(t, tr, a);
      ReachedMayComeFirst(t, SetOf(tr.path[..a]), tr.states[a], tr.path[a], tr.path[b]);
    }
  }

  lemma {:induction false} PlacementLegal(t: Track, tr: Trail, k: nat)
    requires TrailOk(t, tr) && k <= |tr.path|
    ensures (PathInRange(t, tr.path); LegalFrom(Placement(t.ops, tr.path)[k..], tr.states[k]))
    decreases |tr.path| - k
  {
    if k < |tr.path| {
      PlacementLegal(t, tr, k + 1);
      assert FrameOk(t, tr, k);
      var i := tr.path[k];
      AlternativesAreSteps(tr.states[k], t.ops[i], tr.states[k + 1]);
      PathInRange(t, tr.path);
      var order := Placement(t.ops, tr.path)[k..];
      assert order[1..] == Placement(t.ops, tr.path)[k + 1..];
      LegalHead(order, tr.states[k]);
    }
  }

  /** A stack that leaves nothing pending is a linearization. */
  lemma FullTrail(t: Track, tr: Trail)
    requires TrailOk(t, tr) && Pending(t.ops, SetOf(tr.path)) == multiset{}
    ensures forall i :: i in tr.path ==> i < |t.ops|
    ensures IsLinearization(Placement(t.ops, tr.path), multiset(t.ops), Unknown)
  {
    PathInRange(t, tr.path);
    PlacementPending(t, tr.path);
    PlacementRealTime(t, tr);
    PlacementLegal(t, tr, 0);
    assert Placement(t.ops, tr.path)[0..] == Placement(t.ops, tr.path);
  }

  /** An empty stack with no choice left is a proof that none exists. */
  lemma EmptyTrail(t: Track, tr: Trail)
    requires TrailOk(t, tr) && tr.path == [] && Dead(t.ops, SetOf(tr.path), tr.State())
    ensures !Linearizable(multiset(t.ops))
  {
    assert SetOf(tr.path) == {};
    PendingAll(t.ops);
  }
}
