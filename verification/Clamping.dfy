/** Clamped completions: for which recorded times the rules stay exact, and why. */
module Clamping {
  import opened Wrappers
  import opened Register
  import opened Locality
  import opened HistoryEdits
  import opened RawHistory
  import opened Operations

  // --- The condition on the recorded times ---------------------------------------------

  /** `j` may have happened, and was invoked in the time the clamp of `i` hides. */
  predicate InWindow(raws: seq<RawOp>, i: nat, j: nat)
    requires i < |raws| && j < |raws| && Clamped(raws[i])
  {
    && i != j && !Failed(raws[j]) && raws[j].invoke.Some?
    && raws[i].complete.value.tns < raws[j].invoke.value.tns <= raws[i].invoke.value.tns
  }

  /** Every other completed operation was invoked after `i` was. */
  predicate StartsFirst(raws: seq<RawOp>, i: nat)
    requires i < |raws| && raws[i].invoke.Some?
  {
    forall l :: 0 <= l < |raws| && l != i && Determinate(raws[l]) ==>
      raws[l].invoke.Some? && raws[i].invoke.value.tns < raws[l].invoke.value.tns
  }

  /** A clamp hides no invoke, unless the clamped operation is invoked before every other
      completed one. */
  predicate Harmless(raws: seq<RawOp>) {
    forall i, j :: 0 <= i < |raws| && 0 <= j < |raws| && Clamped(raws[i]) && InWindow(raws, i, j) ==>
      StartsFirst(raws, i)
  }

  // --- Settling the clamps in the records ----------------------------------------------

  /** The records the clamped operation would be exact for. */
  function Settle(ro: RawOp): (r: RawOp)
    ensures !Clamped(r)
  {
    if Clamped(ro) then ro.(complete := Some(ro.complete.value.(tns := ro.invoke.value.tns))) else ro
  }

  function Settled(raws: seq<RawOp>): seq<RawOp> {
    seq(|raws|, i requires 0 <= i < |raws| => Settle(raws[i]))
  }

  lemma SettledBuilds(ro: RawOp)
    requires SingleKeyed(ro)
    ensures SingleKeyed(Settle(ro)) && KeyOf(Settle(ro)) == KeyOf(ro) && IsRead(Settle(ro)) == IsRead(ro)
    ensures BuildOf(Settle(ro)) == BuildOf(ro)
  {
    var s := Settle(ro);
    assert AllKeys(s) == AllKeys(ro) && Names(s) == Names(ro);
    assert KeyOf(s) in AllKeys(ro);
  }

  lemma {:induction false} SettledKept(raws: seq<RawOp>)
    requires Buildable(raws)
    ensures Buildable(Settled(raws)) && Kept(Settled(raws)) == Kept(raws)
  {
    hide SingleKeyed, BuildOf, Settle, Clamped;
    forall i | 0 <= i < |raws| ensures SingleKeyed(Settled(raws)[i]) && !BuildOf(Settled(raws)[i]).Refuse? {
      SettledBuilds(raws[i]);
    }
    if raws != [] {
      assert Settled(raws)[1..] == Settled(raws[1..]);
      SettledBuilds(raws[0]);
      SettledKept(raws[1..]);
    }
  }

  // --- Happenings, one index at a time -------------------------------------------------

  /** What happened besides the effect at `i`. */
  ghost function Besides(effects: seq<Effect>, i: nat): multiset<Op>
    requires i < |effects|
  {
    Happenings(effects[i := Nothing])
  }

  lemma {:induction false} HappeningsAt(effects: seq<Effect>, i: nat)
    requires i < |effects|
    ensures Happenings(effects) == Besides(effects, i) + Single(effects[i])
  {
    hide Happenings, Single;
    var e, tail, without := effects[0], effects[1..], effects[i := Nothing];
    assert effects == [e] + tail;
    HappeningsHead(e, tail);
    if i == 0 {
      assert without == [Nothing] + tail;
      HappeningsHead(Nothing, tail);
      NothingSingle();
      assert Besides(effects, i) == Happenings(tail);
    } else {
      var tail' := tail[i - 1 := Nothing];
      assert without == [e] + tail';
      HappeningsHead(e, tail');
      HappeningsAt(tail, i - 1);
      Regroup(Single(e), Happenings(tail'), Single(tail[i - 1]));
    }
  }

  lemma NothingSingle()
    ensures Single(Nothing) == multiset{}
  {
  }

  /** Whatever happened is the effect at some index. */
  lemma {:induction false} HappenedAt(effects: seq<Effect>, op: Op) returns (i: nat)
    requires op in Happenings(effects)
    ensures i < |effects| && effects[i] == Happened(op)
  {
    if effects[0] == Happened(op) {
      i := 0;
    } else {
      i := HappenedAt(effects[1..], op);
      i := i + 1;
    }
  }

  lemma BesidesAt(effects: seq<Effect>, i: nat, op: Op) returns (j: nat)
    requires i < |effects| && op in Besides(effects, i)
    ensures j < |effects| && j != i && effects[j] == Happened(op)
  {
    j := HappenedAt(effects[i := Nothing], op);
  }

  // --- From the settled history to the recorded one ------------------------------------

  /** Every operation is a read or a write of one key, as recorded and as settled. */
  ghost predicate AllKeyed(raws: seq<RawOp>) {
    forall i :: 0 <= i < |raws| ==> SingleKeyed(raws[i]) && SingleKeyed(Settle(raws[i]))
  }

  /** The operation as the history at hand has it: below `k` as recorded, else as settled. */
  function At(raws: seq<RawOp>, k: nat, i: nat): RawOp
    requires i < |raws|
  {
    if i < k then raws[i] else Settle(raws[i])
  }

  ghost predicate RestoredAt(raws: seq<RawOp>, k: nat, i: nat, e: Effect)
    requires AllKeyed(raws) && i < |raws|
  {
    Possible(At(raws, k, i), e) && OpenIfOrphan(raws[i], e)
  }

  /** The first `k` effects are of the operations as recorded, the others as settled. */
  ghost predicate Restored(raws: seq<RawOp>, effects: seq<Effect>, k: nat)
    requires AllKeyed(raws)
  {
    |effects| == |raws| && forall i :: 0 <= i < |raws| ==> RestoredAt(raws, k, i, effects[i])
  }

  /** The operation of a clamped completion, ending when it is recorded to end. */
  function Tight(ro: RawOp, op: Op): Op
    requires Clamped(ro)
  {
    op.(returnNS := ro.complete.value.tns)
  }

  /** What the effect at `j` says about its times. */
  lemma EffectTimes(raws: seq<RawOp>, effects: seq<Effect>, k: nat, j: nat)
    requires AllKeyed(raws)
    requires Restored(raws, effects, k) && j < |raws| && effects[j].Happened?
    ensures !Failed(raws[j])
    ensures raws[j].invoke.Some? ==> !effects[j].op.openAtStart && effects[j].op.invokeNS == raws[j].invoke.value.tns
    ensures raws[j].invoke.None? ==> effects[j].op.openAtStart
  {
    assert RestoredAt(raws, k, j, effects[j]);
  }

  /** The settled effect at a clamped index, and its tight counterpart. */
  lemma ClampedEffect(ro: RawOp, e: Effect)
    requires SingleKeyed(ro) && SingleKeyed(Settle(ro)) && Clamped(ro) && Possible(Settle(ro), e)
    ensures e.Happened? && !e.op.openAtStart && !e.op.openAtEnd && !e.op.maybe
    ensures e.op.invokeNS == e.op.returnNS == ro.invoke.value.tns
    ensures Possible(ro, Happened(Tight(ro, e.op)))
  {
    SettledBuilds(ro);
  }

  /** Putting the tight operation at `k` restores that index. */
  lemma TightAt(raws: seq<RawOp>, effects: seq<Effect>, k: nat) returns (x: Op, y: Op, effects': seq<Effect>)
    requires AllKeyed(raws) && Restored(raws, effects, k) && k < |raws| && Clamped(raws[k])
    ensures effects[k] == Happened(x) && y == Tight(raws[k], x) && DoesAsMuch(y, x)
    ensures x.invokeNS == x.returnNS == raws[k].invoke.value.tns && !x.openAtStart && !x.openAtEnd
    ensures effects' == effects[k := Happened(y)] && Restored(raws, effects', k + 1)
    ensures Happenings(effects) == Besides(effects, k) + multiset{x}
    ensures Happenings(effects') == Besides(effects, k) + multiset{y}
  {
    hide SingleKeyed, Possible;
    assert RestoredAt(raws, k, k, effects[k]);
    ClampedEffect(raws[k], effects[k]);
    x := effects[k].op;
    y := Tight(raws[k], x);
    effects' := effects[k := Happened(y)];
    HappeningsAt(effects, k);
    HappeningsAt(effects', k);
    assert effects'[k := Nothing] == effects[k := Nothing];
    forall i | 0 <= i < |raws| ensures RestoredAt(raws, k + 1, i, effects'[i]) {
      assert RestoredAt(raws, k, i, effects[i]);
    }
  }

  /** With no invoke in the window, real time asks no more of the tight operation. */
  lemma EmptyWindow(raws: seq<RawOp>, effects: seq<Effect>, k: nat, x: Op, y: Op)
    requires AllKeyed(raws) && Restored(raws, effects, k) && k < |raws| && Clamped(raws[k])
    requires forall j :: 0 <= j < |raws| ==> !InWindow(raws, k, j)
    requires y == Tight(raws[k], x) && !x.openAtStart && !x.openAtEnd
    requires x.invokeNS == x.returnNS == raws[k].invoke.value.tns
    ensures AsksNoMore(y, x, Besides(effects, k))
  {
    hide SingleKeyed, Possible, RestoredAt, Happenings;
    forall o | o in Besides(effects, k) && MustPrecede(y, o) ensures MustPrecede(x, o) {
      var j := BesidesAt(effects, k, o);
      EffectTimes(raws, effects, k, j);
      assert !InWindow(raws, k, j);
    }
  }

  /** An order still explains what is left without its first operation. */
  lemma FirstLeftOut(b: Op, rest: seq<Op>, ops: multiset<Op>)
    requires Explains([b] + rest, ops + multiset{b})
    ensures Explains(rest, ops)
  {
    hide LegalFrom, Project;
    assert [] + [b] + rest == [b] + rest && [] + rest == rest;
    LegalAround([], b, rest);
    var mine := Project(rest, b.key);
    ProjectNone(b.key);
    assert [] + [b] + mine == [b] + mine && [] + mine == mine;
    var next := NextState(b, mine, Unknown);
    if next.Known? {
      ForgetStart(mine, next.canon);
    }
    LeftOutExplains([], b, rest, ops);
  }

  /** Silencing the effect at `j`, which need not have happened. */
  lemma Silence(raws: seq<RawOp>, effects: seq<Effect>, k: nat, j: nat, b: Op) returns (effects': seq<Effect>)
    requires AllKeyed(raws) && Restored(raws, effects, k) && k < |raws| && j < |raws| && j != k
    requires effects[j] == Happened(b) && !Determinate(raws[j])
    ensures Restored(raws, effects', k) && effects'[k] == effects[k]
    ensures Besides(effects, k) == Besides(effects', k) + multiset{b}
  {
    hide SingleKeyed;
    effects' := effects[j := Nothing];
    HappeningsAt(effects[k := Nothing], j);
    assert effects[k := Nothing][j := Nothing] == effects'[k := Nothing];
    hide Possible;
    forall i | 0 <= i < |raws| ensures RestoredAt(raws, k, i, effects'[i]) {
      assert RestoredAt(raws, k, i, effects[i]);
      if i == j {
        MaybeNot(At(raws, k, j), effects[j]);
      }
    }
  }

  lemma MaybeNot(ro: RawOp, e: Effect)
    requires SingleKeyed(ro) && Possible(ro, e) && !Determinate(ro)
    ensures Possible(ro, Nothing)
  {
  }

  /** Whatever an explanation places before an operation that starts first is indeterminate,
      and can be left out. */
  lemma {:induction false} HushBefore(raws: seq<RawOp>, effects: seq<Effect>, k: nat, before: seq<Op>, x: Op,
                                      after: seq<Op>)
    returns (effects': seq<Effect>)
    requires AllKeyed(raws) && Restored(raws, effects, k) && k < |raws| && Clamped(raws[k]) && StartsFirst(raws, k)
    requires x.returnNS == raws[k].invoke.value.tns && !x.openAtEnd
    requires Explains(before + [x] + after, Besides(effects, k) + multiset{x})
    ensures Restored(raws, effects', k) && effects'[k] == effects[k]
    ensures Explains([x] + after, Besides(effects', k) + multiset{x})
    decreases before
  {
    hide SingleKeyed, RestoredAt, Happenings, Explains;
    if before == [] {
      effects' := effects;
      assert before + [x] + after == [x] + after;
    } else {
      var b, rest := before[0], before[1..];
      assert before + [x] + after == [b] + (rest + [x] + after);
      RealTimeOf(before, x, after, Besides(effects, k));
      assert b in before + after && b in multiset(before + after);
      var j := BesidesAt(effects, k, b);
      EffectTimes(raws, effects, k, j);
      assert !Determinate(raws[j]) by {
        assert b in before && !MustPrecede(x, b);
      }
      var silenced := Silence(raws, effects, k, j, b);
      var others := Besides(silenced, k);
      assert Besides(effects, k) + multiset{x} == others + multiset{x} + multiset{b};
      FirstLeftOut(b, rest + [x] + after, others + multiset{x});
      effects' := HushBefore(raws, silenced, k, rest, x, after);
    }
  }

  /** A clamped operation that starts first is made tight at the head of an explanation. */
  lemma TightFirst(raws: seq<RawOp>, effects: seq<Effect>, k: nat) returns (effects': seq<Effect>)
    requires AllKeyed(raws) && Restored(raws, effects, k) && k < |raws| && Clamped(raws[k]) && StartsFirst(raws, k)
    requires HistoryLinearizable(Happenings(effects))
    ensures Restored(raws, effects', k + 1) && HistoryLinearizable(Happenings(effects'))
  {
    hide HistoryLinearizable, RestoredAt, Happenings, Explains, SingleKeyed, StartsFirst;
    var x, y, _ := TightAt(raws, effects, k);
    var order := SomeExplanation(Happenings(effects));
    InOrder(order, Besides(effects, k), x);
    var before, after := PickOut(order, x);
    var hushed := HushBefore(raws, effects, k, before, x, after);
    var x', y', restored := TightAt(raws, hushed, k);
    var others := Besides(hushed, k);
    assert [] + [x] + after == [x] + after && [] + [y] + after == [y] + after;
    RealTimeOf([], x, after, others);
    assert FitsBetween([], y, after) by {
      forall b | b in after ensures !MustPrecede(b, y) {
        assert !MustPrecede(b, x);
      }
    }
    ReplacedExplains([], x, y, after, others);
    ByExplanation([y] + after, others + multiset{y});
    effects' := restored;
  }

  lemma InOrder(order: seq<Op>, ops: multiset<Op>, x: Op)
    requires Explains(order, ops + multiset{x})
    ensures x in multiset(order)
  {
  }

  lemma TightenOne(raws: seq<RawOp>, effects: seq<Effect>, k: nat) returns (effects': seq<Effect>)
    requires AllKeyed(raws) && Restored(raws, effects, k) && k < |raws| && Harmless(raws)
    requires HistoryLinearizable(Happenings(effects))
    ensures Restored(raws, effects', k + 1) && HistoryLinearizable(Happenings(effects'))
  {
    hide HistoryLinearizable, Happenings, SingleKeyed, Possible, StartsFirst;
    if !Clamped(raws[k]) {
      effects' := effects;
      assert Settle(raws[k]) == raws[k];
      forall i | 0 <= i < |raws| ensures RestoredAt(raws, k + 1, i, effects[i]) {
        assert RestoredAt(raws, k, i, effects[i]);
      }
    } else if forall j :: 0 <= j < |raws| ==> !InWindow(raws, k, j) {
      var x, y;
      x, y, effects' := TightAt(raws, effects, k);
      EmptyWindow(raws, effects, k, x, y);
      Replace(Besides(effects, k), x, y);
    } else {
      effects' := TightFirst(raws, effects, k);
    }
  }

  lemma {:induction false} Restore(raws: seq<RawOp>, effects: seq<Effect>, k: nat) returns (effects': seq<Effect>)
    requires AllKeyed(raws) && k <= |raws| && Restored(raws, effects, k) && Harmless(raws)
    requires HistoryLinearizable(Happenings(effects))
    ensures Consistent(raws, effects') && HistoryLinearizable(Happenings(effects'))
    decreases |raws| - k
  {
    if k == |raws| {
      hide SingleKeyed, HistoryLinearizable, Possible, Happenings;
      effects' := effects;
      forall i | 0 <= i < |raws| ensures Possible(raws[i], effects[i]) {
        assert RestoredAt(raws, k, i, effects[i]);
      }
    } else {
      hide *;
      var one := TightenOne(raws, effects, k);
      effects' := Restore(raws, one, k + 1);
    }
  }

  /** With no harm in the clamps, the rules are exact. */
  lemma RulesAreExact(raws: seq<RawOp>)
    requires Buildable(raws) && Harmless(raws)
    ensures RawLinearizable(raws) <==> HistoryLinearizable(Kept(raws))
  {
    hide HistoryLinearizable, SingleKeyed, BuildOf, Kept, Happenings, Possible, Harmless;
    if RawLinearizable(raws) {
      RulesLoseNoExplanation(raws);
    }
    if HistoryLinearizable(Kept(raws)) {
      SettledKept(raws);
      var settled := Settled(raws);
      var effects := UnclampedIsExplained(settled);
      forall i | 0 <= i < |raws|
        ensures SingleKeyed(raws[i]) && SingleKeyed(Settle(raws[i]))
      {
        assert settled[i] == Settle(raws[i]);
      }
      forall i | 0 <= i < |raws| ensures RestoredAt(raws, 0, i, effects[i]) {
        assert Possible(settled[i], effects[i]) && OpenIfOrphan(settled[i], effects[i]);
      }
      var effects' := Restore(raws, effects, 0);
    }
  }
}
