/** Linearizability of a last-write-wins register whose first value is not known. */
module Register {

  /** A register value: its canonical text, or not yet determined. */
  datatype Value = Unknown | Known(canon: string)

  datatype Kind = Read | Write

  /** One checkable operation. `value` is the canonical text a read returned or a
      write wrote. `maybe` marks an indeterminate write. */
  datatype Op = Op(
    id: int,
    kind: Kind,
    key: string,
    value: string,
    invokeNS: int,
    returnNS: int,
    openAtStart: bool,
    openAtEnd: bool,
    maybe: bool)
  {
    /** The interval is not turned inside out. */
    predicate WellFormed() {
      openAtStart || openAtEnd || invokeNS <= returnNS
    }
  }

  /** The whole interval of `a` ends strictly before that of `b` begins. */
  predicate MustPrecede(a: Op, b: Op) {
    !a.openAtEnd && !b.openAtStart && a.returnNS < b.invokeNS
  }

  ghost predicate Covers(op: Op, t: int) {
    (op.openAtStart || op.invokeNS <= t) && (op.openAtEnd || t <= op.returnNS)
  }

  /** That is so exactly when every moment of the one is before every moment of the other. */
  lemma PrecedesEveryMoment(a: Op, b: Op)
    requires a.WellFormed() && b.WellFormed()
    ensures MustPrecede(a, b) <==> forall s, t :: Covers(a, s) && Covers(b, t) ==> s < t
  {
    if !MustPrecede(a, b) {
      var late := if a.openAtStart then 0 else a.invokeNS;
      var early := if b.openAtEnd then 0 else b.returnNS;
      var s := if a.openAtEnd then (if b.openAtStart then
        Later(late, early) else Later(late, b.invokeNS)) else a.returnNS;
      var t := if b.openAtStart then Earlier(early, s) else b.invokeNS;
      assert Covers(a, s) && Covers(b, t) && s >= t;
    }
  }

  function Later(x: int, y: int): (z: int)
    ensures z >= x && z >= y
  {
    if x > y then x else y
  }

  function Earlier(x: int, y: int): (z: int)
    ensures z <= x && z <= y
  {
    if x < y then x else y
  }

  ghost predicate RespectsRealTime(order: seq<Op>) {
    forall a, b :: 0 <= a < b < |order| ==> !MustPrecede(order[b], order[a])
  }

  /** `order` is a sequential run of the register from `state`: a read of an
      undetermined register determines it, and an indeterminate write is free to
      be applied or not. */
  ghost predicate LegalFrom(order: seq<Op>, state: Value) {
    if order == [] then true
    else
      var op, rest := order[0], order[1..];
      match op.kind
      case Read => (state.Unknown? || state == Known(op.value)) && LegalFrom(rest, Known(op.value))
      case Write => LegalFrom(rest, Known(op.value)) || (op.maybe && LegalFrom(rest, state))
  }

  ghost predicate IsLinearization(order: seq<Op>, ops: multiset<Op>, state: Value) {
    multiset(order) == ops && RespectsRealTime(order) && LegalFrom(order, state)
  }

  /** The operations `ops` can all still be placed when the register holds `state`. */
  ghost predicate CanFinish(ops: multiset<Op>, state: Value) {
    exists order :: IsLinearization(order, ops, state)
  }

  ghost predicate Linearizable(ops: multiset<Op>) {
    CanFinish(ops, Unknown)
  }

  /** No other pending operation has to come before `op`. */
  ghost predicate MayComeFirst(op: Op, pending: multiset<Op>) {
    forall o :: o in pending - multiset{op} ==> !MustPrecede(o, op)
  }

  /** `after` is a register value that placing `op` on `before` may leave. */
  predicate Step(before: Value, op: Op, after: Value) {
    match op.kind
    case Read => (before.Unknown? || before == Known(op.value)) && after == Known(op.value)
    case Write => after == Known(op.value) || (op.maybe && after == before)
  }

  lemma LegalHead(order: seq<Op>, state: Value)
    requires order != []
    ensures LegalFrom(order, state) <==>
            exists after :: Step(state, order[0], after) && LegalFrom(order[1..], after)
  {
    var op, rest := order[0], order[1..];
    if LegalFrom(order, state) {
      if LegalFrom(rest, Known(op.value)) && Step(state, op, Known(op.value)) {
      } else {
        assert Step(state, op, state) && LegalFrom(rest, state);
      }
    }
  }

  lemma RealTimeHead(order: seq<Op>)
    requires order != []
    ensures RespectsRealTime(order) <==>
            RespectsRealTime(order[1..]) && forall o :: o in order[1..] ==> !MustPrecede(o, order[0])
  {
    var rest := order[1..];
    if RespectsRealTime(rest) && forall o :: o in rest ==> !MustPrecede(o, order[0]) {
      forall a, b | 0 <= a < b < |order| ensures !MustPrecede(order[b], order[a]) {
        assert order[b] == rest[b - 1] && rest[b - 1] in rest;
        if a > 0 { assert order[a] == rest[a - 1]; }
      }
    }
    if RespectsRealTime(order) {
      forall o | o in rest ensures !MustPrecede(o, order[0]) {
        var i :| 0 <= i < |rest| && rest[i] == o;
        assert order[i + 1] == o;
      }
      forall a, b | 0 <= a < b < |rest| ensures !MustPrecede(rest[b], rest[a]) {
        assert rest[b] == order[b + 1] && rest[a] == order[a + 1];
      }
    }
  }

  lemma MultisetHead(order: seq<Op>)
    requires order != []
    ensures multiset(order[1..]) == multiset(order) - multiset{order[0]}
    ensures order[0] in multiset(order)
  {
    assert order == [order[0]] + order[1..];
  }

  /** Placing `op` next, leaving `after`, keeps the way open to a linearization. */
  ghost predicate GoodNext(pending: multiset<Op>, state: Value, op: Op, after: Value) {
    op in pending && MayComeFirst(op, pending) && Step(state, op, after)
    && CanFinish(pending - multiset{op}, after)
  }

  lemma FirstOfLinearization(order: seq<Op>, pending: multiset<Op>, state: Value) returns (after: Value)
    requires order != [] && IsLinearization(order, pending, state)
    ensures GoodNext(pending, state, order[0], after)
  {
    MultisetHead(order);
    RealTimeHead(order);
    LegalHead(order, state);
    after :| Step(state, order[0], after) && LegalFrom(order[1..], after);
    assert IsLinearization(order[1..], pending - multiset{order[0]}, after);
    assert multiset(order[1..]) == pending - multiset{order[0]};
  }

  lemma PrependToLinearization(op: Op, tail: seq<Op>, pending: multiset<Op>, state: Value, after: Value)
    requires op in pending && MayComeFirst(op, pending) && Step(state, op, after)
    requires IsLinearization(tail, pending - multiset{op}, after)
    ensures IsLinearization([op] + tail, pending, state)
  {
    var order := [op] + tail;
    assert order[1..] == tail;
    MultisetHead(order);
    assert multiset(order) == pending;
    forall o | o in tail ensures !MustPrecede(o, op) {
      assert o in multiset(tail);
    }
    RealTimeHead(order);
    LegalHead(order, state);
  }

  /** A linearization is built by placing, again and again, an operation that
      may come first: pending operations can all be placed iff none is left, or
      one of them may come first and the rest can be placed after it. */
  lemma CanFinishStep(pending: multiset<Op>, state: Value)
    ensures CanFinish(pending, state) <==>
            pending == multiset{} || exists op, after :: GoodNext(pending, state, op, after)
  {
    if CanFinish(pending, state) && pending != multiset{} {
      var order :| IsLinearization(order, pending, state);
      var after := FirstOfLinearization(order, pending, state);
    }
    if pending == multiset{} {
      assert IsLinearization([], pending, state);
    } else if exists op, after :: GoodNext(pending, state, op, after) {
      var op, after :| GoodNext(pending, state, op, after);
      var tail :| IsLinearization(tail, pending - multiset{op}, after);
      PrependToLinearization(op, tail, pending, state, after);
    }
  }

  // --- The undetermined start -------------------------------------------------

  /** The plain register after the first `n` operations: the last applied write,
      or the initial value. */
  ghost function Contents(order: seq<Op>, applied: seq<bool>, init: string, n: nat): string
    requires n <= |order| == |applied|
  {
    if n == 0 then init
    else if order[n - 1].kind == Write && applied[n - 1] then order[n - 1].value
    else Contents(order, applied, init, n - 1)
  }

  /** `order` is a run of a plain register that starts at `init`: every read
      returns the contents, and only an indeterminate write may be skipped. */
  ghost predicate PlainRun(order: seq<Op>, applied: seq<bool>, init: string) {
    && |applied| == |order|
    && (forall i :: 0 <= i < |order| && order[i].kind == Write && !order[i].maybe ==> applied[i])
    && (forall i :: 0 <= i < |order| && order[i].kind == Read ==>
          order[i].value == Contents(order, applied, init, i))
  }

  lemma {:induction false} ContentsTail(order: seq<Op>, applied: seq<bool>, init: string, n: nat)
    requires 0 < n <= |order| == |applied|
    ensures Contents(order, applied, init, n)
         == Contents(order[1..], applied[1..], Contents(order, applied, init, 1), n - 1)
  {
    if n > 1 {
      ContentsTail(order, applied, init, n - 1);
    }
  }

  lemma PlainRunTail(order: seq<Op>, applied: seq<bool>, init: string)
    requires order != [] && |applied| == |order|
    ensures PlainRun(order, applied, init) <==>
            && (order[0].kind == Write && !order[0].maybe ==> applied[0])
            && (order[0].kind == Read ==> order[0].value == init)
            && PlainRun(order[1..], applied[1..], Contents(order, applied, init, 1))
  {
    var rest, flags, next := order[1..], applied[1..], Contents(order, applied, init, 1);
    forall i | 0 <= i < |rest|
      ensures Contents(rest, flags, next, i) == Contents(order, applied, init, i + 1)
    {
      ContentsTail(order, applied, init, i + 1);
    }
    if PlainRun(rest, flags, next)
       && (order[0].kind == Write && !order[0].maybe ==> applied[0])
       && (order[0].kind == Read ==> order[0].value == init) {
      forall i | 0 <= i < |order|
        ensures order[i].kind == Write && !order[i].maybe ==> applied[i]
        ensures order[i].kind == Read ==> order[i].value == Contents(order, applied, init, i)
      {
        if i > 0 { assert order[i] == rest[i - 1] && applied[i] == flags[i - 1]; }
      }
    }
    if PlainRun(order, applied, init) {
      forall i | 0 <= i < |rest|
        ensures rest[i].kind == Write && !rest[i].maybe ==> flags[i]
        ensures rest[i].kind == Read ==> rest[i].value == Contents(rest, flags, next, i)
      {
        assert rest[i] == order[i + 1] && flags[i] == applied[i + 1];
      }
    }
  }

  /** From a determined value, the register model and the plain register agree. */
  lemma {:induction false} KnownStartIsPlain(order: seq<Op>, init: string)
    ensures LegalFrom(order, Known(init)) <==> exists applied :: PlainRun(order, applied, init)
  {
    if order == [] {
      assert PlainRun(order, [], init);
    } else {
      var op, rest := order[0], order[1..];
      KnownStartIsPlain(rest, op.value);
      KnownStartIsPlain(rest, init);
      if LegalFrom(order, Known(init)) {
        var written := op.kind == Write && LegalFrom(rest, Known(op.value));
        var next := if written then op.value else init;
        assert LegalFrom(rest, Known(next));
        var tail :| PlainRun(rest, tail, next);
        var applied := [written] + tail;
        assert applied[1..] == tail;
        PlainRunTail(order, applied, init);
        assert Contents(order, applied, init, 0) == init;
        assert Contents(order, applied, init, 1) == next;
        assert PlainRun(order, applied, init);
      }
      if applied :| PlainRun(order, applied, init) {
        PlainRunTail(order, applied, init);
        assert Contents(order, applied, init, 0) == init;
        assert PlainRun(rest, applied[1..], Contents(order, applied, init, 1));
      }
    }
  }

  /** A run from a determined value is still a run when that value is forgotten. */
  lemma {:induction false} ForgetStart(order: seq<Op>, init: string)
    requires LegalFrom(order, Known(init))
    ensures LegalFrom(order, Unknown)
  {
    if order != [] && order[0].kind == Write && !LegalFrom(order[1..], Known(order[0].value)) {
      ForgetStart(order[1..], init);
    }
  }

  /** A run from the undetermined register names an initial value it fits. */
  lemma {:induction false} SomeStart(order: seq<Op>) returns (init: string)
    requires LegalFrom(order, Unknown)
    ensures LegalFrom(order, Known(init))
  {
    init := "";
    if order != [] {
      if order[0].kind == Read {
        init := order[0].value;
      } else if !LegalFrom(order[1..], Known(order[0].value)) {
        init := SomeStart(order[1..]);
      }
    }
  }

  /** Leaving the initial value undetermined is the same as quantifying over it:
      nothing else about the register is weakened. */
  lemma UndeterminedStartIsSomeStart(order: seq<Op>)
    ensures LegalFrom(order, Unknown) <==>
            exists init, applied :: PlainRun(order, applied, init)
  {
    if LegalFrom(order, Unknown) {
      var init := SomeStart(order);
      KnownStartIsPlain(order, init);
    }
    if init, applied :| PlainRun(order, applied, init) {
      KnownStartIsPlain(order, init);
      ForgetStart(order, init);
    }
  }
}
