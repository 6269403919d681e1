/** What a history can gain, lose, loosen or exchange, one operation at a time, and still have a
    linearization. */
module HistoryEdits {
  import opened Register
  import opened Locality

  /** Linearizability with the order read one register at a time. */
  ghost predicate Explains(order: seq<Op>, ops: multiset<Op>) {
    multiset(order) == ops && RespectsRealTime(order) && forall key :: LegalFrom(Project(order, key), Unknown)
  }

  lemma ExplainsIsLinearization(order: seq<Op>, ops: multiset<Op>)
    ensures Explains(order, ops) <==> IsHistoryLinearization(order, ops)
  {
    assert forall key :: Get(map[], key) == Unknown;
    if Explains(order, ops) {
      LegalPerKeyIsStoreRun(order, map[]);
    }
    if IsHistoryLinearization(order, ops) {
      StoreRunIsLegalPerKey(order, map[]);
      forall key ensures LegalFrom(Project(order, key), Unknown) {
        assert LegalFrom(Project(order, key), Get(map[], key));
      }
    }
  }

  lemma SomeExplanation(ops: multiset<Op>) returns (order: seq<Op>)
    requires HistoryLinearizable(ops)
    ensures Explains(order, ops)
  {
    order :| IsHistoryLinearization(order, ops);
    ExplainsIsLinearization(order, ops);
  }

  lemma ByExplanation(order: seq<Op>, ops: multiset<Op>)
    requires Explains(order, ops)
    ensures HistoryLinearizable(ops)
  {
    ExplainsIsLinearization(order, ops);
  }

  // --- Orders with one operation picked out ------------------------------------------

  lemma ProjectNone(key: string)
    ensures Project([], key) == []
  {
  }

  lemma ProjectCons(op: Op, rest: seq<Op>, key: string)
    ensures Project([op] + rest, key) == (if op.key == key then [op] else []) + Project(rest, key)
  {
    assert ([op] + rest)[1..] == rest;
  }

  lemma {:induction false} ProjectSplit(before: seq<Op>, after: seq<Op>, key: string)
    ensures Project(before + after, key) == Project(before, key) + Project(after, key)
  {
    hide Project;
    if before == [] {
      assert before + after == after;
      ProjectNone(key);
    } else {
      var op, rest := before[0], before[1..];
      assert before == [op] + rest && before + after == [op] + (rest + after);
      ProjectCons(op, rest, key);
      ProjectCons(op, rest + after, key);
      ProjectSplit(rest, after, key);
    }
  }

  lemma ProjectAround(before: seq<Op>, op: Op, after: seq<Op>, key: string)
    ensures Project(before + [op] + after, key) ==
            Project(before, key) + (if op.key == key then [op] else []) + Project(after, key)
    ensures Project(before + after, key) == Project(before, key) + Project(after, key)
  {
    ProjectSplit(before + [op], after, key);
    ProjectSplit(before, [op], key);
    ProjectSplit(before, after, key);
  }

  lemma PickOut(order: seq<Op>, op: Op) returns (before: seq<Op>, after: seq<Op>)
    requires op in multiset(order)
    ensures order == before + [op] + after
    ensures multiset(before + after) == multiset(order) - multiset{op}
  {
    var i :| 0 <= i < |order| && order[i] == op;
    before, after := order[..i], order[i + 1..];
    assert order == before + [op] + after;
  }

  /** Real time asks of `x` between `before` and `after`. */
  ghost predicate FitsBetween(before: seq<Op>, x: Op, after: seq<Op>) {
    && (forall a :: a in before ==> !MustPrecede(x, a))
    && (forall b :: b in after ==> !MustPrecede(b, x))
  }

  lemma RealTimeAround(before: seq<Op>, x: Op, after: seq<Op>)
    ensures RespectsRealTime(before + [x] + after) <==>
            RespectsRealTime(before + after) && FitsBetween(before, x, after)
  {
    if RespectsRealTime(before + [x] + after) {
      RealTimeWithout(before, x, after);
    }
    if RespectsRealTime(before + after) && FitsBetween(before, x, after) {
      RealTimeWith(before, x, after);
    }
  }

  lemma RealTimeWithout(before: seq<Op>, x: Op, after: seq<Op>)
    requires RespectsRealTime(before + [x] + after)
    ensures RespectsRealTime(before + after) && FitsBetween(before, x, after)
  {
    var whole, rest, n := before + [x] + after, before + after, |before|;
    forall i, j | 0 <= i < j < |rest| ensures !MustPrecede(rest[j], rest[i]) {
      var i', j' := if i < n then i else i + 1, if j < n then j else j + 1;
      assert whole[i'] == rest[i] && whole[j'] == rest[j];
    }
    forall a | a in before ensures !MustPrecede(x, a) {
      var i :| 0 <= i < n && before[i] == a;
      assert whole[i] == a && whole[n] == x;
    }
    forall b | b in after ensures !MustPrecede(b, x) {
      var i :| 0 <= i < |after| && after[i] == b;
      assert whole[n + 1 + i] == b && whole[n] == x;
    }
  }

  lemma RealTimeWith(before: seq<Op>, x: Op, after: seq<Op>)
    requires RespectsRealTime(before + after) && FitsBetween(before, x, after)
    ensures RespectsRealTime(before + [x] + after)
  {
    var whole, rest, n := before + [x] + after, before + after, |before|;
    forall i, j | 0 <= i < j < |whole| ensures !MustPrecede(whole[j], whole[i]) {
      if i == n {
        assert whole[j] == after[j - n - 1];
      } else if j == n {
        assert whole[i] == before[i];
      } else {
        var i', j' := if i < n then i else i - 1, if j < n then j else j - 1;
        assert rest[i'] == whole[i] && rest[j'] == whole[j];
      }
    }
  }

  /** An operation on another register is not noticed. */
  lemma Around(before: seq<Op>, op: Op, after: seq<Op>, key: string)
    requires op.key != key
    ensures Project(before + [op] + after, key) == Project(before + after, key)
  {
    hide Project;
    ProjectAround(before, op, after, key);
    assert Project(before, key) + [] + Project(after, key) == Project(before, key) + Project(after, key);
  }

  lemma LegalAround(before: seq<Op>, x: Op, after: seq<Op>)
    requires forall key :: LegalFrom(Project(before + [x] + after, key), Unknown)
    ensures LegalFrom(Project(before, x.key) + [x] + Project(after, x.key), Unknown)
  {
    hide Project, LegalFrom;
    ProjectAround(before, x, after, x.key);
    assert LegalFrom(Project(before + [x] + after, x.key), Unknown);
  }

  lemma RealTimeOf(before: seq<Op>, x: Op, after: seq<Op>, ops: multiset<Op>)
    requires Explains(before + [x] + after, ops + multiset{x})
    ensures RespectsRealTime(before + after) && FitsBetween(before, x, after) && multiset(before + after) == ops
  {
    hide Project, LegalFrom;
    RealTimeAround(before, x, after);
    Swapped(before, x, x, after, ops);
  }

  lemma Swapped(before: seq<Op>, x: Op, y: Op, after: seq<Op>, ops: multiset<Op>)
    requires multiset(before + [x] + after) == ops + multiset{x}
    ensures multiset(before + after) == ops && multiset(before + [y] + after) == ops + multiset{y}
  {
    Spread(before, x, after);
    Spread(before, y, after);
    SameWithout(multiset(before + after), ops, x);
  }

  lemma SameWithout(a: multiset<Op>, b: multiset<Op>, x: Op)
    requires a + multiset{x} == b + multiset{x}
    ensures a == b
  {
    assert a == a + multiset{x} - multiset{x};
    assert b == b + multiset{x} - multiset{x};
  }

  lemma Spread(before: seq<Op>, x: Op, after: seq<Op>)
    ensures multiset(before + [x] + after) == multiset(before + after) + multiset{x}
  {
  }

  /** Without `x` the order still explains the rest, if it does so for the register of `x`. */
  lemma LeftOutExplains(before: seq<Op>, x: Op, after: seq<Op>, ops: multiset<Op>)
    requires Explains(before + [x] + after, ops + multiset{x})
    requires LegalFrom(Project(before, x.key) + Project(after, x.key), Unknown)
    ensures Explains(before + after, ops)
  {
    hide Project, LegalFrom;
    RealTimeOf(before, x, after, ops);
    forall key ensures LegalFrom(Project(before + after, key), Unknown) {
      if key == x.key {
        ProjectSplit(before, after, key);
      } else {
        Around(before, x, after, key);
        assert LegalFrom(Project(before + [x] + after, key), Unknown);
      }
    }
  }

  /** With `y` for `x` the order explains what it did, if it does so for their register. */
  lemma PutExplains(before: seq<Op>, x: Op, y: Op, after: seq<Op>, ops: multiset<Op>)
    requires Explains(before + [x] + after, ops + multiset{x})
    requires y.key == x.key && FitsBetween(before, y, after)
    requires LegalFrom(Project(before, y.key) + [y] + Project(after, y.key), Unknown)
    ensures Explains(before + [y] + after, ops + multiset{y})
  {
    hide Project, LegalFrom;
    RealTimeOf(before, x, after, ops);
    RealTimeAround(before, y, after);
    Spread(before, y, after);
    forall key ensures LegalFrom(Project(before + [y] + after, key), Unknown) {
      if key == y.key {
        ProjectAround(before, y, after, key);
      } else {
        Around(before, x, after, key);
        Around(before, y, after, key);
        assert LegalFrom(Project(before + [x] + after, key), Unknown);
      }
    }
  }

  // --- Taking a read out ---------------------------------------------------------------

  lemma {:induction false} LegalWithoutRead(before: seq<Op>, x: Op, after: seq<Op>, state: Value)
    requires x.kind == Read && LegalFrom(before + [x] + after, state)
    ensures LegalFrom(before + after, state)
  {
    if before == [] {
      assert before + [x] + after == [x] + after && before + after == after && ([x] + after)[1..] == after;
      if state == Unknown {
        ForgetStart(after, x.value);
      }
    } else {
      var rest := before[1..];
      assert (before + [x] + after)[1..] == rest + [x] + after && (before + after)[1..] == rest + after;
      if LegalFrom(rest + [x] + after, Known(before[0].value)) {
        LegalWithoutRead(rest, x, after, Known(before[0].value));
      }
      if LegalFrom(rest + [x] + after, state) {
        LegalWithoutRead(rest, x, after, state);
      }
    }
  }

  /** A read can be left out of a history. */
  lemma DropRead(ops: multiset<Op>, x: Op)
    requires x.kind == Read && HistoryLinearizable(ops + multiset{x})
    ensures HistoryLinearizable(ops)
  {
    var order := SomeExplanation(ops + multiset{x});
    var before, after := PickOut(order, x);
    LegalAround(before, x, after);
    LegalWithoutRead(Project(before, x.key), x, Project(after, x.key), Unknown);
    LeftOutExplains(before, x, after, ops);
    ByExplanation(before + after, ops);
  }

  // --- Putting a read in ---------------------------------------------------------------

  lemma {:induction false} LegalWithRead(before: seq<Op>, x: Op, after: seq<Op>, state: Value) returns (v: string)
    requires x.kind == Read && LegalFrom(before + after, state)
    ensures LegalFrom(before + [x.(value := v)] + after, state)
  {
    if before == [] {
      assert before + after == after;
      v := if state.Known? then state.canon else SomeStartOf(after);
      var y := x.(value := v);
      assert before + [y] + after == [y] + after && ([y] + after)[1..] == after;
    } else {
      hide LegalFrom, Step;
      var op, rest := before[0], before[1..];
      assert before == [op] + rest && before + after == [op] + (rest + after);
      var next := NextState(op, rest + after, state);
      v := LegalWithRead(rest, x, after, next);
      var y := x.(value := v);
      assert before + [y] + after == [op] + (rest + [y] + after);
      LegalPrepend(op, rest + [y] + after, state, next);
    }
  }

  lemma NextState(op: Op, rest: seq<Op>, state: Value) returns (next: Value)
    requires LegalFrom([op] + rest, state)
    ensures Step(state, op, next) && LegalFrom(rest, next)
  {
    assert ([op] + rest)[1..] == rest;
    LegalHead([op] + rest, state);
    next :| Step(state, op, next) && LegalFrom(rest, next);
  }

  lemma LegalPrepend(op: Op, rest: seq<Op>, state: Value, next: Value)
    requires Step(state, op, next) && LegalFrom(rest, next)
    ensures LegalFrom([op] + rest, state)
  {
    assert ([op] + rest)[1..] == rest;
    LegalHead([op] + rest, state);
  }

  ghost function SomeStartOf(order: seq<Op>): (init: string)
    requires LegalFrom(order, Unknown)
    ensures LegalFrom(order, Known(init))
  {
    SomeStartExists(order);
    var init :| LegalFrom(order, Known(init));
    init
  }

  lemma SomeStartExists(order: seq<Op>)
    requires LegalFrom(order, Unknown)
    ensures exists init :: LegalFrom(order, Known(init))
  {
    var init := SomeStart(order);
  }

  /** Just before the first operation that must follow `x` there is room for it. */
  lemma RoomFor(order: seq<Op>, x: Op) returns (n: nat)
    requires RespectsRealTime(order) && x.WellFormed() && forall o :: o in order ==> o.WellFormed()
    ensures n <= |order| && FitsBetween(order[..n], x, order[n..])
  {
    n := 0;
    while n < |order| && !MustPrecede(x, order[n])
      invariant n <= |order|
      invariant forall a :: a in order[..n] ==> !MustPrecede(x, a)
    {
      assert order[..n + 1] == order[..n] + [order[n]];
      n := n + 1;
    }
    forall b | b in order[n..] ensures !MustPrecede(b, x) {
      var i :| 0 <= i < |order[n..]| && order[n..][i] == b;
      assert b == order[n + i] && order[n + i] in order && order[n] in order;
      if i > 0 { assert !MustPrecede(order[n + i], order[n]); }
    }
  }

  lemma SamePlace(before: seq<Op>, x: Op, after: seq<Op>, v: string)
    requires FitsBetween(before, x, after)
    ensures FitsBetween(before, x.(value := v), after)
  {
    forall a | a in before ensures !MustPrecede(x.(value := v), a) {
      assert !MustPrecede(x, a);
    }
    forall b | b in after ensures !MustPrecede(b, x.(value := v)) {
      assert !MustPrecede(b, x);
    }
  }

  /** A new operation on one register disturbs no other. */
  lemma OthersUndisturbed(before: seq<Op>, y: Op, after: seq<Op>)
    requires forall key :: LegalFrom(Project(before + after, key), Unknown)
    requires LegalFrom(Project(before, y.key) + [y] + Project(after, y.key), Unknown)
    ensures forall key :: LegalFrom(Project(before + [y] + after, key), Unknown)
  {
    forall key ensures LegalFrom(Project(before + [y] + after, key), Unknown) {
      ProjectAround(before, y, after, key);
      if key != y.key {
        Around(before, y, after, key);
        assert LegalFrom(Project(before + after, key), Unknown);
      }
    }
  }

  /** A read whose value is not known can always be fitted in. */
  lemma AddRead(ops: multiset<Op>, x: Op) returns (v: string)
    requires x.kind == Read && x.WellFormed() && HistoryLinearizable(ops)
    requires forall o :: o in ops ==> o.WellFormed()
    ensures HistoryLinearizable(ops + multiset{x.(value := v)})
  {
    var order := SomeExplanation(ops);
    forall o | o in order ensures o.WellFormed() {
      assert o in multiset(order);
    }
    var n := RoomFor(order, x);
    var before, after := order[..n], order[n..];
    assert order == before + after;
    ProjectSplit(before, after, x.key);
    assert LegalFrom(Project(order, x.key), Unknown);
    v := LegalWithRead(Project(before, x.key), x, Project(after, x.key), Unknown);
    var y := x.(value := v);
    SamePlace(before, x, after, v);
    RealTimeAround(before, y, after);
    OthersUndisturbed(before, y, after);
    ByExplanation(before + [y] + after, ops + multiset{y});
  }

  // --- Writes that may or may not have happened ---------------------------------------

  lemma {:induction false} LegalSkipAtEnd(order: seq<Op>, w: Op, state: Value)
    requires w.kind == Write && w.maybe && LegalFrom(order, state)
    ensures LegalFrom(order + [w] + [], state)
  {
    var whole := order + [w] + [];
    if order == [] {
      assert whole == [w] && whole[1..] == [];
    } else {
      LegalHead(order, state);
      var next :| Step(state, order[0], next) && LegalFrom(order[1..], next);
      LegalSkipAtEnd(order[1..], w, next);
      assert whole[1..] == order[1..] + [w] + [];
      LegalHead(whole, state);
    }
  }

  /** A write that may never apply adds nothing that needs explaining. */
  lemma AddMaybe(ops: multiset<Op>, w: Op)
    requires w.kind == Write && w.maybe && w.openAtEnd && HistoryLinearizable(ops)
    ensures HistoryLinearizable(ops + multiset{w})
  {
    var order := SomeExplanation(ops);
    assert order + [] == order;
    RealTimeAround(order, w, []);
    assert LegalFrom(Project(order, w.key), Unknown);
    LegalSkipAtEnd(Project(order, w.key), w, Unknown);
    OthersUndisturbed(order, w, []);
    ByExplanation(order + [w] + [], ops + multiset{w});
  }

  lemma {:induction false} LegalDecides(before: seq<Op>, w: Op, after: seq<Op>, state: Value)
    requires w.kind == Write && w.maybe && LegalFrom(before + [w] + after, state)
    ensures LegalFrom(before + [w.(maybe := false)] + after, state) || LegalFrom(before + after, state)
  {
    var whole, sure, none := before + [w] + after, before + [w.(maybe := false)] + after, before + after;
    if before == [] {
      assert whole[1..] == after && sure[1..] == after && none == after;
    } else {
      var rest := before[1..];
      LegalHead(whole, state);
      assert whole[1..] == rest + [w] + after && none[1..] == rest + after;
      assert sure[1..] == rest + [w.(maybe := false)] + after;
      var next :| Step(state, before[0], next) && LegalFrom(rest + [w] + after, next);
      LegalDecides(rest, w, after, next);
      LegalHead(sure, state);
      LegalHead(none, state);
    }
  }

  lemma SameNow(w: Op, sure: Op, ops: multiset<Op>)
    requires sure == w.(maybe := false)
    ensures AsksNoMore(sure, w, ops)
  {
  }

  /** An explanation of a write that may have applied decides whether it did. */
  lemma DecideMaybe(ops: multiset<Op>, w: Op)
    requires w.kind == Write && w.maybe && HistoryLinearizable(ops + multiset{w})
    ensures HistoryLinearizable(ops) || HistoryLinearizable(ops + multiset{w.(maybe := false)})
  {
    var order := SomeExplanation(ops + multiset{w});
    var before, after := PickOut(order, w);
    var sure := w.(maybe := false);
    hide LegalFrom, Project, RespectsRealTime, MustPrecede;
    LegalAround(before, w, after);
    hide Explains;
    LegalDecides(Project(before, w.key), w, Project(after, w.key), Unknown);
    if LegalFrom(Project(before, w.key) + Project(after, w.key), Unknown) {
      LeftOutExplains(before, w, after, ops);
      ByExplanation(before + after, ops);
    } else {
      RealTimeOf(before, w, after, ops);
      SameNow(w, sure, ops);
      SameTimes(before, w, sure, after);
      PutExplains(before, w, sure, after, ops);
      ByExplanation(before + [sure] + after, ops + multiset{sure});
    }
  }

  // --- Replacing an operation -----------------------------------------------------------

  /** Whatever `x` does to its register, `y` may do too. */
  ghost predicate DoesAsMuch(y: Op, x: Op) {
    && y.kind == x.kind && y.key == x.key && y.value == x.value
    && (x.kind == Write && x.maybe ==> y.maybe)
  }

  /** Real time asks no more of `y` among `ops` than of `x`. */
  ghost predicate AsksNoMore(y: Op, x: Op, ops: multiset<Op>) {
    && (forall o :: o in ops && MustPrecede(o, y) ==> MustPrecede(o, x))
    && (forall o :: o in ops && MustPrecede(y, o) ==> MustPrecede(x, o))
  }

  lemma SameTimes(before: seq<Op>, x: Op, y: Op, after: seq<Op>)
    requires AsksNoMore(y, x, multiset(before + after)) && FitsBetween(before, x, after)
    ensures FitsBetween(before, y, after)
  {
    forall a | a in before ensures !MustPrecede(y, a) {
      assert a in before + after && a in multiset(before + after) && !MustPrecede(x, a);
    }
    forall b | b in after ensures !MustPrecede(b, y) {
      assert b in before + after && b in multiset(before + after) && !MustPrecede(b, x);
    }
  }

  lemma {:induction false} LegalReplaced(before: seq<Op>, x: Op, y: Op, after: seq<Op>, state: Value)
    requires DoesAsMuch(y, x) && LegalFrom(before + [x] + after, state)
    ensures LegalFrom(before + [y] + after, state)
  {
    var old', new' := before + [x] + after, before + [y] + after;
    LegalHead(old', state);
    var next :| Step(state, old'[0], next) && LegalFrom(old'[1..], next);
    if before == [] {
      assert old'[1..] == after && new'[1..] == after;
    } else {
      var rest := before[1..];
      assert old'[1..] == rest + [x] + after && new'[1..] == rest + [y] + after;
      LegalReplaced(rest, x, y, after, next);
    }
    LegalHead(new', state);
  }

  /** In the place of `x`, `y` does what `x` did. */
  lemma ReplacedExplains(before: seq<Op>, x: Op, y: Op, after: seq<Op>, ops: multiset<Op>)
    requires DoesAsMuch(y, x) && Explains(before + [x] + after, ops + multiset{x})
    requires FitsBetween(before, y, after)
    ensures Explains(before + [y] + after, ops + multiset{y})
  {
    LegalAround(before, x, after);
    LegalReplaced(Project(before, x.key), x, y, Project(after, x.key), Unknown);
    PutExplains(before, x, y, after, ops);
  }

  /** An operation can give way to one that does as much and of which no more is asked. */
  lemma Replace(ops: multiset<Op>, x: Op, y: Op)
    requires DoesAsMuch(y, x) && AsksNoMore(y, x, ops) && HistoryLinearizable(ops + multiset{x})
    ensures HistoryLinearizable(ops + multiset{y})
  {
    var order := SomeExplanation(ops + multiset{x});
    var before, after := PickOut(order, x);
    RealTimeOf(before, x, after, ops);
    SameTimes(before, x, y, after);
    ReplacedExplains(before, x, y, after, ops);
    ByExplanation(before + [y] + after, ops + multiset{y});
  }

  /** `y` is `x` with its interval widened and possibly made indeterminate. */
  ghost predicate Loosens(y: Op, x: Op) {
    && DoesAsMuch(y, x)
    && (y.openAtStart || (!x.openAtStart && y.invokeNS <= x.invokeNS))
    && (y.openAtEnd || (!x.openAtEnd && x.returnNS <= y.returnNS))
  }

  /** Loosening an operation loses no explanation. */
  lemma Loosen(ops: multiset<Op>, x: Op, y: Op)
    requires Loosens(y, x) && HistoryLinearizable(ops + multiset{x})
    ensures HistoryLinearizable(ops + multiset{y})
  {
    Replace(ops, x, y);
  }
}
