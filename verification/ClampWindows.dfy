/** Recorded times at which the rules accept what has no explanation. */
module ClampWindows {
  import opened Wrappers
  import opened Register
  import opened Locality
  import opened HistoryEdits
  import opened RawHistory
  import opened Operations
  import opened Clamping

  lemma {:induction false} InHappenings(effects: seq<Effect>, i: nat)
    requires i < |effects| && effects[i].Happened?
    ensures effects[i].op in Happenings(effects)
  {
    HappeningsAt(effects, i);
  }

  lemma NotBothWays(before: seq<Op>, x: Op, after: seq<Op>, y: Op)
    requires FitsBetween(before, x, after) && y in multiset(before + after)
    ensures !(MustPrecede(x, y) && MustPrecede(y, x))
  {
    assert y in before + after;
  }

  /** Two completed operations, each recorded as ending before the other began, leave no
      explanation, whatever they did. */
  lemma NeitherOrder(raws: seq<RawOp>, i: nat, j: nat)
    requires forall m :: 0 <= m < |raws| ==> SingleKeyed(raws[m])
    requires i < |raws| && j < |raws| && i != j && Determinate(raws[i]) && Determinate(raws[j])
    requires raws[i].invoke.Some? && raws[j].invoke.Some?
    requires raws[i].complete.value.tns < raws[j].invoke.value.tns
    requires raws[j].complete.value.tns < raws[i].invoke.value.tns
    ensures !RawLinearizable(raws)
  {
    hide SingleKeyed, HistoryLinearizable, Happenings;
    forall effects: seq<Effect> | Consistent(raws, effects) ensures !HistoryLinearizable(Happenings(effects)) {
      assert Possible(raws[i], effects[i]) && Possible(raws[j], effects[j]);
      var x, y := effects[i].op, effects[j].op;
      HappeningsAt(effects, i);
      InHappenings(effects[i := Nothing], j);
      if HistoryLinearizable(Happenings(effects)) {
        var order := SomeExplanation(Happenings(effects));
        var before, after := PickOut(order, x);
        RealTimeOf(before, x, after, Besides(effects, i));
        NotBothWays(before, x, after, y);
      }
    }
  }

  // --- Other names, keys and values at the same times ----------------------------------

  predicate SameTime(a: Option<Record>, b: Option<Record>) {
    a.Some? == b.Some? && (a.Some? ==> a.value.typ == b.value.typ && a.value.tns == b.value.tns)
  }

  /** The two histories record the same kinds of completion at the same times. */
  predicate SameTimes(raws: seq<RawOp>, raws': seq<RawOp>) {
    && |raws| == |raws'|
    && forall i :: 0 <= i < |raws| ==>
         SameTime(raws[i].invoke, raws'[i].invoke) && SameTime(raws[i].complete, raws'[i].complete)
  }

  /** What an operation does: it reads or writes `value` on register `key`. */
  datatype Deed = Deed(isRead: bool, key: string, value: string) {
    function Kind(): Kind { if isRead then Read else Write }
  }

  function Redone(r: Option<Record>, d: Deed): Option<Record> {
    if r.None? then None
    else
      var name := if d.isRead then "read" else "write";
      Some(r.value.(name := name, key := Some(d.key), listed := [], value := Text(d.value)))
  }

  function Redo(ro: RawOp, d: Deed): RawOp {
    RawOp(ro.id, Redone(ro.invoke, d), Redone(ro.complete, d))
  }

  lemma RedoIs(ro: RawOp, d: Deed)
    requires ro.invoke.Some? || ro.complete.Some?
    ensures var r := Redo(ro, d);
      && SingleKeyed(r) && KeyOf(r) == d.key && (IsRead(r) <==> d.isRead) && Written(r) == Text(d.value)
      && BuildOf(r) == (if Failed(r) then DropFailed else if d.isRead && !Determinate(r) then DropInfoRead
                        else Keep(Interval(r, d.Kind(), d.key, d.value)))
  {
    var r := Redo(ro, d);
    assert "read" != "write" by { assert |"read"| == 4 && |"write"| == 5; }
    assert Names(r) == {if d.isRead then "read" else "write"};
    assert (if d.isRead then "read" else "write") in Names(r);
    assert AllKeys(r) == {d.key};
    assert KeyOf(r) in AllKeys(r);
  }

  // --- One operation of a history exchanged --------------------------------------------

  lemma {:induction false} KeptWith(raws: seq<RawOp>, i: nat, ro: RawOp)
    requires i < |raws| && SingleKeyed(ro) && forall m :: 0 <= m < |raws| ==> SingleKeyed(raws[m])
    ensures Kept(raws[i := ro]) + KeptOp(raws[i]) == Kept(raws) + KeptOp(ro)
  {
    hide SingleKeyed, KeptOp;
    var tail, raws' := raws[1..], raws[i := ro];
    if i == 0 {
      assert raws'[1..] == tail;
    } else {
      assert raws'[1..] == tail[i - 1 := ro];
      KeptWith(tail, i - 1, ro);
      var head, k, k' := KeptOp(raws[0]), Kept(tail), Kept(tail[i - 1 := ro]);
      assert head + k' + KeptOp(raws[i]) == head + (k' + KeptOp(raws[i])) == head + (k + KeptOp(ro));
    }
  }

  lemma {:induction false} KeptFrom(raws: seq<RawOp>, op: Op) returns (i: nat)
    requires forall m :: 0 <= m < |raws| ==> SingleKeyed(raws[m])
    requires op in Kept(raws)
    ensures i < |raws| && BuildOf(raws[i]) == Keep(op)
  {
    hide SingleKeyed, BuildOf;
    if op in KeptOp(raws[0]) {
      i := 0;
    } else {
      i := KeptFrom(raws[1..], op);
      i := i + 1;
    }
  }

  /** Every operation a write on a register of no interest. */
  function Idle(raws: seq<RawOp>): seq<RawOp> {
    seq(|raws|, i requires 0 <= i < |raws| => Redo(raws[i], Deed(false, "o", "v")))
  }

  ghost predicate HasRecords(raws: seq<RawOp>) {
    forall i :: 0 <= i < |raws| ==> raws[i].invoke.Some? || raws[i].complete.Some?
  }

  /** The operations at some indices do `deeds`; the others are idle. */
  function Doing(raws: seq<RawOp>, at: seq<nat>, deeds: seq<Deed>): seq<RawOp>
    requires |at| == |deeds| && forall a :: 0 <= a < |at| ==> at[a] < |raws|
    ensures |Doing(raws, at, deeds)| == |raws|
  {
    if at == [] then Idle(raws)
    else
      var n := |at| - 1;
      Doing(raws, at[..n], deeds[..n])[at[n] := Redo(raws[at[n]], deeds[n])]
  }

  ghost predicate Indices(raws: seq<RawOp>, at: seq<nat>) {
    && (forall a :: 0 <= a < |at| ==> at[a] < |raws|)
    && forall a, b :: 0 <= a < b < |at| ==> at[a] != at[b]
  }

  lemma {:induction false} DoingAt(raws: seq<RawOp>, at: seq<nat>, deeds: seq<Deed>, m: nat)
    requires |at| == |deeds| && Indices(raws, at) && m < |raws|
    ensures (m !in at && Doing(raws, at, deeds)[m] == Redo(raws[m], Deed(false, "o", "v")))
         || (exists a :: 0 <= a < |at| && at[a] == m && Doing(raws, at, deeds)[m] == Redo(raws[m], deeds[a]))
  {
    if at != [] {
      hide Redo;
      var n := |at| - 1;
      DoingAt(raws, at[..n], deeds[..n], m);
      hide Doing;
      DoingMore(raws, at, deeds);
      if at[n] == m {
        assert Doing(raws, at, deeds)[m] == Redo(raws[m], deeds[n]);
      } else if m in at[..n] {
        var a :| 0 <= a < n && at[..n][a] == m && Doing(raws, at[..n], deeds[..n])[m] == Redo(raws[m], deeds[..n][a]);
        assert at[a] == m && deeds[a] == deeds[..n][a];
      }
    }
  }

  lemma DoingMore(raws: seq<RawOp>, at: seq<nat>, deeds: seq<Deed>)
    requires |at| == |deeds| && Indices(raws, at) && at != []
    ensures var n := |at| - 1;
      Doing(raws, at, deeds) == Doing(raws, at[..n], deeds[..n])[at[n] := Redo(raws[at[n]], deeds[n])]
  {
  }

  function Done(ro: RawOp, d: Deed): Op {
    Interval(Redo(ro, d), d.Kind(), d.key, d.value)
  }

  /** What the operation of a deed carries, and when it runs. */
  lemma DoneIs(ro: RawOp, d: Deed)
    ensures var op := Done(ro, d);
      && op.kind == d.Kind() && op.key == d.key && op.value == d.value
      && op.openAtStart == ro.invoke.None? && op.openAtEnd == !Determinate(ro)
      && (ro.invoke.Some? ==> op.invokeNS == ro.invoke.value.tns)
      && (Clamped(ro) ==> op.returnNS == ro.invoke.value.tns)
  {
  }

  lemma DeedKept(ro: RawOp, d: Deed)
    requires ro.invoke.Some? || ro.complete.Some?
    requires !Failed(ro) && (d.isRead ==> Determinate(ro))
    ensures SingleKeyed(Redo(ro, d)) && KeptOp(Redo(ro, d)) == multiset{Done(ro, d)} && Done(ro, d).key == d.key
  {
    RedoIs(ro, d);
  }

  lemma IdleDeed(ro: RawOp)
    requires ro.invoke.Some? || ro.complete.Some?
    ensures SingleKeyed(Redo(ro, Deed(false, "o", "v")))
    ensures forall op :: op in KeptOp(Redo(ro, Deed(false, "o", "v"))) ==> op.key == "o" && op.kind == Write
  {
    RedoIs(ro, Deed(false, "o", "v"));
  }

  function DoneOps(raws: seq<RawOp>, at: seq<nat>, deeds: seq<Deed>): seq<Op>
    requires |at| == |deeds| && forall a :: 0 <= a < |at| ==> at[a] < |raws|
  {
    if at == [] then []
    else
      var n := |at| - 1;
      DoneOps(raws, at[..n], deeds[..n]) + [Done(raws[at[n]], deeds[n])]
  }

  /** Deeds on the register `k` of operations whose outcome is kept. */
  ghost predicate KeptDeeds(raws: seq<RawOp>, at: seq<nat>, deeds: seq<Deed>) {
    && |at| == |deeds| && Indices(raws, at)
    && forall a :: 0 <= a < |at| ==>
         && deeds[a].key == "k" && !Failed(raws[at[a]]) && (deeds[a].isRead ==> Determinate(raws[at[a]]))
  }

  lemma DoingKeyed(raws: seq<RawOp>, at: seq<nat>, deeds: seq<Deed>)
    requires HasRecords(raws) && |at| == |deeds| && Indices(raws, at)
    ensures forall m :: 0 <= m < |raws| ==> SingleKeyed(Doing(raws, at, deeds)[m])
    ensures Buildable(Doing(raws, at, deeds)) && SameTimes(raws, Doing(raws, at, deeds))
  {
    hide SingleKeyed, BuildOf, Doing, SameTime;
    forall m | 0 <= m < |raws|
      ensures SingleKeyed(Doing(raws, at, deeds)[m]) && !BuildOf(Doing(raws, at, deeds)[m]).Refuse?
      ensures SameTime(raws[m].invoke, Doing(raws, at, deeds)[m].invoke)
      ensures SameTime(raws[m].complete, Doing(raws, at, deeds)[m].complete)
    {
      DoingDeed(raws, at, deeds, m);
    }
  }

  /** Every index has some deed, which is of its times and is not refused. */
  lemma DoingDeed(raws: seq<RawOp>, at: seq<nat>, deeds: seq<Deed>, m: nat)
    requires HasRecords(raws) && |at| == |deeds| && Indices(raws, at) && m < |raws|
    ensures SingleKeyed(Doing(raws, at, deeds)[m]) && !BuildOf(Doing(raws, at, deeds)[m]).Refuse?
    ensures SameTime(raws[m].invoke, Doing(raws, at, deeds)[m].invoke)
    ensures SameTime(raws[m].complete, Doing(raws, at, deeds)[m].complete)
  {
    hide SingleKeyed, BuildOf, Doing, Redo, SameTime;
    DoingAt(raws, at, deeds, m);
    RedoKept(raws[m], Deed(false, "o", "v"));
    if m in at {
      var a :| 0 <= a < |at| && at[a] == m && Doing(raws, at, deeds)[m] == Redo(raws[m], deeds[a]);
      RedoKept(raws[m], deeds[a]);
    }
  }

  lemma RedoKept(ro: RawOp, d: Deed)
    requires ro.invoke.Some? || ro.complete.Some?
    ensures SingleKeyed(Redo(ro, d)) && !BuildOf(Redo(ro, d)).Refuse?
    ensures SameTime(ro.invoke, Redo(ro, d).invoke) && SameTime(ro.complete, Redo(ro, d).complete)
  {
    RedoIs(ro, d);
  }

  /** What the rules keep of an idle history are writes elsewhere. */
  lemma IdleKept(raws: seq<RawOp>, op: Op)
    requires HasRecords(raws) && (forall m :: 0 <= m < |raws| ==> SingleKeyed(Idle(raws)[m]))
    requires op in Kept(Idle(raws))
    ensures op.key == "o" && op.kind == Write
  {
    var i := KeptFrom(Idle(raws), op);
    RedoIs(raws[i], Deed(false, "o", "v"));
  }

  /** On register `k`, the rules keep the deeds and nothing else; elsewhere, only writes. */
  lemma {:induction false} KeptDoing(raws: seq<RawOp>, at: seq<nat>, deeds: seq<Deed>, op: Op)
    requires HasRecords(raws) && KeptDeeds(raws, at, deeds)
    requires forall m :: 0 <= m < |raws| ==> SingleKeyed(Doing(raws, at, deeds)[m])
    ensures op.key == "k" ==> Kept(Doing(raws, at, deeds))[op] == multiset(DoneOps(raws, at, deeds))[op]
    ensures op.key != "k" && op in Kept(Doing(raws, at, deeds)) ==> op.key == "o" && op.kind == Write
  {
    hide SingleKeyed, KeptOp, Kept, Redo, Done;
    if at == [] {
      hide Buildable;
      DoingKeyed(raws, at, deeds);
      assert Doing(raws, at, deeds) == Idle(raws);
      NotSame();
      if op in Kept(Idle(raws)) {
        IdleKept(raws, op);
      }
    } else {
      var n := |at| - 1;
      var at', deeds', m := at[..n], deeds[..n], at[n];
      var before, ro := Doing(raws, at', deeds'), Redo(raws[m], deeds[n]);
      StillIdle(raws, at, deeds);
      KeptDoing(raws, at', deeds', op);
      DeedKept(raws[m], deeds[n]);
      IdleDeed(raws[m]);
      KeptWith(before, m, ro);
      CountAfter(Kept(before), Kept(before[m := ro]), KeptOp(before[m]), KeptOp(ro), op);
      NotSame();
    }
  }

  lemma NotSame()
    ensures "k" != "o"
  {
  }

  /** Before its deed, an operation is idle. */
  lemma StillIdle(raws: seq<RawOp>, at: seq<nat>, deeds: seq<Deed>)
    requires HasRecords(raws) && at != [] && |at| == |deeds| && Indices(raws, at)
    ensures var n := |at| - 1; var before := Doing(raws, at[..n], deeds[..n]);
      && before[at[n]] == Redo(raws[at[n]], Deed(false, "o", "v"))
      && (forall m :: 0 <= m < |raws| ==> SingleKeyed(before[m]))
  {
    hide SingleKeyed, Redo, Buildable;
    var n := |at| - 1;
    DoingAt(raws, at[..n], deeds[..n], at[n]);
    DoingKeyed(raws, at[..n], deeds[..n]);
  }

  lemma CountAfter(k: multiset<Op>, k': multiset<Op>, out: multiset<Op>, into: multiset<Op>, op: Op)
    requires k' + out == k + into
    ensures k'[op] + out[op] == k[op] + into[op]
  {
    assert (k' + out)[op] == (k + into)[op];
  }

  // --- Acceptance ----------------------------------------------------------------------

  /** Writes alone can always be placed. */
  lemma {:induction false} WritesLinearizable(ops: multiset<Op>, state: Value)
    requires forall op :: op in ops ==> op.kind == Write && op.WellFormed()
    ensures CanFinish(ops, state)
    decreases |ops|
  {
    hide CanFinish;
    CanFinishStep(ops, state);
    if ops != multiset{} {
      var m := FirstToClose(ops);
      WritesLinearizable(ops - multiset{m}, Known(m.value));
      assert MayComeFirst(m, ops) by {
        forall o | o in ops - multiset{m} ensures !MustPrecede(o, m) {
          assert o in ops && ClosesFirst(m, o);
        }
      }
      StepWrite(m, state);
      assert GoodNext(ops, state, m, Known(m.value));
    }
  }

  lemma StepWrite(op: Op, state: Value)
    requires op.kind == Write
    ensures Step(state, op, Known(op.value))
  {
  }

  lemma {:induction false} Listed(ops: multiset<Op>) returns (s: seq<Op>)
    ensures multiset(s) == ops
    decreases |ops|
  {
    s := [];
    if ops != multiset{} {
      var op :| op in ops;
      var tail := Listed(ops - multiset{op});
      s := [op] + tail;
    }
  }

  /** Well-formed operations are linearizable if `order` explains those on register `k` and
      the others are writes. */
  lemma Accepted(ops: multiset<Op>, order: seq<Op>)
    requires forall op :: op in ops ==> op.WellFormed() && (op.key != "k" ==> op.kind == Write)
    requires forall op: Op :: op.key == "k" ==> ops[op] == multiset(order)[op]
    requires (forall op :: op in order ==> op.key == "k") && RespectsRealTime(order) && LegalFrom(order, Unknown)
    ensures HistoryLinearizable(ops)
  {
    hide HistoryLinearizable, LegalFrom, RespectsRealTime;
    var s := Listed(ops);
    forall op | op in s ensures op.WellFormed() {
      assert op in multiset(s);
    }
    forall key ensures KeyLinearizable(s, key) {
      var mine := multiset(Project(s, key));
      forall op: Op ensures mine[op] == if op.key == key then ops[op] else 0 {
        ProjectMultiset(s, key, op);
      }
      if key == "k" {
        forall op: Op ensures mine[op] == multiset(order)[op] {
          assert op.key != "k" ==> op !in multiset(order);
        }
        assert IsLinearization(order, mine, Unknown);
      } else {
        forall op | op in mine ensures op.kind == Write && op.WellFormed() {
          assert op in ops;
        }
        WritesLinearizable(mine, Unknown);
      }
    }
    LocalityTheorem(s);
  }

  /** Writes alone are always accepted, whatever their keys. */
  lemma WritesAccepted(raws: seq<RawOp>)
    requires Buildable(raws) && forall m :: 0 <= m < |raws| ==> !IsRead(raws[m])
    ensures HistoryLinearizable(Kept(raws))
  {
    hide HistoryLinearizable, Kept, SingleKeyed;
    forall op | op in Kept(raws) ensures op.kind == Write && op.WellFormed() {
      KeptWellFormed(raws);
      var m := KeptFrom(raws, op);
    }
    var s := Listed(Kept(raws));
    forall op | op in s ensures op.WellFormed() && KeyLinearizable(s, op.key) {
      assert op in multiset(s);
      KeyOfWrites(s, op.key);
    }
    KeysImplyHistory(s);
  }

  lemma KeyOfWrites(s: seq<Op>, key: string)
    requires forall op :: op in multiset(s) ==> op.kind == Write && op.WellFormed()
    ensures KeyLinearizable(s, key)
  {
    forall op | op in multiset(Project(s, key)) ensures op.kind == Write && op.WellFormed() {
      ProjectMember(s, key, op);
      assert op in s && op in multiset(s);
    }
    WritesLinearizable(multiset(Project(s, key)), Unknown);
  }

  /** Keys make no difference here: two completed writes, each recorded as ending before the
      other began, are accepted and leave no explanation on any keys. The theorem that lets
      keys be checked apart needs intervals that are not turned inside out. */
  lemma AcrossKeys(raws: seq<RawOp>, i: nat, j: nat)
    requires Buildable(raws) && forall m :: 0 <= m < |raws| ==> !IsRead(raws[m])
    requires i < |raws| && j < |raws| && i != j && Determinate(raws[i]) && Determinate(raws[j])
    requires raws[i].invoke.Some? && raws[j].invoke.Some?
    requires raws[i].complete.value.tns < raws[j].invoke.value.tns
    requires raws[j].complete.value.tns < raws[i].invoke.value.tns
    ensures HistoryLinearizable(Kept(raws)) && !RawLinearizable(raws)
  {
    hide HistoryLinearizable, RawLinearizable, Kept, SingleKeyed, BuildOf;
    WritesAccepted(raws);
    NeitherOrder(raws, i, j);
  }

  // --- No explanation ------------------------------------------------------------------

  /** A read sees what the register was last known to hold. */
  lemma {:induction false} ReadSees(p: seq<Op>, state: Value, s: nat, t: nat)
    requires LegalFrom(p, state) && s < t < |p| && !p[s].maybe && p[t].kind == Read
    requires forall u :: s < u < t && p[u].kind == Write ==> p[u].value == p[s].value
    ensures p[t].value == p[s].value
  {
    if s > 0 {
      LegalHead(p, state);
      var next :| Step(state, p[0], next) && LegalFrom(p[1..], next);
      ReadSees(p[1..], next, s - 1, t - 1);
    } else {
      assert LegalFrom(p[1..], Known(p[0].value));
      Keeps(p[1..], p[0].value, t - 1);
    }
  }

  lemma {:induction false} Keeps(p: seq<Op>, v: string, t: nat)
    requires LegalFrom(p, Known(v)) && t < |p| && p[t].kind == Read
    requires forall u :: 0 <= u < t && p[u].kind == Write ==> p[u].value == v
    ensures p[t].value == v
  {
    if t > 0 {
      LegalHead(p, Known(v));
      var next :| Step(Known(v), p[0], next) && LegalFrom(p[1..], next);
      Keeps(p[1..], v, t - 1);
    }
  }

  // --- What leaves no explanation ------------------------------------------------------

  /** An order of what happened on register `k`, read off an explanation of the whole. */
  lemma OnRegister(effects: seq<Effect>) returns (p: seq<Op>)
    requires HistoryLinearizable(Happenings(effects))
    ensures LegalFrom(p, Unknown) && RespectsRealTime(p)
    ensures forall op :: op in p <==> op in Happenings(effects) && op.key == "k"
  {
    hide LegalFrom, RespectsRealTime, HistoryLinearizable, Happenings;
    var order := SomeExplanation(Happenings(effects));
    p := Project(order, "k");
    ProjectRealTime(order, "k");
    forall op ensures op in p <==> op in Happenings(effects) && op.key == "k" {
      ProjectMember(order, "k", op);
      assert op in order <==> op in multiset(order);
    }
  }

  /** `op` happened as the deed at place `a`. */
  ghost predicate HappenedAs(raws: seq<RawOp>, at: seq<nat>, deeds: seq<Deed>, a: nat, op: Op)
    requires |at| == |deeds| && Indices(raws, at) && a < |at|
  {
    && op.kind == deeds[a].Kind() && op.value == deeds[a].value && !op.maybe
    && (raws[at[a]].invoke.Some? ==> !op.openAtStart && op.invokeNS == raws[at[a]].invoke.value.tns)
    && (Determinate(raws[at[a]]) ==> !op.openAtEnd && op.returnNS == raws[at[a]].complete.value.tns)
  }

  /** Whatever happened on register `k` is one of the deeds. */
  lemma HappenedIsDeed(raws: seq<RawOp>, at: seq<nat>, deeds: seq<Deed>, effects: seq<Effect>, op: Op) returns (a: nat)
    requires HasRecords(raws) && KeptDeeds(raws, at, deeds)
    requires forall m :: 0 <= m < |raws| ==> SingleKeyed(Doing(raws, at, deeds)[m])
    requires Consistent(Doing(raws, at, deeds), effects) && op in Happenings(effects) && op.key == "k"
    ensures a < |at| && HappenedAs(raws, at, deeds, a, op)
  {
    hide SingleKeyed, Happenings;
    assert "k" != "o";
    hide Possible, Redo;
    var m := HappenedAt(effects, op);
    assert Possible(Doing(raws, at, deeds)[m], effects[m]);
    DoingAt(raws, at, deeds, m);
    IdleElsewhere(raws[m], effects[m]);
    a :| 0 <= a < |at| && at[a] == m && Doing(raws, at, deeds)[m] == Redo(raws[m], deeds[a]);
    RedoHappened(raws[m], deeds[a], op);
  }

  lemma IdleElsewhere(ro: RawOp, e: Effect)
    requires (ro.invoke.Some? || ro.complete.Some?) && e.Happened? && e.op.key == "k"
    ensures var r := Redo(ro, Deed(false, "o", "v")); SingleKeyed(r) ==> !Possible(r, e)
  {
    RedoIs(ro, Deed(false, "o", "v"));
  }

  lemma RedoHappened(ro: RawOp, d: Deed, op: Op)
    requires ro.invoke.Some? || ro.complete.Some?
    requires SingleKeyed(Redo(ro, d)) && Possible(Redo(ro, d), Happened(op)) && (d.isRead ==> Determinate(ro))
    ensures op.key == d.key && op.kind == d.Kind() && op.value == d.value && !op.maybe
    ensures ro.invoke.Some? ==> !op.openAtStart && op.invokeNS == ro.invoke.value.tns
    ensures Determinate(ro) ==> !op.openAtEnd && op.returnNS == ro.complete.value.tns
  {
    RedoIs(ro, d);
    RedoTimes(ro, d);
  }

  lemma RedoDid(ro: RawOp, d: Deed, e: Effect)
    requires SingleKeyed(Redo(ro, d)) && Possible(Redo(ro, d), e) && Determinate(ro)
    ensures e.Happened?
  {
  }

  lemma RedoTimes(ro: RawOp, d: Deed)
    ensures Determinate(Redo(ro, d)) == Determinate(ro) && Failed(Redo(ro, d)) == Failed(ro)
    ensures Redo(ro, d).invoke.Some? == ro.invoke.Some? && Redo(ro, d).complete.Some? == ro.complete.Some?
  {
  }

  /** A completed deed did happen. */
  lemma DeedHappened(raws: seq<RawOp>, at: seq<nat>, deeds: seq<Deed>, effects: seq<Effect>, a: nat) returns (op: Op)
    requires HasRecords(raws) && KeptDeeds(raws, at, deeds) && a < |at| && Determinate(raws[at[a]])
    requires forall m :: 0 <= m < |raws| ==> SingleKeyed(Doing(raws, at, deeds)[m])
    requires Consistent(Doing(raws, at, deeds), effects)
    ensures op in Happenings(effects) && op.key == "k" && HappenedAs(raws, at, deeds, a, op)
  {
    hide SingleKeyed, Happenings;
    var m := at[a];
    hide Possible, Redo;
    assert Possible(Doing(raws, at, deeds)[m], effects[m]);
    DoingAt(raws, at, deeds, m);
    RedoDid(raws[m], deeds[a], effects[m]);
    op := effects[m].op;
    RedoHappened(raws[m], deeds[a], op);
    InHappenings(effects, m);
  }

  /** A write and a read of another value that has to come after it, with no other value
      written. */
  lemma WrongRead(p: seq<Op>, x: Op, y: Op)
    requires x in p && y in p && MustPrecede(x, y) && x != y
    requires !x.maybe && y.kind == Read && y.value != x.value
    requires forall o :: o in p && o.kind == Write ==> o.value == x.value
    ensures !(LegalFrom(p, Unknown) && RespectsRealTime(p))
  {
    var s :| 0 <= s < |p| && p[s] == x;
    var t :| 0 <= t < |p| && p[t] == y;
    forall u | 0 <= u < |p| && p[u].kind == Write ensures p[u].value == p[s].value {
      assert p[u] in p;
    }
    if s < t && LegalFrom(p, Unknown) {
      ReadSees(p, Unknown, s, t);
    }
  }

  /** Two reads of different values, and no write but of the first one's value, after it. */
  lemma WrongReads(p: seq<Op>, x: Op, y: Op)
    requires x in p && y in p && x.kind == y.kind == Read && y.value != x.value && !x.maybe && !y.maybe
    requires forall o :: o in p && o.kind == Write ==> o.value == x.value && MustPrecede(x, o)
    ensures !(LegalFrom(p, Unknown) && RespectsRealTime(p))
  {
    var s :| 0 <= s < |p| && p[s] == x;
    var t :| 0 <= t < |p| && p[t] == y;
    forall u | 0 <= u < |p| && p[u].kind == Write ensures p[u].value == p[s].value && MustPrecede(p[s], p[u]) {
      assert p[u] in p;
    }
    if LegalFrom(p, Unknown) && RespectsRealTime(p) {
      if s < t {
        ReadSees(p, Unknown, s, t);
      } else {
        ReadSees(p, Unknown, t, s);
      }
    }
  }

  // --- The theorem ---------------------------------------------------------------------

  /** The rules say of `raws` what an explanation of it would. */
  ghost predicate Exact(raws: seq<RawOp>)
    requires Buildable(raws)
  {
    RawLinearizable(raws) <==> HistoryLinearizable(Kept(raws))
  }

  lemma KeptAccepted(raws: seq<RawOp>, at: seq<nat>, deeds: seq<Deed>, order: seq<Op>)
    requires HasRecords(raws) && KeptDeeds(raws, at, deeds) && Buildable(Doing(raws, at, deeds))
    requires multiset(order) == multiset(DoneOps(raws, at, deeds))
    requires (forall op :: op in order ==> op.key == "k") && RespectsRealTime(order) && LegalFrom(order, Unknown)
    ensures HistoryLinearizable(Kept(Doing(raws, at, deeds)))
  {
    hide HistoryLinearizable, LegalFrom, RespectsRealTime, Kept, SingleKeyed, BuildOf, DoneOps, Doing;
    var done := Doing(raws, at, deeds);
    forall op | op in Kept(done) ensures op.WellFormed() && (op.key != "k" ==> op.kind == Write) {
      KeptWellFormed(done);
      KeptDoing(raws, at, deeds, op);
    }
    forall op: Op | op.key == "k" ensures Kept(done)[op] == multiset(order)[op] {
      KeptDoing(raws, at, deeds, op);
    }
    Accepted(Kept(done), order);
  }

  /** A clamped write and a completed read invoked in its window. */
  lemma ReadInWindow(raws: seq<RawOp>, i: nat, j: nat) returns (raws': seq<RawOp>)
    requires HasRecords(raws) && i < |raws| && j < |raws| && Clamped(raws[i]) && InWindow(raws, i, j)
    requires Determinate(raws[j])
    ensures SameTimes(raws, raws') && Buildable(raws') && !Exact(raws')
  {
    hide SingleKeyed, BuildOf, LegalFrom, RespectsRealTime, HistoryLinearizable, Happenings, Consistent, Kept, Doing,
         DoneOps, Done, SameTimes;
    var at, deeds := [i, j], [Deed(false, "k", "a"), Deed(true, "k", "b")];
    raws' := Doing(raws, at, deeds);
    DoingKeyed(raws, at, deeds);
    var y, x := Done(raws[j], deeds[1]), Done(raws[i], deeds[0]);
    TwoDone(raws, at, deeds);
    DoneIs(raws[j], deeds[1]);
    DoneIs(raws[i], deeds[0]);
    ReadThenWrite(y, x);
    KeptAccepted(raws, at, deeds, [y, x]);
    forall effects: seq<Effect> | Consistent(raws', effects) ensures !HistoryLinearizable(Happenings(effects)) {
      OldValue(raws, at, deeds, effects);
    }
  }

  lemma OldValue(raws: seq<RawOp>, at: seq<nat>, deeds: seq<Deed>, effects: seq<Effect>)
    requires HasRecords(raws) && KeptDeeds(raws, at, deeds)
    requires forall m :: 0 <= m < |raws| ==> SingleKeyed(Doing(raws, at, deeds)[m])
    requires deeds == [Deed(false, "k", "a"), Deed(true, "k", "b")]
    requires Clamped(raws[at[0]]) && InWindow(raws, at[0], at[1]) && Determinate(raws[at[1]])
    requires Consistent(Doing(raws, at, deeds), effects)
    ensures !HistoryLinearizable(Happenings(effects))
  {
    hide SingleKeyed, LegalFrom, RespectsRealTime, HistoryLinearizable, Happenings, Consistent, Doing;
    assert "a" != "b";
    if HistoryLinearizable(Happenings(effects)) {
      var p := OnRegister(effects);
      var w := DeedHappened(raws, at, deeds, effects, 0);
      var r := DeedHappened(raws, at, deeds, effects, 1);
      forall o | o in p && o.kind == Write ensures o.value == w.value {
        var a := HappenedIsDeed(raws, at, deeds, effects, o);
      }
      WrongRead(p, w, r);
    }
  }

  lemma TwoDone(raws: seq<RawOp>, at: seq<nat>, deeds: seq<Deed>)
    requires |at| == |deeds| == 2 && forall a :: 0 <= a < |at| ==> at[a] < |raws|
    ensures DoneOps(raws, at, deeds) == [Done(raws[at[0]], deeds[0]), Done(raws[at[1]], deeds[1])]
  {
    assert at[..1][..0] == [] && deeds[..1][..0] == [];
    assert DoneOps(raws, at[..1], deeds[..1]) == [] + [Done(raws[at[0]], deeds[0])];
  }

  lemma ThreeDone(raws: seq<RawOp>, at: seq<nat>, deeds: seq<Deed>)
    requires |at| == |deeds| == 3 && forall a :: 0 <= a < |at| ==> at[a] < |raws|
    ensures DoneOps(raws, at, deeds) ==
            [Done(raws[at[0]], deeds[0]), Done(raws[at[1]], deeds[1]), Done(raws[at[2]], deeds[2])]
  {
    TwoDone(raws, at[..2], deeds[..2]);
  }

  lemma ReadThenWrite(y: Op, x: Op)
    requires y.kind == Read && x.kind == Write && !MustPrecede(x, y)
    ensures RespectsRealTime([y, x]) && LegalFrom([y, x], Unknown)
  {
    assert [y, x][1..] == [x] && [x][1..] == [];
  }

  lemma ReadWriteRead(z: Op, y: Op, x: Op)
    requires z.kind == x.kind == Read && y.kind == Write && y.value == x.value
    requires !MustPrecede(x, y) && !MustPrecede(x, z) && !MustPrecede(y, z)
    ensures RespectsRealTime([z, y, x]) && LegalFrom([z, y, x], Unknown)
  {
    assert [z, y, x][1..] == [y, x] && [y, x][1..] == [x] && [x][1..] == [];
    assert LegalFrom([x], Known(y.value));
    assert LegalFrom([y, x], Known(z.value));
  }

  /** A clamped read, an indeterminate write invoked in its window, and a completed read
      that may come before both. */
  lemma WriteInWindow(raws: seq<RawOp>, i: nat, j: nat, l: nat) returns (raws': seq<RawOp>)
    requires HasRecords(raws) && i < |raws| && j < |raws| && l < |raws| && l != i
    requires Clamped(raws[i]) && InWindow(raws, i, j) && !Determinate(raws[j]) && Determinate(raws[l])
    requires raws[l].invoke.Some? ==> raws[l].invoke.value.tns <= raws[i].invoke.value.tns
    ensures SameTimes(raws, raws') && Buildable(raws') && !Exact(raws')
  {
    hide SingleKeyed, BuildOf, LegalFrom, RespectsRealTime, HistoryLinearizable, Happenings, Consistent, Kept, Doing,
         DoneOps, Done, SameTimes;
    var at, deeds := [i, j, l], [Deed(true, "k", "b"), Deed(false, "k", "b"), Deed(true, "k", "a")];
    raws' := Doing(raws, at, deeds);
    DoingKeyed(raws, at, deeds);
    WriteAccepted(raws, at, deeds);
    forall effects: seq<Effect> | Consistent(raws', effects) ensures !HistoryLinearizable(Happenings(effects)) {
      TwoValues(raws, at, deeds, effects);
    }
  }

  lemma WriteAccepted(raws: seq<RawOp>, at: seq<nat>, deeds: seq<Deed>)
    requires HasRecords(raws) && KeptDeeds(raws, at, deeds) && Buildable(Doing(raws, at, deeds))
    requires deeds == [Deed(true, "k", "b"), Deed(false, "k", "b"), Deed(true, "k", "a")]
    requires Clamped(raws[at[0]]) && InWindow(raws, at[0], at[1])
    requires !Determinate(raws[at[1]]) && Determinate(raws[at[2]])
    requires raws[at[2]].invoke.Some? ==> raws[at[2]].invoke.value.tns <= raws[at[0]].invoke.value.tns
    ensures HistoryLinearizable(Kept(Doing(raws, at, deeds)))
  {
    hide Buildable, LegalFrom, RespectsRealTime, HistoryLinearizable, Kept, Doing, DoneOps, Done;
    var z, y, x := Done(raws[at[2]], deeds[2]), Done(raws[at[1]], deeds[1]), Done(raws[at[0]], deeds[0]);
    DoneIs(raws[at[2]], deeds[2]);
    DoneIs(raws[at[1]], deeds[1]);
    DoneIs(raws[at[0]], deeds[0]);
    ReadWriteRead(z, y, x);
    ThreeDone(raws, at, deeds);
    KeptAccepted(raws, at, deeds, [z, y, x]);
  }

  lemma TwoValues(raws: seq<RawOp>, at: seq<nat>, deeds: seq<Deed>, effects: seq<Effect>)
    requires HasRecords(raws) && KeptDeeds(raws, at, deeds)
    requires forall m :: 0 <= m < |raws| ==> SingleKeyed(Doing(raws, at, deeds)[m])
    requires deeds == [Deed(true, "k", "b"), Deed(false, "k", "b"), Deed(true, "k", "a")]
    requires Clamped(raws[at[0]]) && InWindow(raws, at[0], at[1]) && Determinate(raws[at[2]])
    requires Consistent(Doing(raws, at, deeds), effects)
    ensures !HistoryLinearizable(Happenings(effects))
  {
    hide SingleKeyed, LegalFrom, RespectsRealTime, HistoryLinearizable, Happenings, Consistent, Doing;
    assert "a" != "b";
    if HistoryLinearizable(Happenings(effects)) {
      var p := OnRegister(effects);
      var r := DeedHappened(raws, at, deeds, effects, 0);
      var q := DeedHappened(raws, at, deeds, effects, 2);
      forall o | o in p && o.kind == Write ensures o.value == r.value && MustPrecede(r, o) {
        var a := HappenedIsDeed(raws, at, deeds, effects, o);
      }
      WrongReads(p, r, q);
    }
  }

  lemma SameHarm(raws: seq<RawOp>, raws': seq<RawOp>)
    requires SameTimes(raws, raws') && Harmless(raws)
    ensures Harmless(raws')
  {
    forall i, j | 0 <= i < |raws'| && 0 <= j < |raws'| && Clamped(raws'[i]) && InWindow(raws', i, j)
      ensures StartsFirst(raws', i)
    {
      assert InWindow(raws, i, j) && StartsFirst(raws, i);
    }
  }

  lemma KeyedHasRecords(raws: seq<RawOp>)
    requires forall i :: 0 <= i < |raws| ==> SingleKeyed(raws[i])
    ensures HasRecords(raws)
  {
    forall i | 0 <= i < |raws| ensures raws[i].invoke.Some? || raws[i].complete.Some? {
      assert "read" in Names(raws[i]) || "write" in Names(raws[i]);
    }
  }

  /** Whether the rules are exact for recorded times, whatever the operations did at those
      times, depends on the clamps alone: exactly when they are harmless. */
  lemma ExactWhenHarmless(raws: seq<RawOp>)
    requires Buildable(raws)
    ensures Harmless(raws) <==>
      forall raws' | SameTimes(raws, raws') && Buildable(raws') :: Exact(raws')
  {
    hide SingleKeyed, BuildOf, RawLinearizable, HistoryLinearizable, Kept, SameTimes;
    if Harmless(raws) {
      forall raws' | SameTimes(raws, raws') && Buildable(raws') ensures Exact(raws') {
        SameHarm(raws, raws');
        RulesAreExact(raws');
      }
    } else {
      KeyedHasRecords(raws);
      var raws' := SomethingAccepted(raws);
      assert !Exact(raws');
    }
  }

  /** Harm in the clamps is harm for something that may have been done at those times. */
  lemma SomethingAccepted(raws: seq<RawOp>) returns (raws': seq<RawOp>)
    requires HasRecords(raws) && !Harmless(raws)
    ensures SameTimes(raws, raws') && Buildable(raws') && HistoryLinearizable(Kept(raws')) && !RawLinearizable(raws')
  {
    hide SingleKeyed, BuildOf, RawLinearizable, HistoryLinearizable, Kept, SameTimes;
    var i, j :| 0 <= i < |raws| && 0 <= j < |raws| && Clamped(raws[i]) && InWindow(raws, i, j) && !StartsFirst(raws, i);
    if Determinate(raws[j]) {
      raws' := ReadInWindow(raws, i, j);
    } else {
      var l :| 0 <= l < |raws| && l != i && Determinate(raws[l])
        && !(raws[l].invoke.Some? && raws[i].invoke.value.tns < raws[l].invoke.value.tns);
      raws' := WriteInWindow(raws, i, j, l);
    }
    NotExactAccepts(raws');
  }

  lemma NotExactAccepts(raws: seq<RawOp>)
    requires Buildable(raws) && !Exact(raws)
    ensures HistoryLinearizable(Kept(raws)) && !RawLinearizable(raws)
  {
    hide SingleKeyed, BuildOf, RawLinearizable, HistoryLinearizable, Kept;
    if RawLinearizable(raws) {
      RulesLoseNoExplanation(raws);
    }
  }

  /** A history that is accepted and has no explanation: a write recorded as ending before
      it began, and something invoked in between. */
  lemma ClampingIsNotExact()
    ensures exists raws :: Buildable(raws) && HistoryLinearizable(Kept(raws)) && !RawLinearizable(raws)
  {
    hide SingleKeyed, BuildOf, RawLinearizable, HistoryLinearizable, Kept;
    var at := (tns: int, typ: RecordType) => Record(true, false, None, true, typ, "", None, [], Absent, tns);
    var raws := [RawOp(1, Some(at(5, InvokeRecord)), Some(at(1, OkRecord))),
                 RawOp(2, Some(at(2, InvokeRecord)), Some(at(3, OkRecord)))];
    assert Clamped(raws[0]) && InWindow(raws, 0, 1) && !StartsFirst(raws, 0);
    var raws' := SomethingAccepted(raws);
  }
}
