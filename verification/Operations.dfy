/** The ok / fail / info rules, and what they keep of a recorded history. */
module Operations {
  import opened Wrappers
  import opened Register
  import opened Locality
  import opened HistoryEdits
  import opened RawHistory

  datatype Built =
    | Keep(op: Op)
    | DropFailed
    | DropInfoRead
    | DropValueless
    | Refuse(why: Refusal)

  /** The first record's timestamp, or an opening before everything. */
  function Interval(ro: RawOp, kind: Kind, key: string, value: string): Op {
    var openAtStart := ro.invoke.None?;
    var invokeNS := if openAtStart then 0 else ro.invoke.value.tns;
    var openAtEnd := !Determinate(ro);
    var returnNS :=
      if openAtEnd then 0
      else if !openAtStart && ro.complete.value.tns < invokeNS then invokeNS
      else ro.complete.value.tns;
    Op(ro.id, kind, key, value, invokeNS, returnNS, openAtStart, openAtEnd, kind == Write && openAtEnd)
  }

  function Build(ro: RawOp, isRead: bool, key: string): Built {
    if Failed(ro) then DropFailed
    else if isRead then
      if !Determinate(ro) then DropInfoRead
      else if ro.complete.value.value == Absent then DropValueless
      else if ro.complete.value.value == Unreadable then Refuse(ReadUnreadable)
      else Keep(Interval(ro, Read, key, ro.complete.value.value.text))
    else if Written(ro) == Absent then Refuse(WriteValueless)
    else if Written(ro) == Unreadable then Refuse(WriteUnreadable)
    else Keep(Interval(ro, Write, key, Written(ro).text))
  }

  ghost function BuildOf(ro: RawOp): Built
    requires SingleKeyed(ro)
  {
    Build(ro, IsRead(ro), KeyOf(ro))
  }

  ghost predicate Buildable(raws: seq<RawOp>) {
    forall i :: 0 <= i < |raws| ==> SingleKeyed(raws[i]) && !BuildOf(raws[i]).Refuse?
  }

  ghost function KeptOp(ro: RawOp): multiset<Op>
    requires SingleKeyed(ro)
  {
    if BuildOf(ro).Keep? then multiset{BuildOf(ro).op} else multiset{}
  }

  ghost function Kept(raws: seq<RawOp>): multiset<Op>
    requires forall i :: 0 <= i < |raws| ==> SingleKeyed(raws[i])
  {
    if raws == [] then multiset{} else KeptOp(raws[0]) + Kept(raws[1..])
  }

  /** The completion is timestamped before its own invoke. */
  predicate Clamped(ro: RawOp) {
    Determinate(ro) && ro.invoke.Some? && ro.complete.value.tns < ro.invoke.value.tns
  }

  // --- The rules, read off the records -------------------------------------------------

  /** The values on the records are of no use: an ok read's is unreadable, or what was to be
      written is unreadable or on neither record. */
  ghost predicate Unusable(ro: RawOp) {
    if Names(ro) == {"read"} then
      ro.complete.Some? && ro.complete.value.typ == OkRecord && ro.complete.value.value == Unreadable
    else if ro.complete.Some? && ro.complete.value.typ == FailRecord then false
    else if ro.complete.Some? && ro.complete.value.value != Absent then ro.complete.value.value == Unreadable
    else ro.invoke.None? || ro.invoke.value.value == Absent || ro.invoke.value.value == Unreadable
  }

  /** An operation is refused exactly when its values are of no use. */
  lemma RefusedExactly(ro: RawOp)
    requires SingleKeyed(ro)
    ensures BuildOf(ro).Refuse? <==> Unusable(ro)
  {
    assert Names(ro) == {"read"} ==> "read" in Names(ro);
  }

  lemma BuildableExactly(raws: seq<RawOp>)
    ensures Buildable(raws) <==> forall i :: 0 <= i < |raws| ==> SingleKeyed(raws[i]) && !Unusable(raws[i])
  {
    hide SingleKeyed, BuildOf, Unusable;
    forall i | 0 <= i < |raws| && SingleKeyed(raws[i]) ensures BuildOf(raws[i]).Refuse? <==> Unusable(raws[i]) {
      RefusedExactly(raws[i]);
    }
  }

  /** The other operations are dropped when they failed, when they are reads that did not
      return, or that returned nothing; the rest are kept. */
  lemma DroppedExactly(ro: RawOp)
    requires SingleKeyed(ro) && !Unusable(ro)
    ensures var failed := ro.complete.Some? && ro.complete.value.typ == FailRecord;
      var returned := ro.complete.Some? && ro.complete.value.typ == OkRecord;
      && (BuildOf(ro) == DropFailed <==> failed)
      && (BuildOf(ro) == DropInfoRead <==> Names(ro) == {"read"} && !failed && !returned)
      && (BuildOf(ro) == DropValueless <==>
          Names(ro) == {"read"} && returned && ro.complete.value.value == Absent)
  {
  }

  /** A kept operation has the key and the times of its records. A read carries the value it
      returned; a write carries the completion's value if it has one, else the invoke's, and
      is indeterminate unless it completed with ok. */
  lemma KeptExactly(ro: RawOp)
    requires SingleKeyed(ro) && BuildOf(ro).Keep?
    ensures var op := BuildOf(ro).op;
      var returned := ro.complete.Some? && ro.complete.value.typ == OkRecord;
      && op.id == ro.id && AllKeys(ro) == {op.key} && op.kind == (if Names(ro) == {"read"} then Read else Write)
      && (op.kind == Read ==> returned && ro.complete.value.value == Text(op.value))
      && (op.kind == Write ==> Carries(ro, op.value))
      && (op.maybe <==> op.kind == Write && !returned) && op.openAtEnd == !returned
      && op.openAtStart == ro.invoke.None? && (ro.invoke.Some? ==> op.invokeNS == ro.invoke.value.tns)
      && (returned ==> op.returnNS == if ro.invoke.Some? && ro.invoke.value.tns > ro.complete.value.tns
                                      then ro.invoke.value.tns else ro.complete.value.tns)
  {
  }

  // --- From what happened to what is checked ---------------------------------------------

  ghost function Single(e: Effect): multiset<Op> {
    if e.Happened? then multiset{e.op} else multiset{}
  }

  lemma OneForward(ro: RawOp, e: Effect, ops: multiset<Op>)
    requires SingleKeyed(ro) && Possible(ro, e) && !BuildOf(ro).Refuse?
    requires HistoryLinearizable(ops + Single(e))
    ensures HistoryLinearizable(ops + KeptOp(ro))
  {
    if BuildOf(ro).Keep? {
      var op := BuildOf(ro).op;
      if e.Happened? {
        Loosen(ops, e.op, op);
      } else {
        assert ops + Single(e) == ops;
        AddMaybe(ops, op);
      }
    } else {
      assert ops + KeptOp(ro) == ops;
      if e.Happened? {
        DropRead(ops, e.op);
      } else {
        assert ops + Single(e) == ops;
      }
    }
  }

  lemma {:induction false} Forward(raws: seq<RawOp>, effects: seq<Effect>, ops: multiset<Op>)
    requires Buildable(raws) && Consistent(raws, effects)
    requires HistoryLinearizable(ops + Happenings(effects))
    ensures HistoryLinearizable(ops + Kept(raws))
  {
    if raws != [] {
      hide HistoryLinearizable, Possible, BuildOf;
      var rest, one, kept := Happenings(effects[1..]), Single(effects[0]), KeptOp(raws[0]);
      assert Happenings(effects) == one + rest;
      Regroup(ops, one, rest);
      OneForward(raws[0], effects[0], ops + rest);
      Regroup(ops, kept, rest);
      Forward(raws[1..], effects[1..], ops + kept);
      Regroup(ops, kept, Kept(raws[1..]));
    }
  }

  // --- And back ---------------------------------------------------------------------------

  ghost predicate AllWellFormed(ops: multiset<Op>) {
    forall o :: o in ops ==> o.WellFormed()
  }

  lemma BothWellFormed(a: multiset<Op>, b: multiset<Op>)
    requires AllWellFormed(a) && AllWellFormed(b)
    ensures AllWellFormed(a + b)
  {
  }

  lemma BuiltWellFormed(ro: RawOp)
    requires SingleKeyed(ro)
    ensures BuildOf(ro).Keep? ==> BuildOf(ro).op.WellFormed()
  {
  }

  /** An operation whose invoke was not recorded is open at the start. */
  ghost predicate OpenIfOrphan(ro: RawOp, e: Effect) {
    ro.invoke.None? && e.Happened? ==> e.op.openAtStart
  }

  ghost predicate OrphansOpen(raws: seq<RawOp>, effects: seq<Effect>)
  {
    |effects| == |raws| && forall i :: 0 <= i < |raws| ==> OpenIfOrphan(raws[i], effects[i])
  }

  lemma KeepBackward(ro: RawOp, ops: multiset<Op>) returns (e: Effect)
    requires SingleKeyed(ro) && BuildOf(ro).Keep? && !Clamped(ro)
    requires HistoryLinearizable(ops + multiset{BuildOf(ro).op})
    ensures Possible(ro, e) && HistoryLinearizable(ops + Single(e)) && AllWellFormed(Single(e)) && OpenIfOrphan(ro, e)
  {
    hide HistoryLinearizable;
    var op := BuildOf(ro).op;
    e := Happened(op);
    if op.maybe {
      DecideMaybe(ops, op);
      if HistoryLinearizable(ops) {
        e := Nothing;
        assert ops + Single(e) == ops;
      } else {
        e := Happened(op.(maybe := false));
      }
    }
  }

  lemma ValuelessBackward(ro: RawOp, ops: multiset<Op>) returns (e: Effect)
    requires SingleKeyed(ro) && BuildOf(ro) == DropValueless && !Clamped(ro)
    requires HistoryLinearizable(ops) && AllWellFormed(ops)
    ensures Possible(ro, e) && HistoryLinearizable(ops + Single(e)) && AllWellFormed(Single(e)) && OpenIfOrphan(ro, e)
  {
    hide HistoryLinearizable;
    var shape := Interval(ro, Read, KeyOf(ro), "");
    var v := AddRead(ops, shape);
    e := Happened(shape.(value := v));
  }

  lemma OneBackward(ro: RawOp, ops: multiset<Op>) returns (e: Effect)
    requires SingleKeyed(ro) && !BuildOf(ro).Refuse? && !Clamped(ro)
    requires HistoryLinearizable(ops + KeptOp(ro)) && AllWellFormed(ops)
    ensures Possible(ro, e) && HistoryLinearizable(ops + Single(e)) && AllWellFormed(Single(e)) && OpenIfOrphan(ro, e)
  {
    hide HistoryLinearizable, AllWellFormed;
    if BuildOf(ro).Keep? {
      e := KeepBackward(ro, ops);
    } else {
      assert ops + KeptOp(ro) == ops;
      if BuildOf(ro) == DropValueless {
        e := ValuelessBackward(ro, ops);
      } else {
        e := Nothing;
        assert ops + Single(e) == ops;
        NothingWellFormed();
      }
    }
  }

  lemma NothingWellFormed()
    ensures AllWellFormed(Single(Nothing))
  {
  }

  lemma Regroup(a: multiset<Op>, b: multiset<Op>, c: multiset<Op>)
    ensures a + (b + c) == a + c + b && a + b + c == a + (b + c)
  {
  }

  lemma HeadBackward(raws: seq<RawOp>, ops: multiset<Op>) returns (e: Effect)
    requires raws != [] && Buildable(raws) && !Clamped(raws[0])
    requires HistoryLinearizable(ops + Kept(raws)) && AllWellFormed(ops)
    ensures Possible(raws[0], e) && HistoryLinearizable(ops + Single(e) + Kept(raws[1..]))
    ensures AllWellFormed(ops + Single(e)) && OpenIfOrphan(raws[0], e)
  {
    hide HistoryLinearizable, Possible, AllWellFormed, Clamped, SingleKeyed, KeptOp, Single, BuildOf;
    var rest, kept := Kept(raws[1..]), KeptOp(raws[0]);
    KeptWellFormed(raws[1..]);
    BothWellFormed(ops, rest);
    Regroup(ops, kept, rest);
    e := OneBackward(raws[0], ops + rest);
    BothWellFormed(ops, Single(e));
    Regroup(ops, Single(e), rest);
  }

  lemma {:induction false} Backward(raws: seq<RawOp>, ops: multiset<Op>) returns (effects: seq<Effect>)
    requires Buildable(raws) && forall i :: 0 <= i < |raws| ==> !Clamped(raws[i])
    requires HistoryLinearizable(ops + Kept(raws)) && AllWellFormed(ops)
    ensures Consistent(raws, effects) && HistoryLinearizable(ops + Happenings(effects)) && OrphansOpen(raws, effects)
  {
    hide *;
    if raws == [] {
      effects := NothingRecorded(raws);
    } else {
      TailOf(raws);
      var e := HeadBackward(raws, ops);
      var tail := Backward(raws[1..], ops + Single(e));
      effects := [e] + tail;
      ConsistentHead(raws, e, tail);
      HappeningsHead(e, tail);
      Regroup(ops, Single(e), Happenings(tail));
    }
  }

  lemma NothingRecorded(raws: seq<RawOp>) returns (effects: seq<Effect>)
    requires raws == []
    ensures effects == [] && Buildable(raws) && Consistent(raws, effects) && OrphansOpen(raws, effects)
    ensures Kept(raws) == multiset{} == Happenings(effects)
  {
    effects := [];
  }

  lemma TailOf(raws: seq<RawOp>)
    requires raws != [] && Buildable(raws)
    ensures Buildable(raws[1..]) && forall i :: 0 <= i < |raws| ==> SingleKeyed(raws[i])
    ensures forall i :: 0 <= i < |raws[1..]| ==> raws[1..][i] == raws[i + 1]
  {
    hide SingleKeyed, BuildOf;
  }

  lemma ConsistentHead(raws: seq<RawOp>, e: Effect, tail: seq<Effect>)
    requires raws != [] && forall i :: 0 <= i < |raws| ==> SingleKeyed(raws[i])
    requires Possible(raws[0], e) && Consistent(raws[1..], tail)
    requires OpenIfOrphan(raws[0], e) && OrphansOpen(raws[1..], tail)
    ensures Consistent(raws, [e] + tail) && OrphansOpen(raws, [e] + tail)
  {
    hide SingleKeyed, Possible, OpenIfOrphan;
    var effects := [e] + tail;
    forall i | 0 <= i < |raws| ensures Possible(raws[i], effects[i]) && OpenIfOrphan(raws[i], effects[i]) {
      if i > 0 { assert raws[1..][i - 1] == raws[i] && tail[i - 1] == effects[i]; }
    }
  }

  lemma HappeningsHead(e: Effect, tail: seq<Effect>)
    ensures Happenings([e] + tail) == Single(e) + Happenings(tail)
  {
    assert ([e] + tail)[1..] == tail;
  }

  lemma {:induction false} KeptWellFormed(raws: seq<RawOp>)
    requires forall i :: 0 <= i < |raws| ==> SingleKeyed(raws[i])
    ensures AllWellFormed(Kept(raws))
  {
    if raws != [] {
      BuiltWellFormed(raws[0]);
      KeptWellFormed(raws[1..]);
    }
  }

  // --- The theorem -------------------------------------------------------------------------

  /** A history that can be explained is never turned into one that cannot: a
      violation of the checked operations is a violation of the recorded ones. */
  lemma RulesLoseNoExplanation(raws: seq<RawOp>)
    requires Buildable(raws) && RawLinearizable(raws)
    ensures HistoryLinearizable(Kept(raws))
  {
    var effects :| Consistent(raws, effects) && HistoryLinearizable(Happenings(effects));
    assert multiset{} + Happenings(effects) == Happenings(effects);
    Forward(raws, effects, multiset{});
    assert multiset{} + Kept(raws) == Kept(raws);
  }

  /** With no completion clamped to its invoke, what is checked is what happened. */
  lemma UnclampedIsExplained(raws: seq<RawOp>) returns (effects: seq<Effect>)
    requires Buildable(raws) && forall i :: 0 <= i < |raws| ==> !Clamped(raws[i])
    requires HistoryLinearizable(Kept(raws))
    ensures Consistent(raws, effects) && HistoryLinearizable(Happenings(effects)) && OrphansOpen(raws, effects)
  {
    assert multiset{} + Kept(raws) == Kept(raws);
    effects := Backward(raws, multiset{});
    assert multiset{} + Happenings(effects) == Happenings(effects);
  }
}
