/** Pairing records, the single-key precondition, and applying the rules. */
module Load {
  import opened Wrappers
  import opened Register
  import opened RawHistory
  import opened Operations

  datatype Counts = Counts(
    records: nat,
    markers: nat,
    operations: nat,
    detReads: nat,
    detWrites: nat,
    maybeWrites: nat,
    failedOps: nat,
    infoReads: nat,
    valuelessOk: nat,
    orphanEnds: nat,
    clampedEnds: nat)

  function NoCounts(): Counts {
    Counts(0, 0, 0, 0, 0, 0, 0, 0, 0, 0, 0)
  }

  datatype Paired = Paired(raw: map<int, RawOp>, order: seq<int>, c: Counts)

  datatype Loaded = Loaded(ops: seq<Op>, c: Counts)

  // --- Pairing -----------------------------------------------------------------------

  predicate Completes(typ: RecordType) {
    typ == OkRecord || typ == FailRecord || typ == InfoRecord
  }

  /** A record that is neither refused on sight nor skipped. */
  predicate Usable(r: Record) {
    r.valid && (r.marker || (r.opId.Some? && r.hasTime && r.typ != OtherRecord))
  }

  predicate IsInvoke(r: Record, id: int) {
    !r.marker && r.opId == Some(id) && r.typ == InvokeRecord
  }

  predicate IsCompletion(r: Record, id: int) {
    !r.marker && r.opId == Some(id) && Completes(r.typ)
  }

  function Invokes(records: seq<Record>, id: int): seq<Record> {
    if records == [] then []
    else
      var n := |records| - 1;
      Invokes(records[..n], id) + if IsInvoke(records[n], id) then [records[n]] else []
  }

  function Completions(records: seq<Record>, id: int): seq<Record> {
    if records == [] then []
    else
      var n := |records| - 1;
      Completions(records[..n], id) + if IsCompletion(records[n], id) then [records[n]] else []
  }

  /** They are the records of that id that are no markers, by their type. */
  lemma {:induction false} InvokesAre(records: seq<Record>, id: int, r: Record)
    ensures r in Invokes(records, id) <==>
      r in records && !r.marker && r.opId == Some(id) && r.typ == InvokeRecord
    ensures r in Completions(records, id) <==>
      r in records && !r.marker && r.opId == Some(id) && r.typ in {OkRecord, FailRecord, InfoRecord}
  {
    if records != [] {
      var n := |records| - 1;
      InvokesAre(records[..n], id, r);
      assert records == records[..n] + [records[n]];
    }
  }

  /** The operation ids, in the order they are first seen. */
  function Seen(records: seq<Record>): seq<int> {
    if records == [] then []
    else
      var n := |records| - 1;
      var before, r := Seen(records[..n]), records[n];
      if !r.marker && r.opId.Some? && r.opId.value !in before then before + [r.opId.value] else before
  }

  /** How many records are markers. */
  function Markers(records: seq<Record>): (k: nat)
    ensures k <= |records|
  {
    if records == [] then 0
    else
      var n := |records| - 1;
      Markers(records[..n]) + if records[n].marker then 1 else 0
  }

  function Only(rs: seq<Record>): Option<Record> {
    if rs == [] then None else Some(rs[0])
  }

  /** The recorded history: one pair of records for every id. */
  function History(records: seq<Record>): seq<RawOp> {
    seq(|Seen(records)|, i requires 0 <= i < |Seen(records)| =>
      var id := Seen(records)[i]; RawOp(id, Only(Invokes(records, id)), Only(Completions(records, id))))
  }

  function AtMostOne(r: Option<Record>): seq<Record> {
    if r.Some? then [r.value] else []
  }

  ghost predicate PairedAt(records: seq<Record>, raw: map<int, RawOp>, id: int)
    requires id in raw
  {
    && raw[id].id == id
    && Invokes(records, id) == AtMostOne(raw[id].invoke)
    && Completions(records, id) == AtMostOne(raw[id].complete)
  }

  /** Every operation id of the records, with the one invoke and the one completion
      recorded for it, in the order the ids were first seen. */
  ghost predicate Pairs(records: seq<Record>, raw: map<int, RawOp>, order: seq<int>) {
    && (forall r :: r in records ==> Usable(r))
    && (forall r :: r in records && !r.marker ==> r.opId.value in raw)
    && (forall id :: id in raw ==> PairedAt(records, raw, id))
    && (forall id :: id in order <==> id in raw)
    && order == Seen(records)
  }

  /** What makes a list of records pairable: no record is refused on sight, no id has
      two invokes or two completions, and at least one operation is recorded. */
  ghost predicate Pairable(records: seq<Record>) {
    && (forall r :: r in records ==> Usable(r))
    && (forall id :: |Invokes(records, id)| <= 1 && |Completions(records, id)| <= 1)
    && (exists r :: r in records && !r.marker)
  }

  lemma {:induction false} InvokesGrow(records: seq<Record>, id: int, n: nat)
    requires n <= |records|
    ensures |Invokes(records[..n], id)| <= |Invokes(records, id)|
    ensures |Completions(records[..n], id)| <= |Completions(records, id)|
  {
    if n < |records| {
      var front := records[..|records| - 1];
      InvokesGrow(front, id, n);
      assert front[..n] == records[..n];
    } else {
      assert records[..n] == records;
    }
  }

  lemma {:induction false} UnseenHasNone(records: seq<Record>, id: int)
    requires forall r :: r in records && !r.marker ==> r.opId != Some(id)
    ensures Invokes(records, id) == [] && Completions(records, id) == []
  {
    if records != [] {
      UnseenHasNone(records[..|records| - 1], id);
      assert records[|records| - 1] in records;
    }
  }

  /** One more record, folded into the pair of its id. */
  function Fold(ro: RawOp, r: Record): RawOp {
    if r.typ == InvokeRecord then ro.(invoke := Some(r)) else ro.(complete := Some(r))
  }

  function Pending(raw: map<int, RawOp>, id: int): RawOp {
    if id in raw then raw[id] else RawOp(id, None, None)
  }

  lemma PendingIs(raw: map<int, RawOp>, id: int)
    ensures Pending(raw, id) == if id in raw then raw[id] else RawOp(id, None, None)
  {
  }

  /** The pair of its id still has room for the record. */
  predicate HasRoom(ro: RawOp, r: Record) {
    if r.typ == InvokeRecord then ro.invoke.None? else ro.complete.None?
  }

  lemma StepPairedAt(records: seq<Record>, raw: map<int, RawOp>, n: nat, k: int)
    requires n < |records| && Usable(records[n]) && !records[n].marker
    requires HasRoom(Pending(raw, records[n].opId.value), records[n])
    requires if k in raw then PairedAt(records[..n], raw, k)
             else k == records[n].opId.value && Invokes(records[..n], k) == [] && Completions(records[..n], k) == []
    ensures var id := records[n].opId.value;
      PairedAt(records[..n + 1], raw[id := Fold(Pending(raw, id), records[n])], k)
  {
    assert records[..n + 1][..n] == records[..n];
  }

  lemma StepPairs(records: seq<Record>, raw: map<int, RawOp>, order: seq<int>, n: nat)
    requires n < |records| && Pairs(records[..n], raw, order) && Usable(records[n]) && !records[n].marker
    requires HasRoom(Pending(raw, records[n].opId.value), records[n])
    ensures var id := records[n].opId.value;
      Pairs(records[..n + 1], raw[id := Fold(Pending(raw, id), records[n])], if id in raw then order else order + [id])
    ensures records[n].opId.value in raw ==> order != []
  {
    hide PairedAt, HasRoom, Fold, Pending;
    var before, id := records[..n], records[n].opId.value;
    assert records[..n + 1] == before + [records[n]];
    if id !in raw {
      UnseenHasNone(before, id);
    }
    forall k | k in raw || k == id
      ensures PairedAt(records[..n + 1], raw[id := Fold(Pending(raw, id), records[n])], k)
    {
      StepPairedAt(records, raw, n, k);
    }
  }

  lemma SkipMarker(records: seq<Record>, raw: map<int, RawOp>, order: seq<int>, n: nat)
    requires n < |records| && Pairs(records[..n], raw, order) && Usable(records[n]) && records[n].marker
    ensures Pairs(records[..n + 1], raw, order)
  {
    var before, now := records[..n], records[..n + 1];
    assert now[..n] == before && now == before + [records[n]];
    forall k | k in raw ensures PairedAt(now, raw, k) {
      assert PairedAt(before, raw, k);
    }
  }

  lemma SecondRecord(records: seq<Record>, raw: map<int, RawOp>, order: seq<int>, n: nat)
    requires n < |records| && Pairs(records[..n], raw, order) && Usable(records[n]) && !records[n].marker
    requires records[n].opId.value in raw && !HasRoom(raw[records[n].opId.value], records[n])
    ensures !Pairable(records)
  {
    var id, now := records[n].opId.value, records[..n + 1];
    assert PairedAt(records[..n], raw, id);
    assert now[..n] == records[..n];
    InvokesGrow(records, id, n + 1);
    assert |Invokes(records, id)| > 1 || |Completions(records, id)| > 1;
  }

  lemma StartPairs(records: seq<Record>)
    ensures Pairs(records[..0], map[], [])
  {
  }

  lemma Refused(records: seq<Record>, n: nat)
    requires n < |records| && !Usable(records[n])
    ensures !Pairable(records)
  {
    assert records[n] in records;
  }

  /** Pairs the records, or refuses; apart from running out of time it refuses only
      records that cannot be paired. */
  method Pair(records: seq<Record>, expired: nat -> bool) returns (r: Result<Paired, Refusal>)
    ensures r.Ok? ==> Pairs(records, r.value.raw, r.value.order) && r.value.order != []
    ensures r.Ok? ==> var c := r.value.c;
      c == NoCounts().(operations := |r.value.order|, markers := Markers(records),
                          records := |records| - Markers(records))
    ensures r.Err? && r.error == WallExpired ==> exists n: nat :: expired(n)
    ensures r.Err? && r.error != WallExpired ==> !Pairable(records)
  {
    hide Pairs, Pending, Fold;
    var raw: map<int, RawOp> := map[];
    var order: seq<int> := [];
    StartPairs(records);
    var c := NoCounts();
    for n := 0 to |records|
      invariant Pairs(records[..n], raw, order)
      invariant c.records > 0 <==> order != []
      invariant c == NoCounts().(markers := c.markers, records := c.records)
      invariant c.markers == Markers(records[..n]) && c.records + c.markers == n
    {
      assert records[..n + 1][..n] == records[..n];
      if n % 4096 == 0 && expired(n) {
        return Err(WallExpired);
      }
      var e := records[n];
      if !Usable(e) {
        Refused(records, n);
      }
      if !e.valid {
        return Err(InvalidRecord);
      }
      if e.marker {
        c := c.(markers := c.markers + 1);
        SkipMarker(records, raw, order, n);
        continue;
      }
      c := c.(records := c.records + 1);
      if e.opId.None? {
        return Err(NoOpId);
      }
      if !e.hasTime {
        return Err(NoTimestamp);
      }
      var id := e.opId.value;
      if e.typ == OtherRecord {
        return Err(UnknownType);
      }
      var ro := Pending(raw, id);
      assert ro == if id in raw then raw[id] else RawOp(id, None, None) by { PendingIs(raw, id); }
      if e.typ == InvokeRecord && ro.invoke.Some? {
        SecondRecord(records, raw, order, n);
        return Err(TwoInvokes);
      }
      if Completes(e.typ) && ro.complete.Some? {
        SecondRecord(records, raw, order, n);
        return Err(TwoCompletions);
      }
      StepPairs(records, raw, order, n);
      if id !in raw {
        order := order + [id];
      }
      raw := raw[id := Fold(ro, e)];
    }
    assert records[..|records|] == records;
    if c.records == 0 {
      NoneRecorded(records, raw, order);
      return Err(NoRecords);
    }
    return Ok(Paired(raw, order, c.(operations := |order|)));
  }

  lemma NoneRecorded(records: seq<Record>, raw: map<int, RawOp>, order: seq<int>)
    requires Pairs(records, raw, order) && order == []
    ensures !Pairable(records)
  {
    assert forall id :: id in raw <==> id in order;
    assert raw.Keys == {};
  }

  lemma {:induction false} RawsOfAt(raw: map<int, RawOp>, order: seq<int>, i: nat)
    requires i < |order| && forall id :: id in order ==> id in raw
    ensures |RawsOf(raw, order)| == |order|
    ensures order[i] in raw && RawsOf(raw, order)[i] == raw[order[i]]
  {
    var id := order[i];
    assert id in order;
    var n := |order| - 1;
    if n > 0 {
      RawsOfAt(raw, order[..n], if i < n then i else 0);
    }
  }

  /** What pairing leaves is the recorded history. */
  lemma PairsAreHistory(records: seq<Record>, raw: map<int, RawOp>, order: seq<int>)
    requires Pairs(records, raw, order)
    ensures forall id :: id in order ==> id in raw
    ensures RawsOf(raw, order) == History(records)
  {
    if order != [] { RawsOfAt(raw, order, 0); }
    forall i | 0 <= i < |order| ensures RawsOf(raw, order)[i] == History(records)[i] {
      RawsOfAt(raw, order, i);
      assert PairedAt(records, raw, order[i]);
    }
  }

  lemma {:induction false} SeenIsRecorded(records: seq<Record>)
    requires Seen(records) != []
    ensures exists r :: r in records && !r.marker
  {
    var n := |records| - 1;
    if Seen(records[..n]) != [] {
      SeenIsRecorded(records[..n]);
      var r :| r in records[..n] && !r.marker;
      assert r in records;
    } else {
      assert records[n] in records && !records[n].marker;
    }
  }

  /** Only pairable records are paired. */
  lemma PairedIsPairable(records: seq<Record>, raw: map<int, RawOp>, order: seq<int>)
    requires Pairs(records, raw, order) && order != []
    ensures Pairable(records)
  {
    SeenIsRecorded(records);
    forall id ensures |Invokes(records, id)| <= 1 && |Completions(records, id)| <= 1 {
      if id in raw {
        assert PairedAt(records, raw, id);
      } else {
        UnseenHasNone(records, id);
      }
    }
  }

  /** An operation that fails the precondition keeps the history from being built. */
  lemma NotSingleKeyed(raw: map<int, RawOp>, order: seq<int>, id: int)
    requires (forall i :: i in order ==> i in raw) && id in order && !SingleKeyed(raw[id])
    ensures !Buildable(RawsOf(raw, order))
  {
    hide SingleKeyed;
    var i :| 0 <= i < |order| && order[i] == id;
    RawsOfAt(raw, order, i);
  }

  // --- The precondition of locality ----------------------------------------------------

  function RecordName(r: Option<Record>): string {
    if r.Some? then r.value.name else ""
  }

  /** The operation's name, on which its records must agree. */
  function OpName(ro: RawOp): Result<string, Refusal> {
    var a, b := RecordName(ro.invoke), RecordName(ro.complete);
    if a != "" && b != "" && a != b then Err(AmbiguousName)
    else if a == "" && b == "" then Err(NoName)
    else Ok(if b != "" then b else a)
  }

  function AddKey(keys: seq<string>, k: string): seq<string> {
    if k in keys then keys else keys + [k]
  }

  function AddKeys(keys: seq<string>, more: seq<string>): seq<string>
    decreases more
  {
    if more == [] then keys else AddKeys(AddKey(keys, more[0]), more[1..])
  }

  function RecordKey(r: Option<Record>): Option<string> {
    if r.Some? then r.value.key else None
  }

  function RecordListed(r: Option<Record>): seq<string> {
    if r.Some? then r.value.listed else []
  }

  /** The distinct keys an operation names, in the order first seen. */
  function Shape(ro: RawOp): Result<seq<string>, Refusal> {
    var a, b := RecordKey(ro.invoke), RecordKey(ro.complete);
    if a.Some? && b.Some? && a.value != b.value then Err(AmbiguousKey)
    else
      var top := if a.Some? then [a.value] else if b.Some? then [b.value] else [];
      Ok(AddKeys(AddKeys(top, RecordListed(ro.invoke)), RecordListed(ro.complete)))
  }

  ghost predicate NoRepeats(keys: seq<string>) {
    forall i, j :: 0 <= i < j < |keys| ==> keys[i] != keys[j]
  }

  lemma {:induction false} AddKeysAdds(keys: seq<string>, more: seq<string>)
    requires NoRepeats(keys)
    ensures NoRepeats(AddKeys(keys, more))
    ensures forall k :: k in AddKeys(keys, more) <==> k in keys || k in more
    decreases more
  {
    if more != [] {
      AddKeysAdds(AddKey(keys, more[0]), more[1..]);
      assert more == [more[0]] + more[1..];
    }
  }

  lemma OpNameIsName(ro: RawOp, name: string)
    requires name != ""
    ensures OpName(ro) == Ok(name) <==> Names(ro) == {name}
  {
    if Names(ro) == {name} {
      assert RecordName(ro.invoke) != "" ==> RecordName(ro.invoke) in Names(ro);
      assert RecordName(ro.complete) != "" ==> RecordName(ro.complete) in Names(ro);
      assert name in Names(ro);
    }
  }

  lemma ShapeIsKeys(ro: RawOp)
    ensures Shape(ro).Ok? ==> NoRepeats(Shape(ro).value) && forall k :: k in Shape(ro).value <==> k in AllKeys(ro)
    ensures Shape(ro).Err? ==> exists j, k :: j in AllKeys(ro) && k in AllKeys(ro) && j != k
  {
    var a, b := RecordKey(ro.invoke), RecordKey(ro.complete);
    if a.Some? && b.Some? && a.value != b.value {
      assert a.value in AllKeys(ro) && b.value in AllKeys(ro);
    } else {
      var top := if a.Some? then [a.value] else if b.Some? then [b.value] else [];
      AddKeysAdds(top, RecordListed(ro.invoke));
      AddKeysAdds(AddKeys(top, RecordListed(ro.invoke)), RecordListed(ro.complete));
      assert forall k :: k in top <==> k in TopKeys(ro);
    }
  }

  predicate Acceptable(ro: RawOp) {
    && (OpName(ro) == Ok("read") || OpName(ro) == Ok("write"))
    && Shape(ro).Ok? && |Shape(ro).value| == 1
  }

  lemma OneKey(keys: seq<string>, all: set<string>)
    requires NoRepeats(keys) && forall k :: k in keys <==> k in all
    ensures |keys| == 1 ==> all == {keys[0]}
    ensures (exists k :: all == {k}) ==> |keys| == 1
  {
    if |keys| == 1 {
      assert keys[0] in all;
    }
    if |keys| > 1 {
      assert keys[0] in keys && keys[1] in keys;
    }
    forall k | all == {k} ensures |keys| == 1 {
      assert k in keys;
    }
  }

  /** What the precondition scan accepts is exactly an operation on a single key. */
  lemma AcceptableIsSingleKeyed(ro: RawOp)
    ensures Acceptable(ro) <==> SingleKeyed(ro)
    ensures Acceptable(ro) ==> KeyOf(ro) == Shape(ro).value[0] && (IsRead(ro) <==> OpName(ro) == Ok("read"))
  {
    OpNameIsName(ro, "read");
    OpNameIsName(ro, "write");
    ShapeIsKeys(ro);
    if Shape(ro).Ok? {
      OneKey(Shape(ro).value, AllKeys(ro));
    } else {
      forall k ensures AllKeys(ro) != {k} {
      }
    }
    if Acceptable(ro) {
      assert KeyOf(ro) in AllKeys(ro);
    }
  }

  /** Refuses unless every operation is a read or a write of one key. */
  method CheckPrecondition(raw: map<int, RawOp>, order: seq<int>) returns (refusal: Option<Refusal>)
    requires forall id :: id in order ==> id in raw
    ensures refusal.None? <==> forall id :: id in order ==> SingleKeyed(raw[id])
  {
    hide SingleKeyed, OpName, Shape;
    var multi, other, keyless := false, false, false;
    for i := 0 to |order|
      invariant !multi && !other && !keyless <==> forall id :: id in order[..i] ==> SingleKeyed(raw[id])
    {
      var id := order[i];
      var ro := raw[id];
      AcceptableIsSingleKeyed(ro);
      assert order[..i + 1] == order[..i] + [id];
      var name := OpName(ro);
      if name.Err? {
        return Some(name.error);
      }
      var keys := Shape(ro);
      if keys.Err? {
        return Some(keys.error);
      }
      if |keys.value| > 1 { multi := true; }
      if name.value != "read" && name.value != "write" { other := true; }
      if |keys.value| == 0 { keyless := true; }
    }
    assert order[..|order|] == order;
    if multi { return Some(ManyKeys); }
    if other { return Some(UnmodelledName); }
    if keyless { return Some(NoKey); }
    return None;
  }

  // --- Building the operations ------------------------------------------------------------

  /** The paired operations in the order their ids were first seen. */
  ghost function RawsOf(raw: map<int, RawOp>, order: seq<int>): seq<RawOp>
    requires forall id :: id in order ==> id in raw
  {
    if order == [] then []
    else
      var n := |order| - 1;
      var id := order[n];
      assert id in order;
      RawsOf(raw, order[..n]) + [raw[id]]
  }

  lemma {:induction false} RawsOfSingleKeyed(raw: map<int, RawOp>, order: seq<int>)
    requires forall id :: id in order ==> id in raw && SingleKeyed(raw[id])
    ensures |RawsOf(raw, order)| == |order|
    ensures forall i :: 0 <= i < |order| ==>
      order[i] in raw && RawsOf(raw, order)[i] == raw[order[i]] && SingleKeyed(RawsOf(raw, order)[i])
  {
    hide SingleKeyed;
    forall i | 0 <= i < |order| ensures order[i] in raw && SingleKeyed(raw[order[i]]) {
      var id := order[i];
      assert id in order;
    }
    if order != [] {
      RawsOfSingleKeyed(raw, order[..|order| - 1]);
      assert forall i :: 0 <= i < |order| ==> order[i] in order;
    }
  }

  lemma {:induction false} KeptAppend(raws: seq<RawOp>, ro: RawOp)
    requires SingleKeyed(ro) && forall i :: 0 <= i < |raws| ==> SingleKeyed(raws[i])
    ensures Kept(raws + [ro]) == Kept(raws) + KeptOp(ro)
  {
    hide KeptOp, SingleKeyed;
    if raws == [] {
      assert [ro][1..] == [] && [] + [ro] == [ro];
      assert Kept([ro]) == KeptOp(ro) + Kept([]);
    } else {
      KeptAppend(raws[1..], ro);
      assert (raws + [ro])[1..] == raws[1..] + [ro];
      assert Kept(raws + [ro]) == KeptOp(raws[0]) + (Kept(raws[1..]) + KeptOp(ro));
    }
  }

  /** One more kept operation on the account. */
  function CountKept(c: Counts, ro: RawOp, op: Op): Counts {
    var c1 :=
      if op.kind == Read then c.(detReads := c.detReads + 1)
      else if op.maybe then c.(maybeWrites := c.maybeWrites + 1)
      else c.(detWrites := c.detWrites + 1);
    var c2 := if op.openAtStart then c1.(orphanEnds := c1.orphanEnds + 1) else c1;
    if !op.openAtStart && !op.openAtEnd && ro.complete.Some? && ro.complete.value.tns < op.returnNS
    then c2.(clampedEnds := c2.clampedEnds + 1) else c2
  }

  /** The counts that pairing left, alone. */
  function Bookkept(c: Counts): Counts {
    NoCounts().(operations := c.operations, markers := c.markers, records := c.records)
  }

  /** The counts that decide whether there is evidence, and how much was widened. */
  ghost predicate CountsFit(c: Counts, ops: seq<Op>) {
    && c.detReads + c.detWrites + c.maybeWrites == |ops|
    && (c.detReads > 0 <==> exists op :: op in ops && op.kind == Read)
    && (c.orphanEnds > 0 <==> exists op :: op in ops && op.openAtStart)
  }

  lemma SameEvidence(c: Counts, c': Counts, ops: seq<Op>)
    requires CountsFit(c, ops)
    requires c'.detReads == c.detReads && c'.detWrites == c.detWrites
    requires c'.maybeWrites == c.maybeWrites && c'.orphanEnds == c.orphanEnds
    ensures CountsFit(c', ops)
  {
  }

  lemma NextCounts(c: Counts, ops: seq<Op>, ro: RawOp, op: Op)
    requires CountsFit(c, ops)
    ensures CountsFit(CountKept(c, ro, op), ops + [op])
  {
    assert op in ops + [op];
    forall o | o in ops ensures o in ops + [op] {
    }
    if c.detReads > 0 {
      var o :| o in ops && o.kind == Read;
      assert o in ops + [op];
    }
    if c.orphanEnds > 0 {
      var o :| o in ops && o.openAtStart;
      assert o in ops + [op];
    }
  }

  // --- What the counts count -----------------------------------------------------------

  ghost function HowMany(raws: seq<RawOp>, counted: RawOp -> bool): nat {
    if raws == [] then 0
    else
      var n := |raws| - 1;
      HowMany(raws[..n], counted) + if counted(raws[n]) then 1 else 0
  }

  lemma OneMore(raws: seq<RawOp>, ro: RawOp, counted: RawOp -> bool)
    ensures HowMany(raws + [ro], counted) == HowMany(raws, counted) + if counted(ro) then 1 else 0
  {
    assert (raws + [ro])[..|raws|] == raws;
  }

  ghost predicate UnseenRead(ro: RawOp) { !Failed(ro) && IsRead(ro) && !Determinate(ro) }

  ghost predicate ValuelessRead(ro: RawOp) {
    IsRead(ro) && Determinate(ro) && ro.complete.value.value == Absent
  }

  ghost predicate SeenRead(ro: RawOp) {
    IsRead(ro) && Determinate(ro) && ro.complete.value.value != Absent
  }

  ghost predicate SureWrite(ro: RawOp) { !IsRead(ro) && Determinate(ro) }

  ghost predicate MaybeWrite(ro: RawOp) { !Failed(ro) && !IsRead(ro) && !Determinate(ro) }

  ghost predicate CheckedOrphan(ro: RawOp) {
    (SeenRead(ro) || SureWrite(ro) || MaybeWrite(ro)) && ro.invoke.None?
  }

  ghost predicate CheckedClamp(ro: RawOp) { (SeenRead(ro) || SureWrite(ro)) && Clamped(ro) }

  /** Every count is the number of operations it is named after. */
  ghost predicate Tallies(c: Counts, raws: seq<RawOp>) {
    && c.failedOps == HowMany(raws, Failed) && c.infoReads == HowMany(raws, UnseenRead)
    && c.valuelessOk == HowMany(raws, ValuelessRead) && c.detReads == HowMany(raws, SeenRead)
    && c.detWrites == HowMany(raws, SureWrite) && c.maybeWrites == HowMany(raws, MaybeWrite)
    && c.orphanEnds == HowMany(raws, CheckedOrphan) && c.clampedEnds == HowMany(raws, CheckedClamp)
  }

  function CountBuilt(c: Counts, ro: RawOp, built: Built): Counts {
    match built
    case DropFailed => c.(failedOps := c.failedOps + 1)
    case DropInfoRead => c.(infoReads := c.infoReads + 1)
    case DropValueless => c.(valuelessOk := c.valuelessOk + 1)
    case Refuse(_) => c
    case Keep(op) => CountKept(c, ro, op)
  }

  /** What counting one operation adds to each count. */
  lemma CountedOne(c: Counts, ro: RawOp)
    requires SingleKeyed(ro) && !BuildOf(ro).Refuse?
    ensures var c' := CountBuilt(c, ro, BuildOf(ro));
      && c'.failedOps == c.failedOps + (if Failed(ro) then 1 else 0)
      && c'.infoReads == c.infoReads + (if UnseenRead(ro) then 1 else 0)
      && c'.valuelessOk == c.valuelessOk + (if ValuelessRead(ro) then 1 else 0)
      && c'.detReads == c.detReads + (if SeenRead(ro) then 1 else 0)
      && c'.detWrites == c.detWrites + (if SureWrite(ro) then 1 else 0)
      && c'.maybeWrites == c.maybeWrites + (if MaybeWrite(ro) then 1 else 0)
      && c'.orphanEnds == c.orphanEnds + (if CheckedOrphan(ro) then 1 else 0)
      && c'.clampedEnds == c.clampedEnds + (if CheckedClamp(ro) then 1 else 0)
  {
  }

  lemma NextTally(c: Counts, raws: seq<RawOp>, ro: RawOp)
    requires Tallies(c, raws) && SingleKeyed(ro) && !BuildOf(ro).Refuse?
    ensures Tallies(CountBuilt(c, ro, BuildOf(ro)), raws + [ro])
  {
    CountedOne(c, ro);
    hide SingleKeyed, BuildOf, CountBuilt, HowMany;
    OneMore(raws, ro, Failed);
    OneMore(raws, ro, UnseenRead);
    OneMore(raws, ro, ValuelessRead);
    OneMore(raws, ro, SeenRead);
    OneMore(raws, ro, SureWrite);
    OneMore(raws, ro, MaybeWrite);
    OneMore(raws, ro, CheckedOrphan);
    OneMore(raws, ro, CheckedClamp);
  }

  lemma NoTally(c: Counts)
    requires c == Bookkept(c)
    ensures Tallies(c, []) && CountsFit(c, [])
  {
  }

  lemma NoEvidence(c: Counts, ops: seq<Op>)
    requires CountsFit(c, ops)
    ensures c.detReads == 0 || |ops| == 0 ==> forall op :: op in multiset(ops) ==> op.kind == Write
  {
  }

  /** What the next operation adds to what is kept. */
  lemma NextRaw(raw: map<int, RawOp>, order: seq<int>, i: nat)
    requires i < |order| && forall id :: id in order ==> id in raw && SingleKeyed(raw[id])
    requires Buildable(RawsOf(raw, order[..i]))
    ensures forall id :: id in order[..i + 1] ==> id in raw && SingleKeyed(raw[id])
    ensures order[i] in raw && SingleKeyed(raw[order[i]])
    ensures BuildOf(raw[order[i]]).Refuse? ==> !Buildable(RawsOf(raw, order))
    ensures !BuildOf(raw[order[i]]).Refuse? ==>
      && Buildable(RawsOf(raw, order[..i + 1]))
      && Kept(RawsOf(raw, order[..i + 1])) == Kept(RawsOf(raw, order[..i])) + KeptOp(raw[order[i]])
    ensures RawsOf(raw, order[..i + 1]) == RawsOf(raw, order[..i]) + [raw[order[i]]]
  {
    hide SingleKeyed, BuildOf, KeptOp, Kept;
    var front, now := order[..i], order[..i + 1];
    assert now[..i] == front;
    assert order[i] in order;
    RawsOfSingleKeyed(raw, order);
    RawsOfSingleKeyed(raw, front);
    var ro := raw[order[i]];
    assert RawsOf(raw, now) == RawsOf(raw, front) + [ro];
    KeptAppend(RawsOf(raw, front), ro);
    if BuildOf(ro).Refuse? {
      assert RawsOf(raw, order)[i] == ro;
    }
  }

  /** The first `i` operations are built and counted. */
  ghost predicate BuiltUpTo(raw: map<int, RawOp>, order: seq<int>, i: nat, c: Counts, ops: seq<Op>)
    requires i <= |order| && forall id :: id in order ==> id in raw && SingleKeyed(raw[id])
  {
    var raws := RawsOf(raw, order[..i]);
    && Buildable(raws) && multiset(ops) == Kept(raws) && CountsFit(c, ops) && Tallies(c, raws)
  }

  lemma NextBuilt(raw: map<int, RawOp>, order: seq<int>, i: nat, c: Counts, ops: seq<Op>)
    requires i < |order| && forall id :: id in order ==> id in raw && SingleKeyed(raw[id])
    requires BuiltUpTo(raw, order, i, c, ops)
    ensures order[i] in raw && SingleKeyed(raw[order[i]])
    ensures var built := BuildOf(raw[order[i]]);
      if built.Refuse? then !Buildable(RawsOf(raw, order))
      else
        && BuiltUpTo(raw, order, i + 1, CountBuilt(c, raw[order[i]], built),
                     if built.Keep? then ops + [built.op] else ops)
        && Bookkept(CountBuilt(c, raw[order[i]], built)) == Bookkept(c)
  {
    hide SingleKeyed, BuildOf, CountsFit, Tallies, CountBuilt;
    NextRaw(raw, order, i);
    var ro := raw[order[i]];
    var built := BuildOf(ro);
    if !built.Refuse? {
      NextTally(c, RawsOf(raw, order[..i]), ro);
      EvidenceOf(c, ops, ro, built);
      SameBooks(c, ro, built);
    }
  }

  lemma SameBooks(c: Counts, ro: RawOp, built: Built)
    ensures Bookkept(CountBuilt(c, ro, built)) == Bookkept(c)
  {
  }

  lemma EvidenceOf(c: Counts, ops: seq<Op>, ro: RawOp, built: Built)
    requires CountsFit(c, ops) && !built.Refuse?
    ensures CountsFit(CountBuilt(c, ro, built), if built.Keep? then ops + [built.op] else ops)
  {
    hide CountsFit, CountKept;
    if built.Keep? {
      NextCounts(c, ops, ro, built.op);
    } else {
      SameEvidence(c, CountBuilt(c, ro, built), ops);
    }
  }

  lemma BuiltAll(raw: map<int, RawOp>, order: seq<int>, c: Counts, ops: seq<Op>)
    requires forall id :: id in order ==> id in raw && SingleKeyed(raw[id])
    requires BuiltUpTo(raw, order, |order|, c, ops)
    ensures |RawsOf(raw, order)| == |order| && forall i :: 0 <= i < |order| ==> SingleKeyed(RawsOf(raw, order)[i])
    ensures Buildable(RawsOf(raw, order)) && multiset(ops) == Kept(RawsOf(raw, order))
    ensures CountsFit(c, ops) && Tallies(c, RawsOf(raw, order))
    ensures c.detReads == 0 || |ops| == 0 ==> forall op :: op in Kept(RawsOf(raw, order)) ==> op.kind == Write
  {
    hide SingleKeyed, Tallies;
    assert order[..|order|] == order;
    RawsOfSingleKeyed(raw, order);
    NoEvidence(c, ops);
  }

  /** Applies the ok / fail / info rules to one paired operation. */
  method BuildOne(ro: RawOp, c: Counts, ops: seq<Op>) returns (refusal: Option<Refusal>, c': Counts, ops': seq<Op>)
    requires SingleKeyed(ro)
    ensures refusal.Some? <==> BuildOf(ro).Refuse?
    ensures refusal.None? ==> var built := BuildOf(ro);
      c' == CountBuilt(c, ro, built) && ops' == if built.Keep? then ops + [built.op] else ops
  {
    hide SingleKeyed, OpName, Shape, BuildOf, Build;
    var built := Build(ro, OpName(ro) == Ok("read"), KeyFound(ro));
    BuiltIs(ro);
    refusal, c', ops' := None, c, ops;
    match built
    case DropFailed => c' := c.(failedOps := c.failedOps + 1);
    case DropInfoRead => c' := c.(infoReads := c.infoReads + 1);
    case DropValueless => c' := c.(valuelessOk := c.valuelessOk + 1);
    case Refuse(why) => refusal := Some(why);
    case Keep(op) =>
      c' := CountKept(c, ro, op);
      ops' := ops + [op];
  }

  /** Applies the ok / fail / info rules to every paired operation. It refuses a
      value it cannot read, and a history without a single determinate read. */
  method BuildOperations(raw: map<int, RawOp>, order: seq<int>, c0: Counts) returns (r: Result<Loaded, Refusal>)
    requires forall id :: id in order ==> id in raw && SingleKeyed(raw[id])
    requires c0 == Bookkept(c0)
    ensures |RawsOf(raw, order)| == |order| && forall i :: 0 <= i < |order| ==> SingleKeyed(RawsOf(raw, order)[i])
    ensures r.Ok? ==>
      && Buildable(RawsOf(raw, order)) && multiset(r.value.ops) == Kept(RawsOf(raw, order))
      && CountsFit(r.value.c, r.value.ops) && r.value.c.detReads > 0
      && Tallies(r.value.c, RawsOf(raw, order)) && Bookkept(r.value.c) == c0
    ensures r.Err? ==>
      || !Buildable(RawsOf(raw, order))
      || (forall op :: op in Kept(RawsOf(raw, order)) ==> op.kind == Write)
  {
    RawsOfSingleKeyed(raw, order);
    hide SingleKeyed, BuildOf, CountsFit, Tallies, BuiltUpTo, Buildable, Kept, RawsOf, CountBuilt, Bookkept;
    var c, ops: seq<Op> := c0, [];
    NothingBuilt(raw, order, c);
    for i := 0 to |order|
      invariant BuiltUpTo(raw, order, i, c, ops) && Bookkept(c) == c0
    {
      NextBuilt(raw, order, i, c, ops);
      var refusal;
      refusal, c, ops := BuildOne(raw[order[i]], c, ops);
      if refusal.Some? {
        return Err(refusal.value);
      }
    }
    BuiltAll(raw, order, c, ops);
    if |ops| == 0 {
      return Err(NothingCheckable);
    }
    if c.detReads == 0 {
      return Err(NoReads);
    }
    return Ok(Loaded(ops, c));
  }

  lemma NothingBuilt(raw: map<int, RawOp>, order: seq<int>, c: Counts)
    requires (forall id :: id in order ==> id in raw && SingleKeyed(raw[id])) && c == Bookkept(c)
    ensures BuiltUpTo(raw, order, 0, c, [])
  {
    hide SingleKeyed;
    assert order[..0] == [];
    NoTally(c);
  }

  function KeyFound(ro: RawOp): string
    requires SingleKeyed(ro)
  {
    AcceptableIsSingleKeyed(ro);
    Shape(ro).value[0]
  }

  lemma BuiltIs(ro: RawOp)
    requires SingleKeyed(ro)
    ensures Build(ro, OpName(ro) == Ok("read"), KeyFound(ro)) == BuildOf(ro)
  {
    AcceptableIsSingleKeyed(ro);
  }
}
