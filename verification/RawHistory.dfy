/** A recorded history, and what it says about what really happened. */
module RawHistory {
  import opened Wrappers
  import opened Register
  import opened Locality

  datatype RecordType = InvokeRecord | OkRecord | FailRecord | InfoRecord | OtherRecord

  /** A value as recorded: missing, not readable as a value, or its canonical text. */
  datatype Recorded = Absent | Unreadable | Text(text: string)

  /** One decoded line. `listed` are the keys of the micro-operations its value lists. */
  datatype Record = Record(
    valid: bool,
    marker: bool,
    opId: Option<int>,
    hasTime: bool,
    typ: RecordType,
    name: string,
    key: Option<string>,
    listed: seq<string>,
    value: Recorded,
    tns: int)

  /** The invoke and the completion record of one operation id. */
  datatype RawOp = RawOp(id: int, invoke: Option<Record>, complete: Option<Record>)

  datatype Refusal =
    | WallExpired | InvalidRecord | NoOpId | NoTimestamp | UnknownType | TwoInvokes | TwoCompletions
    | NoRecords | AmbiguousName | NoName | AmbiguousKey | ManyKeys | UnmodelledName | NoKey
    | ReadUnreadable | WriteValueless | WriteUnreadable | NothingCheckable | NoReads

  // --- What an operation's two records say ---------------------------------------------

  /** The names its records give, at most one each. */
  function Names(ro: RawOp): set<string> {
    (if ro.invoke.Some? && ro.invoke.value.name != "" then {ro.invoke.value.name} else {})
    + (if ro.complete.Some? && ro.complete.value.name != "" then {ro.complete.value.name} else {})
  }

  /** The keys its records name at the top level, at most one each. */
  function TopKeys(ro: RawOp): set<string> {
    (if ro.invoke.Some? && ro.invoke.value.key.Some? then {ro.invoke.value.key.value} else {})
    + (if ro.complete.Some? && ro.complete.value.key.Some? then {ro.complete.value.key.value} else {})
  }

  function ListedKeys(r: Option<Record>): set<string> {
    if r.Some? then set k | k in r.value.listed else {}
  }

  function AllKeys(ro: RawOp): set<string> {
    TopKeys(ro) + ListedKeys(ro.invoke) + ListedKeys(ro.complete)
  }

  /** An operation has a name, or names a key, exactly when one of its records does. */
  lemma NamedByRecords(ro: RawOp, name: string, k: string)
    ensures name in Names(ro) <==> name != "" && (RecordIsNamed(ro.invoke, name) || RecordIsNamed(ro.complete, name))
    ensures k in AllKeys(ro) <==> RecordNames(ro.invoke, k) || RecordNames(ro.complete, k)
  {
  }

  ghost predicate RecordIsNamed(r: Option<Record>, name: string) {
    r.Some? && r.value.name == name
  }

  ghost predicate RecordNames(r: Option<Record>, k: string) {
    r.Some? && (r.value.key == Some(k) || k in r.value.listed)
  }

  /** A read or a write of exactly one key: what locality needs. */
  ghost predicate SingleKeyed(ro: RawOp) {
    && (Names(ro) == {"read"} || Names(ro) == {"write"})
    && exists k :: AllKeys(ro) == {k}
  }

  ghost function KeyOf(ro: RawOp): (k: string)
    requires SingleKeyed(ro)
    ensures AllKeys(ro) == {k}
  {
    var k :| AllKeys(ro) == {k};
    k
  }

  ghost predicate IsRead(ro: RawOp) { Names(ro) == {"read"} }

  predicate Failed(ro: RawOp) { ro.complete.Some? && ro.complete.value.typ == FailRecord }

  predicate Determinate(ro: RawOp) { ro.complete.Some? && ro.complete.value.typ == OkRecord }

  /** The value written: the completion's when it has one, else the invoke's. */
  function Written(ro: RawOp): Recorded {
    if ro.complete.Some? && ro.complete.value.value != Absent then ro.complete.value.value
    else if ro.invoke.Some? then ro.invoke.value.value
    else Absent
  }

  /** What the records say was written: what the completion says, unless it says nothing; then
      what the invoke says. */
  ghost predicate Carries(ro: RawOp, v: string) {
    || (ro.complete.Some? && ro.complete.value.value == Text(v))
    || ((ro.complete.None? || ro.complete.value.value == Absent)
        && ro.invoke.Some? && ro.invoke.value.value == Text(v))
  }

  // --- What may really have happened ---------------------------------------------------

  datatype Effect = Nothing | Happened(op: Op)

  /** `op` ran from the recorded invoke on; with no invoke recorded, from any time
      before it ended. */
  ghost predicate StartsAsRecorded(ro: RawOp, op: Op) {
    if ro.invoke.Some? then !op.openAtStart && op.invokeNS == ro.invoke.value.tns
    else op.openAtStart || op.openAtEnd || op.invokeNS <= op.returnNS
  }

  /** `op` is an occurrence of the recorded operation, with the value it carries. */
  ghost predicate IsOccurrence(ro: RawOp, op: Op)
    requires SingleKeyed(ro)
  {
    && op.id == ro.id && op.key == KeyOf(ro) && !op.maybe && StartsAsRecorded(ro, op)
    && op.kind == (if IsRead(ro) then Read else Write)
    && (!IsRead(ro) ==> Carries(ro, op.value))
  }

  /** ok: it happened, between its records and with the value returned. fail: it did
      not happen. info, or no completion: it happened at some time after its invoke,
      with a result nobody saw, or it never happened. */
  ghost predicate Possible(ro: RawOp, e: Effect)
    requires SingleKeyed(ro)
  {
    if Failed(ro) then e == Nothing
    else if Determinate(ro) then
      && e.Happened? && IsOccurrence(ro, e.op)
      && !e.op.openAtEnd && e.op.returnNS == ro.complete.value.tns
      && (IsRead(ro) && ro.complete.value.value != Absent ==> ro.complete.value.value == Text(e.op.value))
    else
      e == Nothing || (IsOccurrence(ro, e.op) && e.op.WellFormed())
  }

  ghost function Happenings(effects: seq<Effect>): multiset<Op> {
    if effects == [] then multiset{}
    else (if effects[0].Happened? then multiset{effects[0].op} else multiset{}) + Happenings(effects[1..])
  }

  ghost predicate Consistent(raws: seq<RawOp>, effects: seq<Effect>)
    requires forall i :: 0 <= i < |raws| ==> SingleKeyed(raws[i])
  {
    |effects| == |raws| && forall i :: 0 <= i < |raws| ==> Possible(raws[i], effects[i])
  }

  /** Something that may have happened is linearizable. */
  ghost predicate RawLinearizable(raws: seq<RawOp>)
    requires forall i :: 0 <= i < |raws| ==> SingleKeyed(raws[i])
  {
    exists effects :: Consistent(raws, effects) && HistoryLinearizable(Happenings(effects))
  }
}
