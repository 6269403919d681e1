/** Every key searched on its share of the budget, and one answer for all. */
module Check {
  import opened Wrappers
  import opened Register
  import opened Locality
  import opened Search
  import opened RawHistory
  import opened Operations
  import opened Clamping
  import Load

  datatype Status = StatusOk | StatusViolated | StatusInconclusive

  // --- The budget ---------------------------------------------------------------------

  /** An equal share of what is left, and never less than one state. */
  function Share(left: int, remainingKeys: int): (share: int)
    requires left > 0
    ensures 1 <= share <= left
    ensures remainingKeys >= 1 && left >= remainingKeys ==> share == left / remainingKeys
    ensures var keys := if remainingKeys < 1 then 1 else remainingKeys;
      (share == 1 || share * keys <= left) && left < (share + 1) * keys
  {
    var keys := if remainingKeys < 1 then 1 else remainingKeys;
    AtMostWhole(left, keys);
    Floor(left, keys, 1);
    if left / keys < 1 then 1 else left / keys
  }

  lemma AtMostWhole(left: int, keys: int)
    requires left > 0 && keys >= 1
    ensures left / keys <= left
    ensures left >= keys ==> left / keys >= 1
  {
  }

  lemma TimesLe(b: int, x: int, y: int)
    requires b >= 0 && x <= y
    ensures b * x <= b * y
  {
  }

  lemma BelowQuotient(a: int, b: int, q: int)
    requires b > 0 && a / b <= q - 1
    ensures a < b * q
  {
    assert a == b * (a / b) + a % b;
    TimesLe(b, a / b, q - 1);
    assert b * (q - 1) == b * q - b;
  }

  lemma Quotient(a: int, b: int, q: int)
    requires b > 0 && a >= b * q
    ensures a / b >= q
  {
    if a / b <= q - 1 {
      BelowQuotient(a, b, q);
    }
  }

  lemma QuotientFits(a: int, b: int)
    requires b > 0
    ensures b * (a / b) <= a
  {
  }

  /** However much of its share a key spends, the next key's share is no smaller. */
  lemma SharesNeverShrink(left: int, keys: int, spent: int)
    requires keys >= 2 && left >= keys && 0 <= spent <= Share(left, keys)
    ensures left - spent >= keys - 1 && Share(left - spent, keys - 1) >= Share(left, keys)
  {
    AtMostWhole(left, keys);
    var q := left / keys;
    WholeShare(left, keys, q);
    TimesLe(keys - 1, 1, q);
    Quotient(left - spent, keys - 1, q);
  }

  /** Taking one of `remaining` equal parts leaves enough for the others. */
  lemma WholeShare(left: int, remaining: int, equal: int)
    requires remaining >= 1 && left / remaining >= equal
    ensures left - left / remaining >= (remaining - 1) * equal
  {
    var q := left / remaining;
    QuotientFits(left, remaining);
    TimesLe(remaining - 1, equal, q);
    assert (remaining - 1) * q == remaining * q - q;
  }

  /** A quotient, and what is below it. */
  lemma Floor(left: int, keys: int, t: int)
    requires keys >= 1
    ensures (left / keys) * keys <= left < (left / keys + 1) * keys
    ensures t <= left / keys <==> t * keys <= left
  {
    var q := left / keys;
    assert left == keys * q + left % keys;
    if t <= q {
      TimesLe(keys, t, q);
    } else {
      TimesLe(keys, q + 1, t);
    }
  }

  /** A key may run until `t`: not past the common deadline, and not past its equal share of
      the time that was left at `now`, counted from `later`. */
  ghost predicate Allowed(deadline: int, now: int, later: int, remainingKeys: int, t: int) {
    && t <= deadline
    && (t - later) * (if remainingKeys < 1 then 1 else remainingKeys) <= deadline - now
  }

  /** The last moment a key may run until. */
  function KeyDeadline(deadline: int, now: int, later: int, remainingKeys: int): (d: int)
    requires now < deadline
    ensures d <= deadline
    ensures later <= deadline ==> later <= d
    ensures forall t :: t <= d <==> Allowed(deadline, now, later, remainingKeys, t)
  {
    var keys := if remainingKeys < 1 then 1 else remainingKeys;
    AtMostWhole(deadline - now, keys);
    LastAllowed(deadline, now, later, remainingKeys);
    var d := later + (deadline - now) / keys;
    if d > deadline then deadline else d
  }

  lemma LastAllowed(deadline: int, now: int, later: int, remainingKeys: int)
    ensures var keys := if remainingKeys < 1 then 1 else remainingKeys;
      forall t :: t <= deadline ==>
        (Allowed(deadline, now, later, remainingKeys, t) <==> t - later <= (deadline - now) / keys)
  {
    var keys := if remainingKeys < 1 then 1 else remainingKeys;
    forall t | t <= deadline
      ensures Allowed(deadline, now, later, remainingKeys, t) <==> t - later <= (deadline - now) / keys
    {
      Floor(deadline - now, keys, t - later);
    }
  }

  /** A key that keeps to its time leaves every other key at least as much. */
  lemma TimeNeverShrinks(deadline: int, now: int, keys: int)
    requires now < deadline && keys >= 2
    ensures var d := KeyDeadline(deadline, now, now, keys);
      d < deadline ==> KeyDeadline(deadline, d, d, keys - 1) - d >= d - now
  {
    var left := deadline - now;
    var q := left / keys;
    WholeShare(left, keys, q);
    if now + q < deadline {
      Quotient(left - q, keys - 1, q);
      AtMostWhole(left - q, keys - 1);
    }
  }

  /** The wall-clock and explored-state allowance shared by the keys. */
  class Budget {
    const maxStates: int
    const deadline: int
    var spent: int

    constructor (maxStates: int, deadline: int)
      ensures this.maxStates == maxStates && this.deadline == deadline && spent == 0
    {
      this.maxStates, this.deadline, spent := maxStates, deadline, 0;
    }

    /** The next key's share, unless no states or no time are left. `now` and `later` are
        two readings of the clock. */
    method Slice(remainingKeys: int, now: int, later: int) returns (states: int, keyDeadline: int, ok: bool)
      ensures ok <==> spent < maxStates && now < deadline
      ensures ok ==> states == Share(maxStates - spent, remainingKeys)
      ensures ok ==> forall t :: t <= keyDeadline <==> Allowed(deadline, now, later, remainingKeys, t)
    {
      var left := maxStates - spent;
      if left <= 0 {
        return 0, 0, false;
      }
      var wallLeft := deadline - now;
      if wallLeft <= 0 {
        return 0, 0, false;
      }
      return Share(left, remainingKeys), KeyDeadline(deadline, now, later, remainingKeys), true;
    }

    method Spend(n: int)
      modifies this
      ensures spent == old(spent) + n
    {
      spent := spent + n;
    }
  }

  // --- One key ------------------------------------------------------------------------

  ghost predicate AllWell(ops: seq<Op>) {
    forall op :: op in ops ==> op.WellFormed()
  }

  function Words(ops: seq<Op>): (w: nat)
    ensures |ops| <= 64 * w < |ops| + 64
  {
    (|ops| + 63) / 64
  }

  /** The states a search of `ops` can need are within its share and its memo. */
  ghost predicate Affordable(ops: seq<Op>, share: int, maxMemoBytes: int) {
    StatesBound(ops) < share && StatesBound(ops) < MemoLimit(Words(ops), maxMemoBytes)
  }

  /** Searches one key. Exhaustion is only ever a matter of the ceilings. */
  method CheckKey(ops: seq<Op>, share: int, expired: int -> bool, maxMemoBytes: int,
                  hash: (Value, seq<bv64>) -> int) returns (out: Outcome, states: int)
    requires AllWell(ops) && share >= 0
    ensures out.FoundLinearization? ==> Linearizable(multiset(ops))
    ensures out.FoundViolation? ==> !Linearizable(multiset(ops))
    ensures 0 <= states <= share
    ensures out.Exhausted? ==> (exists n :: expired(n)) || !Affordable(ops, share, maxMemoBytes)
  {
    hide Searcher.Ready, Searcher.StackIsLinearization, StatesBound, MemoLimit;
    forall i | 0 <= i < |ops| ensures ops[i].WellFormed() {
      var op := ops[i];
      assert op in ops;
    }
    var s := new Searcher(ops, share, expired, maxMemoBytes, hash);
    out := s.Run();
    states := s.st.states;
    if out.FoundLinearization? {
      StackProves(s);
    }
  }

  lemma StackProves(s: Searcher)
    requires s.StackIsLinearization()
    ensures Linearizable(multiset(s.ops))
  {
  }

  // --- Every key ------------------------------------------------------------------------

  /** The keys of the operations, each once. */
  ghost predicate AreKeysOf(keys: seq<string>, ops: seq<Op>) {
    && (forall i, j :: 0 <= i < j < |keys| ==> keys[i] != keys[j])
    && forall k :: k in keys <==> exists op :: op in ops && op.key == k
  }

  method KeysOf(ops: seq<Op>) returns (keys: seq<string>)
    ensures AreKeysOf(keys, ops)
  {
    keys := [];
    for n := 0 to |ops|
      invariant forall i, j :: 0 <= i < j < |keys| ==> keys[i] != keys[j]
      invariant forall k :: k in keys <==> exists op :: op in ops[..n] && op.key == k
    {
      assert ops[..n + 1] == ops[..n] + [ops[n]];
      if ops[n].key !in keys {
        keys := keys + [ops[n].key];
      }
    }
    assert ops[..|ops|] == ops;
  }

  /** Every key could be searched to the end on an equal share of the states. */
  ghost predicate AllAffordable(ops: seq<Op>, keys: seq<string>, maxStates: int, maxMemoBytes: int) {
    |keys| > 0 && forall k :: k in keys ==> Affordable(Project(ops, k), maxStates / |keys|, maxMemoBytes)
  }

  /** The clock, as it is read: twice when a key's share is cut, then during its search. */
  datatype Clock = Clock(now: int, later: int, tick: int -> int) {
    ghost predicate InTime(deadline: int, remainingKeys: int) {
      now < deadline && forall n :: Allowed(deadline, now, later, remainingKeys, tick(n))
    }
  }

  /** No key is ever out of time. */
  ghost predicate NeverExpires(deadline: int, clock: nat -> Clock, keys: nat) {
    forall i :: 0 <= i < keys ==> clock(i).InTime(deadline, keys - i)
  }

  /** What is left covers `equal` states for each remaining key. */
  ghost predicate KeepsUp(left: int, remaining: int, equal: int) {
    equal >= 1 ==> left >= remaining * equal
  }

  /** After a key that got at least its equal share and spent at most its share, what
      is left still covers the others. */
  lemma FewerKeys(left: int, remaining: int, equal: int, share: int, after: int)
    requires remaining >= 1 && KeepsUp(left, remaining, equal)
    requires share == 0 || (left > 0 && share == Share(left, remaining))
    requires left - share <= after <= left
    ensures share > 0 && equal >= 1 ==> share >= equal
    ensures equal >= 1 ==> left > 0
    ensures KeepsUp(after, remaining - 1, equal)
  {
    if equal >= 1 {
      Product(remaining, equal);
      if share > 0 {
        Quotient(left, remaining, equal);
        AtMostWhole(left, remaining);
        WholeShare(left, remaining, equal);
      }
    }
  }

  lemma Product(remaining: int, equal: int)
    requires remaining >= 1 && equal >= 1
    ensures remaining * equal >= remaining && (remaining - 1) * equal == remaining * equal - equal
  {
  }

  lemma NotAffordable(ops: seq<Op>, keys: seq<string>, maxStates: int, maxMemoBytes: int)
    ensures AllAffordable(ops, keys, maxStates, maxMemoBytes) ==> |keys| > 0 && maxStates / |keys| >= 1
  {
    if AllAffordable(ops, keys, maxStates, maxMemoBytes) {
      assert keys[0] in keys;
    }
  }

  lemma MoreIsAffordable(ops: seq<Op>, equal: int, share: int, maxMemoBytes: int)
    requires share >= equal && Affordable(ops, equal, maxMemoBytes)
    ensures Affordable(ops, share, maxMemoBytes)
  {
  }

  lemma ProjectWell(ops: seq<Op>, key: string)
    requires AllWell(ops)
    ensures AllWell(Project(ops, key))
  {
    forall op | op in Project(ops, key) ensures op.WellFormed() {
      ProjectMember(ops, key, op);
    }
  }

  lemma KeyFacts(ops: seq<Op>, key: string)
    ensures KeyLinearizable(ops, key) <==> Linearizable(multiset(Project(ops, key)))
  {
  }

  lemma KeyRefutes(ops: seq<Op>, key: string)
    requires AllWell(ops) && !KeyLinearizable(ops, key)
    ensures !HistoryLinearizable(multiset(ops))
  {
    LocalityTheorem(ops);
  }

  lemma KeysProve(ops: seq<Op>, keys: seq<string>)
    requires AllWell(ops) && (forall k :: k in keys ==> KeyLinearizable(ops, k))
    requires forall op :: op in ops ==> op.key in keys
    ensures HistoryLinearizable(multiset(ops))
  {
    KeysImplyHistory(ops);
  }

  /** Searches one key on its share of the budget. */
  method NextKey(bud: Budget, ops: seq<Op>, key: string, remaining: int, clock: Clock,
                 maxMemoBytes: int, hash: (Value, seq<bv64>) -> int, ghost equal: int) returns (out: Outcome)
    requires AllWell(ops) && remaining >= 1 && KeepsUp(bud.maxStates - bud.spent, remaining, equal)
    modifies bud
    ensures old(bud.spent) <= bud.spent && (bud.spent <= bud.maxStates || bud.spent == old(bud.spent))
    ensures KeepsUp(bud.maxStates - bud.spent, remaining - 1, equal)
    ensures out.FoundLinearization? ==> KeyLinearizable(ops, key)
    ensures out.FoundViolation? ==> !HistoryLinearizable(multiset(ops))
    ensures out.Exhausted? ==>
      !clock.InTime(bud.deadline, remaining) || equal < 1 || !Affordable(Project(ops, key), equal, maxMemoBytes)
  {
    hide Affordable, HistoryLinearizable, KeyLinearizable, Linearizable, Project, AllWell, KeepsUp, Share;
    var share, keyDeadline, ok := bud.Slice(remaining, clock.now, clock.later);
    ghost var left := bud.maxStates - bud.spent;
    if !ok {
      FewerKeys(left, remaining, equal, 0, left);
      return Exhausted;
    }
    ShareRange(left, remaining);
    ProjectWell(ops, key);
    KeyFacts(ops, key);
    var states;
    out, states := CheckKey(Project(ops, key), share, n => clock.tick(n) > keyDeadline, maxMemoBytes, hash);
    bud.Spend(states);
    FewerKeys(left, remaining, equal, share, left - states);
    if out.FoundViolation? {
      KeyRefutes(ops, key);
    }
    if out.Exhausted? && equal >= 1 && Affordable(Project(ops, key), equal, maxMemoBytes) {
      MoreIsAffordable(Project(ops, key), equal, share, maxMemoBytes);
    }
  }

  lemma ShareRange(left: int, remaining: int)
    requires left > 0
    ensures 1 <= Share(left, remaining) <= left
  {
  }

  /** Searches the keys one after the other. `StatusOk` and `StatusViolated` are facts
      about the whole history; an unfinished key only ever gives no conclusion, and
      no key is left unfinished when an equal share suffices for each. */
  method CheckOperations(ops: seq<Op>, maxStates: int, maxMemoBytes: int, deadline: int, clock: nat -> Clock,
                         hash: (Value, seq<bv64>) -> int)
    returns (status: Status, spent: int, ghost keys: seq<string>)
    requires AllWell(ops)
    ensures status == StatusOk ==> HistoryLinearizable(multiset(ops))
    ensures status == StatusViolated ==> !HistoryLinearizable(multiset(ops))
    ensures 0 <= spent <= if maxStates < 0 then 0 else maxStates
    ensures AreKeysOf(keys, ops)
    ensures status == StatusInconclusive && NeverExpires(deadline, clock, |keys|) ==>
      !AllAffordable(ops, keys, maxStates, maxMemoBytes)
  {
    hide Affordable, HistoryLinearizable, KeyLinearizable, Linearizable, Project, AllWell, KeepsUp;
    var todo := KeysOf(ops);
    keys := todo;
    var bud := new Budget(maxStates, deadline);
    var unfinished := false;
    ghost var equal := if |todo| > 0 then maxStates / |todo| else 0;
    StartKeepsUp(maxStates, |todo|, equal);
    for i := 0 to |todo|
      invariant bud.maxStates == maxStates && bud.deadline == deadline
      invariant 0 <= bud.spent <= if maxStates < 0 then 0 else maxStates
      invariant !unfinished ==> forall k :: k in todo[..i] ==> KeyLinearizable(ops, k)
      invariant unfinished && NeverExpires(deadline, clock, |todo|) ==>
        !AllAffordable(ops, todo, maxStates, maxMemoBytes)
      invariant KeepsUp(maxStates - bud.spent, |todo| - i, equal)
    {
      assert todo[..i + 1] == todo[..i] + [todo[i]];
      var out := NextKey(bud, ops, todo[i], |todo| - i, clock(i), maxMemoBytes, hash, equal);
      if out.FoundViolation? {
        return StatusViolated, bud.spent, keys;
      }
      if out.Exhausted? {
        NotAffordable(ops, todo, maxStates, maxMemoBytes);
        unfinished := true;
      }
    }
    assert todo[..|todo|] == todo;
    spent := bud.spent;
    if unfinished {
      return StatusInconclusive, spent, keys;
    }
    KeysProve(ops, todo);
    return StatusOk, spent, keys;
  }

  lemma StartKeepsUp(maxStates: int, n: nat, equal: int)
    requires equal == if n > 0 then maxStates / n else 0
    ensures KeepsUp(maxStates, n, equal)
  {
    if n > 0 { QuotientFits(maxStates, n); }
  }

  /** Two runs over the same operations may differ in their ceilings, their clocks and
      their memo, and one of them may give no conclusion; they never contradict. */
  method CheckTwice(ops: seq<Op>, maxStates: (int, int), maxMemoBytes: (int, int), deadline: (int, int),
                    clock: (nat -> Clock, nat -> Clock), hash: ((Value, seq<bv64>) -> int, (Value, seq<bv64>) -> int))
    returns (first: Status, second: Status)
    requires AllWell(ops)
    ensures !(first == StatusOk && second == StatusViolated)
    ensures !(first == StatusViolated && second == StatusOk)
  {
    hide HistoryLinearizable, AllAffordable, AllWell;
    var spent;
    ghost var keys;
    first, spent, keys := CheckOperations(ops, maxStates.0, maxMemoBytes.0, deadline.0, clock.0, hash.0);
    second, spent, keys := CheckOperations(ops, maxStates.1, maxMemoBytes.1, deadline.1, clock.1, hash.1);
  }

  // --- The whole checker --------------------------------------------------------------------

  lemma KeptOpsWell(raws: seq<RawOp>, ops: seq<Op>)
    requires (forall i :: 0 <= i < |raws| ==> SingleKeyed(raws[i])) && multiset(ops) == Kept(raws)
    ensures AllWell(ops)
  {
    KeptWellFormed(raws);
    forall op | op in ops ensures op.WellFormed() {
      assert op in multiset(ops);
    }
  }

  /** A search of what is kept of `raws` could run out of time, or need more states or memo
      than its keys can have. */
  ghost predicate MayRunOut(raws: seq<RawOp>, maxStates: int, maxMemoBytes: int, deadline: int, clock: nat -> Clock)
    requires Buildable(raws)
  {
    exists ops: seq<Op>, keys :: multiset(ops) == Kept(raws) && AreKeysOf(keys, ops)
      && !(NeverExpires(deadline, clock, |keys|) && AllAffordable(ops, keys, maxStates, maxMemoBytes))
  }

  ghost predicate OnlyWrites(raws: seq<RawOp>)
    requires Buildable(raws)
  {
    forall op :: op in Kept(raws) ==> op.kind == Write
  }

  /** From records to answer. A violation is a violation of what was recorded; ok is true
      of what was recorded unless a clamped completion does harm. No answer is given
      about a history without a determinate read, nor about one that cannot be paired or
      built; apart from these, only a ceiling or a clock keeps an answer back. */
  method CheckHistory(records: seq<Record>, readExpired: nat -> bool, maxStates: int, maxMemoBytes: int,
                      deadline: int, clock: nat -> Clock, hash: (Value, seq<bv64>) -> int)
    returns (status: Status)
    ensures status != StatusInconclusive ==>
      Load.Pairable(records) && Buildable(Load.History(records)) && !OnlyWrites(Load.History(records))
    ensures status == StatusViolated ==> !RawLinearizable(Load.History(records))
    ensures status == StatusOk && Harmless(Load.History(records)) ==> RawLinearizable(Load.History(records))
    ensures status == StatusInconclusive ==>
      || (exists n: nat :: readExpired(n))
      || !Load.Pairable(records) || !Buildable(Load.History(records)) || OnlyWrites(Load.History(records))
      || MayRunOut(Load.History(records), maxStates, maxMemoBytes, deadline, clock)
  {
    hide Load.Pairs, Load.Pairable, Load.History, SingleKeyed, BuildOf, HistoryLinearizable, RawLinearizable, Kept,
         AllWell, AllAffordable, Harmless, Load.Tallies, NeverExpires, AreKeysOf, Load.CountsFit, Load.RawsOf;
    var paired := Load.Pair(records, readExpired);
    if paired.Err? {
      return StatusInconclusive;
    }
    var raw, order := paired.value.raw, paired.value.order;
    Load.PairsAreHistory(records, raw, order);
    var refusal := Load.CheckPrecondition(raw, order);
    if refusal.Some? {
      ghost var id :| id in order && !SingleKeyed(raw[id]);
      Load.NotSingleKeyed(raw, order, id);
      return StatusInconclusive;
    }
    Load.PairedIsPairable(records, raw, order);
    var loaded := Load.BuildOperations(raw, order, paired.value.c);
    if loaded.Err? {
      return StatusInconclusive;
    }
    var ops := loaded.value.ops;
    KeptOpsWell(Load.History(records), ops);
    ghost var keys;
    var spent;
    status, spent, keys := CheckOperations(ops, maxStates, maxMemoBytes, deadline, clock, hash);
    Verdict(Load.History(records), ops, loaded.value.c);
  }

  /** What an answer about the checked operations says about the recorded history. */
  lemma Verdict(raws: seq<RawOp>, ops: seq<Op>, c: Load.Counts)
    requires Buildable(raws) && multiset(ops) == Kept(raws) && Load.CountsFit(c, ops) && c.detReads > 0
    ensures !HistoryLinearizable(multiset(ops)) ==> !RawLinearizable(raws)
    ensures HistoryLinearizable(multiset(ops)) && Harmless(raws) ==> RawLinearizable(raws)
    ensures !OnlyWrites(raws)
  {
    hide HistoryLinearizable, RawLinearizable, Kept, SingleKeyed, BuildOf, Harmless;
    if RawLinearizable(raws) {
      RulesLoseNoExplanation(raws);
    }
    if Harmless(raws) {
      RulesAreExact(raws);
    }
    var op :| op in ops && op.kind == Read;
    assert op in multiset(ops);
  }
}
