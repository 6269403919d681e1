/** Locality (Herlihy and Wing 1990, Theorem 1): keys can be checked one by one. */
module Locality {
  import opened Register

  /** The registers of all keys; a key that is absent is undetermined. */
  type Store = map<string, Value>

  function Get(store: Store, key: string): Value {
    if key in store then store[key] else Unknown
  }

  /** `order` is a sequential run over all the registers together. */
  ghost predicate LegalStore(order: seq<Op>, store: Store) {
    if order == [] then true
    else
      var op, rest := order[0], order[1..];
      match op.kind
      case Read =>
        && (Get(store, op.key).Unknown? || Get(store, op.key) == Known(op.value))
        && LegalStore(rest, store[op.key := Known(op.value)])
      case Write =>
        || LegalStore(rest, store[op.key := Known(op.value)])
        || (op.maybe && LegalStore(rest, store))
  }

  ghost predicate IsHistoryLinearization(order: seq<Op>, ops: multiset<Op>) {
    multiset(order) == ops && RespectsRealTime(order) && LegalStore(order, map[])
  }

  /** One order of every operation on every key explains the whole history. */
  ghost predicate HistoryLinearizable(ops: multiset<Op>) {
    exists order :: IsHistoryLinearization(order, ops)
  }

  /** The operations of one key, in the order given. */
  function Project(ops: seq<Op>, key: string): seq<Op> {
    if ops == [] then []
    else (if ops[0].key == key then [ops[0]] else []) + Project(ops[1..], key)
  }

  ghost predicate KeyLinearizable(ops: seq<Op>, key: string) {
    Linearizable(multiset(Project(ops, key)))
  }

  lemma ProjectHead(ops: seq<Op>, key: string)
    requires ops != []
    ensures ops[0].key == key ==>
              && Project(ops, key) != [] && Project(ops, key)[0] == ops[0]
              && Project(ops, key)[1..] == Project(ops[1..], key)
    ensures ops[0].key != key ==> Project(ops, key) == Project(ops[1..], key)
  {
  }

  lemma {:induction false} ProjectMultiset(ops: seq<Op>, key: string, op: Op)
    ensures multiset(Project(ops, key))[op] == if op.key == key then multiset(ops)[op] else 0
  {
    if ops != [] {
      ProjectMultiset(ops[1..], key, op);
      assert ops == [ops[0]] + ops[1..];
    }
  }

  lemma ProjectSameMultiset(a: seq<Op>, b: seq<Op>, key: string)
    requires multiset(a) == multiset(b)
    ensures multiset(Project(a, key)) == multiset(Project(b, key))
  {
    forall op ensures multiset(Project(a, key))[op] == multiset(Project(b, key))[op] {
      ProjectMultiset(a, key, op);
      ProjectMultiset(b, key, op);
    }
  }

  lemma ProjectMember(ops: seq<Op>, key: string, op: Op)
    ensures op in Project(ops, key) <==> op in ops && op.key == key
  {
    ProjectMultiset(ops, key, op);
    assert op in Project(ops, key) <==> op in multiset(Project(ops, key));
    assert op in ops <==> op in multiset(ops);
  }

  lemma {:induction false} ProjectRealTime(order: seq<Op>, key: string)
    requires RespectsRealTime(order)
    ensures RespectsRealTime(Project(order, key))
  {
    if order != [] {
      RealTimeHead(order);
      ProjectRealTime(order[1..], key);
      if order[0].key == key {
        var p := Project(order, key);
        ProjectHead(order, key);
        forall o | o in p[1..] ensures !MustPrecede(o, order[0]) {
          ProjectMember(order[1..], key, o);
        }
        RealTimeHead(p);
      }
    }
  }

  // --- The store is nothing but one register per key ---------------------------

  ghost predicate LegalPerKey(order: seq<Op>, store: Store) {
    forall key :: LegalFrom(Project(order, key), Get(store, key))
  }

  lemma {:induction false} StoreRunIsLegalPerKey(order: seq<Op>, store: Store)
    requires LegalStore(order, store)
    ensures LegalPerKey(order, store)
  {
    if order != [] {
      var op, rest := order[0], order[1..];
      var written := op.kind == Read || LegalStore(rest, store[op.key := Known(op.value)]);
      var next := if written then store[op.key := Known(op.value)] else store;
      StoreRunIsLegalPerKey(rest, next);
      forall key ensures LegalFrom(Project(order, key), Get(store, key)) {
        assert LegalFrom(Project(rest, key), Get(next, key));
        ProjectHead(order, key);
      }
    }
  }

  lemma {:induction false} LegalPerKeyIsStoreRun(order: seq<Op>, store: Store)
    requires LegalPerKey(order, store)
    ensures LegalStore(order, store)
  {
    if order != [] {
      var op, rest := order[0], order[1..];
      var mine := Project(order, op.key);
      assert LegalFrom(mine, Get(store, op.key));
      ProjectHead(order, op.key);
      var written := op.kind == Read || LegalFrom(mine[1..], Known(op.value));
      var next := if written then store[op.key := Known(op.value)] else store;
      forall key ensures LegalFrom(Project(rest, key), Get(next, key)) {
        assert LegalFrom(Project(order, key), Get(store, key));
        ProjectHead(order, key);
      }
      LegalPerKeyIsStoreRun(rest, next);
    }
  }

  // --- Merging one order per key into one order --------------------------------

  /** `a` is closed before `b` is, or at the same instant. */
  ghost predicate ClosesFirst(a: Op, b: Op) {
    b.openAtEnd || (!a.openAtEnd && a.returnNS <= b.returnNS)
  }

  lemma {:induction false} FirstToClose(ops: multiset<Op>) returns (m: Op)
    requires ops != multiset{}
    ensures m in ops && forall o :: o in ops ==> ClosesFirst(m, o)
    decreases |ops|
  {
    var x :| x in ops;
    var rest := ops - multiset{x};
    if rest == multiset{} {
      m := x;
      assert ops == multiset{x};
    } else {
      var y := FirstToClose(rest);
      m := if ClosesFirst(x, y) then x else y;
      forall o | o in ops ensures ClosesFirst(m, o) {
        assert o == x || o in rest;
      }
    }
  }

  /** `part` is the operations of `key` among `pending`, in an order that
      respects real time. */
  ghost predicate IsPart(part: seq<Op>, key: string, pending: multiset<Op>) {
    && RespectsRealTime(part)
    && (forall op: Op :: multiset(part)[op] == if op.key == key then pending[op] else 0)
  }

  /** `parts` splits `pending` by key. */
  ghost predicate Parts(parts: map<string, seq<Op>>, pending: multiset<Op>) {
    && (forall op :: op in pending ==> op.key in parts && op.WellFormed())
    && (forall key :: key in parts ==> IsPart(parts[key], key, pending))
  }

  lemma PartMember(part: seq<Op>, key: string, pending: multiset<Op>, op: Op)
    requires IsPart(part, key, pending)
    ensures op in part <==> op in pending && op.key == key
  {
    assert op in part <==> op in multiset(part);
    assert multiset(part)[op] == if op.key == key then pending[op] else 0;
  }

  lemma PartTail(part: seq<Op>, key: string, pending: multiset<Op>)
    requires IsPart(part, key, pending) && part != []
    ensures IsPart(part[1..], key, pending - multiset{part[0]})
  {
    PartMember(part, key, pending, part[0]);
    MultisetHead(part);
    RealTimeHead(part);
  }

  lemma OtherPart(part: seq<Op>, key: string, pending: multiset<Op>, op: Op)
    requires IsPart(part, key, pending) && op.key != key
    ensures IsPart(part, key, pending - multiset{op})
  {
  }

  /** The head of the part that holds the first operation to close may come
      before everything else that is pending, on any key. */
  lemma HeadMayComeFirst(part: seq<Op>, pending: multiset<Op>, m: Op)
    requires IsPart(part, m.key, pending) && m in pending && m.WellFormed()
    requires forall o :: o in pending ==> ClosesFirst(m, o)
    ensures part != [] && part[0] in pending && part[0].key == m.key
    ensures MayComeFirst(part[0], pending)
  {
    PartMember(part, m.key, pending, m);
    var i :| 0 <= i < |part| && part[i] == m;
    var head := part[0];
    PartMember(part, m.key, pending, head);
    assert !MustPrecede(m, head);
    forall o | o in pending - multiset{head} ensures !MustPrecede(o, head) {
      assert ClosesFirst(m, o);
    }
  }

  lemma PartsAfter(parts: map<string, seq<Op>>, pending: multiset<Op>, key: string)
    requires Parts(parts, pending) && key in parts && parts[key] != [] && parts[key][0].key == key
    ensures Parts(parts[key := parts[key][1..]], pending - multiset{parts[key][0]})
  {
    var parts', pending' := parts[key := parts[key][1..]], pending - multiset{parts[key][0]};
    forall k | k in parts' ensures IsPart(parts'[k], k, pending') {
      if k == key {
        PartTail(parts[key], key, pending);
      } else {
        OtherPart(parts[k], k, pending, parts[key][0]);
      }
    }
  }

  lemma PrependRealTime(head: Op, tail: seq<Op>, pending: multiset<Op>)
    requires head in pending && multiset(tail) == pending - multiset{head}
    requires MayComeFirst(head, pending) && RespectsRealTime(tail)
    ensures RespectsRealTime([head] + tail) && multiset([head] + tail) == pending
  {
    var order := [head] + tail;
    assert order[1..] == tail;
    forall o | o in tail ensures !MustPrecede(o, head) {
      assert o in multiset(tail);
    }
    RealTimeHead(order);
  }

  /** The next operation of the merged order, and what is left to merge. */
  lemma MergeNext(parts: map<string, seq<Op>>, pending: multiset<Op>) returns (key: string)
    requires Parts(parts, pending) && pending != multiset{}
    ensures key in parts && parts[key] != []
    ensures parts[key][0] in pending && MayComeFirst(parts[key][0], pending)
    ensures parts[key][0].key == key
    ensures Parts(parts[key := parts[key][1..]], pending - multiset{parts[key][0]})
  {
    var m := FirstToClose(pending);
    key := m.key;
    HeadMayComeFirst(parts[key], pending, m);
    PartsAfter(parts, pending, key);
  }

  ghost predicate Merged(order: seq<Op>, parts: map<string, seq<Op>>) {
    forall key :: key in parts ==> Project(order, key) == parts[key]
  }

  lemma MergedHead(head: Op, tail: seq<Op>, parts: map<string, seq<Op>>)
    requires head.key in parts && parts[head.key] != [] && parts[head.key][0] == head
    requires Merged(tail, parts[head.key := parts[head.key][1..]])
    ensures Merged([head] + tail, parts)
  {
    var order, parts' := [head] + tail, parts[head.key := parts[head.key][1..]];
    assert order[1..] == tail;
    forall key | key in parts ensures Project(order, key) == parts[key] {
      ProjectHead(order, key);
      assert key in parts' && Project(tail, key) == parts'[key];
    }
  }

  lemma NothingToMerge(parts: map<string, seq<Op>>)
    requires Parts(parts, multiset{})
    ensures Merged([], parts) && RespectsRealTime([])
  {
    forall key | key in parts ensures parts[key] == [] {
      if parts[key] != [] {
        PartMember(parts[key], key, multiset{}, parts[key][0]);
      }
    }
  }

  lemma {:induction false} Merge(parts: map<string, seq<Op>>, pending: multiset<Op>) returns (order: seq<Op>)
    requires Parts(parts, pending)
    ensures multiset(order) == pending && RespectsRealTime(order) && Merged(order, parts)
    decreases |pending|
  {
    hide Parts, MayComeFirst, RespectsRealTime, Merged;
    if pending == multiset{} {
      order := [];
      NothingToMerge(parts);
    } else {
      var key := MergeNext(parts, pending);
      var head := parts[key][0];
      var tail := Merge(parts[key := parts[key][1..]], pending - multiset{head});
      PrependRealTime(head, tail, pending);
      MergedHead(head, tail, parts);
      order := [head] + tail;
    }
  }

  // --- The theorem ---------------------------------------------------------------

  lemma HistoryImpliesKey(ops: seq<Op>, key: string)
    requires HistoryLinearizable(multiset(ops))
    ensures KeyLinearizable(ops, key)
  {
    var order :| IsHistoryLinearization(order, multiset(ops));
    StoreRunIsLegalPerKey(order, map[]);
    ProjectRealTime(order, key);
    ProjectSameMultiset(order, ops, key);
    assert LegalFrom(Project(order, key), Get(map[], key));
    assert IsLinearization(Project(order, key), multiset(Project(ops, key)), Unknown);
  }

  ghost function SomeLinearization(ops: seq<Op>, key: string): (order: seq<Op>)
    requires KeyLinearizable(ops, key)
    ensures IsLinearization(order, multiset(Project(ops, key)), Unknown)
  {
    var order :| IsLinearization(order, multiset(Project(ops, key)), Unknown);
    order
  }

  lemma LinearizationIsPart(ops: seq<Op>, key: string, order: seq<Op>)
    requires IsLinearization(order, multiset(Project(ops, key)), Unknown)
    ensures IsPart(order, key, multiset(ops))
  {
    forall op: Op ensures multiset(order)[op] == if op.key == key then multiset(ops)[op] else 0 {
      ProjectMultiset(ops, key, op);
    }
  }

  /** One linearization per key, as the parts to merge. */
  lemma LinearizationsOf(ops: seq<Op>, keys: set<string>) returns (parts: map<string, seq<Op>>)
    requires forall op :: op in ops ==> op.key in keys && op.WellFormed()
    requires forall key :: key in keys ==> KeyLinearizable(ops, key)
    ensures parts.Keys == keys && Parts(parts, multiset(ops))
    ensures forall key :: key in keys ==> LegalFrom(parts[key], Unknown)
  {
    parts := map key | key in keys :: SomeLinearization(ops, key);
    forall key | key in parts ensures IsPart(parts[key], key, multiset(ops)) {
      LinearizationIsPart(ops, key, parts[key]);
    }
  }

  lemma MergedIsLegal(order: seq<Op>, parts: map<string, seq<Op>>)
    requires Merged(order, parts)
    requires forall key :: key in parts ==> LegalFrom(parts[key], Unknown)
    requires forall op :: op in order ==> op.key in parts
    ensures LegalStore(order, map[])
  {
    forall key ensures LegalFrom(Project(order, key), Get(map[], key)) {
      if key in parts {
        assert Project(order, key) == parts[key];
      } else if Project(order, key) != [] {
        ProjectMember(order, key, Project(order, key)[0]);
      }
    }
    LegalPerKeyIsStoreRun(order, map[]);
  }

  lemma KeysImplyHistory(ops: seq<Op>)
    requires forall op :: op in ops ==> op.WellFormed()
    requires forall op :: op in ops ==> KeyLinearizable(ops, op.key)
    ensures HistoryLinearizable(multiset(ops))
  {
    var keys := set op | op in ops :: op.key;
    var parts := LinearizationsOf(ops, keys);
    var order := Merge(parts, multiset(ops));
    forall op | op in order ensures op.key in parts {
      assert op in multiset(order);
    }
    MergedIsLegal(order, parts);
    assert IsHistoryLinearization(order, multiset(ops));
  }

  /** The whole history is linearizable iff every key's operations are. */
  lemma LocalityTheorem(ops: seq<Op>)
    requires forall op :: op in ops ==> op.WellFormed()
    ensures HistoryLinearizable(multiset(ops)) <==> forall key :: KeyLinearizable(ops, key)
  {
    if HistoryLinearizable(multiset(ops)) {
      forall key ensures KeyLinearizable(ops, key) {
        HistoryImpliesKey(ops, key);
      }
    }
    if forall key :: KeyLinearizable(ops, key) {
      KeysImplyHistory(ops);
    }
  }
}
