/** The order the search's events are sorted into, with each operation's call and return in their
    places. */
module EventList {
  import opened Register

  /** An interval opens (`!isReturn`) or closes (`isReturn`). */
  datatype Event = Event(rank: int, ts: int, isReturn: bool, idx: nat)

  function CallEvent(op: Op, idx: nat): Event {
    Event(if op.openAtStart then 0 else 1, op.invokeNS, false, idx)
  }

  function ReturnEvent(op: Op, idx: nat): Event {
    Event(if op.openAtEnd then 2 else 1, op.returnNS, true, idx)
  }

  predicate Less(x: Event, y: Event) {
    if x.rank != y.rank then x.rank < y.rank
    else if x.rank == 1 && x.ts != y.ts then x.ts < y.ts
    else if x.isReturn != y.isReturn then !x.isReturn
    else x.idx < y.idx
  }

  ghost predicate Sorted(evs: seq<Event>) {
    forall p, q :: 0 <= p < q < |evs| ==> Less(evs[p], evs[q])
  }

  /** No two events are the same end of the same operation. */
  ghost predicate Distinct(evs: seq<Event>) {
    forall p, q :: 0 <= p < q < |evs| ==> evs[p].idx != evs[q].idx || evs[p].isReturn != evs[q].isReturn
  }

  ghost predicate SameEvents(a: seq<Event>, b: seq<Event>) {
    |a| == |b| && forall e :: e in a <==> e in b
  }

  function Insert(e: Event, evs: seq<Event>): seq<Event> {
    if evs == [] || Less(e, evs[0]) then [e] + evs else [evs[0]] + Insert(e, evs[1..])
  }

  /** Stands for the library sort, which is given the total order `Less`. */
  function Sort(evs: seq<Event>): seq<Event> {
    if evs == [] then [] else Insert(evs[0], Sort(evs[1..]))
  }

  lemma {:induction false} InsertMembers(e: Event, evs: seq<Event>)
    ensures |Insert(e, evs)| == |evs| + 1
    ensures forall x :: x in Insert(e, evs) <==> x == e || x in evs
  {
    if evs != [] && !Less(e, evs[0]) {
      InsertMembers(e, evs[1..]);
      assert evs == [evs[0]] + evs[1..];
    }
  }

  lemma {:induction false} InsertSorts(e: Event, evs: seq<Event>)
    requires Sorted(evs)
    requires forall x :: x in evs ==> x.idx != e.idx || x.isReturn != e.isReturn
    ensures Sorted(Insert(e, evs))
  {
    var r := Insert(e, evs);
    if evs == [] {
    } else if Less(e, evs[0]) {
      assert r[1..] == evs;
      forall p, q | 0 <= p < q < |r| ensures Less(r[p], r[q]) {
        assert r[q] == evs[q - 1];
        if p > 0 { assert r[p] == evs[p - 1]; }
      }
    } else {
      var rest := evs[1..];
      assert Sorted(rest);
      InsertSorts(e, rest);
      InsertMembers(e, rest);
      forall x | x in Insert(e, rest) ensures Less(evs[0], x) {
        assert evs[0] in evs;
        if x != e {
          var i :| 0 <= i < |rest| && rest[i] == x;
          assert evs[i + 1] == x;
        }
      }
      forall p, q | 0 <= p < q < |r| ensures Less(r[p], r[q]) {
        assert r[q] == Insert(e, rest)[q - 1];
        if p > 0 { assert r[p] == Insert(e, rest)[p - 1]; }
      }
    }
  }

  lemma {:induction false} SortCorrect(evs: seq<Event>)
    requires Distinct(evs)
    ensures Sorted(Sort(evs)) && SameEvents(Sort(evs), evs)
  {
    if evs != [] {
      var rest := evs[1..];
      assert forall p :: 0 <= p < |rest| ==> rest[p] == evs[p + 1];
      assert Distinct(rest);
      SortCorrect(rest);
      InsertMembers(evs[0], Sort(rest));
      forall x | x in Sort(rest) ensures x.idx != evs[0].idx || x.isReturn != evs[0].isReturn {
        var i :| 0 <= i < |rest| && rest[i] == x;
        assert evs[i + 1] == x;
      }
      InsertSorts(evs[0], Sort(rest));
      assert evs == [evs[0]] + rest;
    }
  }

  // --- Positions on the list ----------------------------------------------------

  /** The sorted events of `ops` with the place of each call and return on the
      list. Place 0 is the head sentinel and the last place is the tail. */
  datatype Track = Track(ops: seq<Op>, evs: seq<Event>, call: seq<nat>, ret: seq<nat>) {

    function Last(): nat { |evs| + 1 }

    predicate Inner(p: nat) { 0 < p < Last() }

    function At(p: nat): Event requires Inner(p) { evs[p - 1] }

    ghost predicate Valid() {
      && |call| == |ret| == |ops| && |evs| == 2 * |ops|
      && Sorted(evs)
      && (forall i :: 0 <= i < |ops| ==> ops[i].WellFormed())
      && (forall i :: 0 <= i < |ops| ==> Inner(call[i]) && At(call[i]) == CallEvent(ops[i], i))
      && (forall i :: 0 <= i < |ops| ==> Inner(ret[i]) && At(ret[i]) == ReturnEvent(ops[i], i))
      && (forall p :: Inner(p) ==> At(p).idx < |ops| && p == Place(At(p)))
    }

    /** Where an event of these operations stands. */
    function Place(e: Event): nat
      requires e.idx < |call| == |ret|
    {
      if e.isReturn then ret[e.idx] else call[e.idx]
    }
  }

  lemma PlacesSorted(t: Track, p: nat, q: nat)
    requires Sorted(t.evs) && t.Inner(p) && t.Inner(q) && p < q
    ensures Less(t.At(p), t.At(q))
  {
  }

  /** On the initial list a return stands before another operation's call exactly
      when it is strictly earlier in real time; an operation's own call stands
      before its return. */
  lemma ReturnBeforeCall(t: Track, i: nat, j: nat)
    requires t.Valid() && i < |t.ops| && j < |t.ops|
    ensures t.call[i] < t.ret[i]
    ensures i != j ==> (t.ret[j] < t.call[i] <==> MustPrecede(t.ops[j], t.ops[i]))
  {
    var c, own, r := t.call[i], t.ret[i], t.ret[j];
    assert t.At(c) == CallEvent(t.ops[i], i) && t.At(own) == ReturnEvent(t.ops[i], i);
    assert t.At(r) == ReturnEvent(t.ops[j], j);
    if own <= c {
      if own < c { PlacesSorted(t, own, c); }
      assert false;
    }
    if r < c { PlacesSorted(t, r, c); }
    if c < r { PlacesSorted(t, c, r); }
  }

  lemma OnePlace(t: Track, p: nat, q: nat)
    requires Sorted(t.evs) && t.Inner(p) && t.Inner(q) && t.At(p) == t.At(q)
    ensures p == q
  {
    if p < q { PlacesSorted(t, p, q); }
    if q < p { PlacesSorted(t, q, p); }
  }

  function Events(ops: seq<Op>): seq<Event> {
    if ops == [] then []
    else
      var i := |ops| - 1;
      Events(ops[..i]) + [CallEvent(ops[i], i), ReturnEvent(ops[i], i)]
  }

  lemma {:induction false} EventsAt(ops: seq<Op>, i: nat)
    requires i < |ops|
    ensures |Events(ops)| == 2 * |ops|
    ensures Events(ops)[2 * i] == CallEvent(ops[i], i) && Events(ops)[2 * i + 1] == ReturnEvent(ops[i], i)
  {
    var n := |ops| - 1;
    if n > 0 {
      EventsAt(ops[..n], if i < n then i else 0);
    }
  }

  lemma EventsDistinct(ops: seq<Op>)
    ensures |Events(ops)| == 2 * |ops|
    ensures Distinct(Events(ops))
    ensures forall e :: e in Events(ops) ==>
              e.idx < |ops| && e == if e.isReturn then ReturnEvent(ops[e.idx], e.idx) else CallEvent(ops[e.idx], e.idx)
  {
    if ops != [] { EventsAt(ops, 0); }
    forall p | 0 <= p < 2 * |ops|
      ensures Events(ops)[p] == if p % 2 == 1 then ReturnEvent(ops[p / 2], p / 2) else CallEvent(ops[p / 2], p / 2)
    {
      EventsAt(ops, p / 2);
    }
  }

  ghost function PlaceOf(evs: seq<Event>, e: Event): (p: nat)
    requires e in evs
    ensures 0 < p <= |evs| && evs[p - 1] == e
  {
    var i :| 0 <= i < |evs| && evs[i] == e;
    i + 1
  }

  lemma SortedEvents(ops: seq<Op>)
    ensures var evs := Sort(Events(ops));
      && |evs| == 2 * |ops| && Sorted(evs)
      && (forall e :: e in evs ==>
            e.idx < |ops| && e == if e.isReturn then ReturnEvent(ops[e.idx], e.idx) else CallEvent(ops[e.idx], e.idx))
      && (forall i :: 0 <= i < |ops| ==> CallEvent(ops[i], i) in evs && ReturnEvent(ops[i], i) in evs)
  {
    EventsDistinct(ops);
    SortCorrect(Events(ops));
    forall i | 0 <= i < |ops| ensures CallEvent(ops[i], i) in Events(ops) && ReturnEvent(ops[i], i) in Events(ops) {
      EventsAt(ops, i);
      assert Events(ops)[2 * i] in Events(ops) && Events(ops)[2 * i + 1] in Events(ops);
    }
  }

  /** Sorting the events of well-formed operations gives a valid track. */
  lemma TrackOf(ops: seq<Op>) returns (t: Track)
    requires forall i :: 0 <= i < |ops| ==> ops[i].WellFormed()
    ensures t.Valid() && t.ops == ops && t.evs == Sort(Events(ops))
  {
    SortedEvents(ops);
    hide Less, Sort, Events, Sorted, Op.WellFormed, PlaceOf;
    var evs := Sort(Events(ops));
    var call := seq(|ops|, i requires 0 <= i < |ops| => PlaceOf(evs, CallEvent(ops[i], i)));
    var ret := seq(|ops|, i requires 0 <= i < |ops| => PlaceOf(evs, ReturnEvent(ops[i], i)));
    t := Track(ops, evs, call, ret);
    forall i | 0 <= i < |ops| ensures t.Inner(call[i]) && t.At(call[i]) == CallEvent(ops[i], i) {
    }
    forall i | 0 <= i < |ops| ensures t.Inner(ret[i]) && t.At(ret[i]) == ReturnEvent(ops[i], i) {
    }
    forall p: nat | t.Inner(p) ensures t.At(p).idx < |ops| && p == t.Place(t.At(p)) {
      var e := t.At(p);
      assert e in evs;
      assert t.At(t.Place(e)) == e;
      OnePlace(t, p, t.Place(e));
    }
  }
}
