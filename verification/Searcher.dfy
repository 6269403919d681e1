/** The search with its real data structures: linked nodes, a stack, a bitset and a bounded memo,
    refining the search tree. */
module Search {
  import opened Register
  import opened EventList
  import opened LinkTable
  import opened SearchTree
  import opened Bitset
  import opened Memoisation
  import opened Counting

  /** One event on the linked list. A call and its return are mates. */
  class Node {
    var prev: Node?
    var next: Node?
    var mate: Node?
    const isReturn: bool
    const idx: nat

    constructor (isReturn: bool, idx: nat)
      ensures this.isReturn == isReturn && this.idx == idx
      ensures prev == null && next == null && mate == null
    {
      this.isReturn, this.idx := isReturn, idx;
      prev, next, mate := null, null, null;
    }

    /** Join the neighbours past this node. */
    method Bypass(ghost nodes: seq<Node>, ghost k: Links, ghost x: nat)
      requires Threads(nodes, k) && HasNeighbours(k, x) && nodes[x] == this
      modifies nodes`next, nodes`prev
      ensures Threads(nodes, Unlink(k, x))
    {
      ghost var a, b := k.prev[x], k.next[x];
      assert prev == nodes[a] && next == nodes[b];
      prev.next := next;
      next.prev := prev;
      forall p | 0 <= p < |nodes|
        ensures nodes[p].next == Target(nodes, Unlink(k, x).next[p])
        ensures nodes[p].prev == Target(nodes, Unlink(k, x).prev[p])
      {
        assert p != a ==> nodes[p] != nodes[a];
        assert p != b ==> nodes[p] != nodes[b];
      }
    }

    /** Join the remembered neighbours to this node again. */
    method Rejoin(ghost nodes: seq<Node>, ghost k: Links, ghost x: nat)
      requires Threads(nodes, k) && HasNeighbours(k, x) && nodes[x] == this
      modifies nodes`next, nodes`prev
      ensures Threads(nodes, Relink(k, x))
    {
      ghost var a, b := k.prev[x], k.next[x];
      assert prev == nodes[a] && next == nodes[b];
      prev.next := this;
      next.prev := this;
      forall p | 0 <= p < |nodes|
        ensures nodes[p].next == Target(nodes, Relink(k, x).next[p])
        ensures nodes[p].prev == Target(nodes, Relink(k, x).prev[p])
      {
        assert p != a ==> nodes[p] != nodes[a];
        assert p != b ==> nodes[p] != nodes[b];
      }
    }

    method Lift(ghost nodes: seq<Node>, ghost k: Links, ghost call: nat, ghost ret: nat)
      requires Threads(nodes, k) && call < |nodes| && ret < |nodes|
      requires nodes[call] == this && mate == nodes[ret]
      requires HasNeighbours(k, call) && HasNeighbours(Unlink(k, call), ret)
      modifies nodes`next, nodes`prev
      ensures Threads(nodes, Lifted(k, call, ret))
    {
      hide Threads, HasNeighbours, Unlink;
      Bypass(nodes, k, call);
      mate.Bypass(nodes, Unlink(k, call), ret);
    }

    method Unlift(ghost nodes: seq<Node>, ghost k: Links, ghost call: nat, ghost ret: nat)
      requires Threads(nodes, k) && call < |nodes| && ret < |nodes|
      requires nodes[call] == this && mate == nodes[ret]
      requires HasNeighbours(k, ret) && HasNeighbours(Relink(k, ret), call)
      modifies nodes`next, nodes`prev
      ensures Threads(nodes, Unlifted(k, call, ret))
    {
      hide Threads, HasNeighbours, Relink;
      mate.Rejoin(nodes, k, ret);
      Rejoin(nodes, Relink(k, ret), call);
    }
  }

  ghost function Target(nodes: seq<Node>, place: int): Node? {
    if 0 <= place < |nodes| then nodes[place] else null
  }

  /** The pointers of the nodes are those of the table `k`. */
  ghost predicate Threads(nodes: seq<Node>, k: Links)
    reads nodes`next, nodes`prev
  {
    && |k.next| == |k.prev| == |nodes|
    && (forall p, q :: 0 <= p < q < |nodes| ==> nodes[p] != nodes[q])
    && (forall p :: 0 <= p < |nodes| ==> nodes[p].next == Target(nodes, k.next[p]))
    && (forall p :: 0 <= p < |nodes| ==> nodes[p].prev == Target(nodes, k.prev[p]))
  }

  // --- Building the list --------------------------------------------------------------

  /** The first `k` events are threaded behind the head, and `tail` ends the list. */
  ghost predicate Chained(nodes: seq<Node>, tail: Node, k: nat)
    reads nodes`next, nodes`prev, tail`next, tail`prev
  {
    && |nodes| == k + 1 && tail !in nodes
    && (forall p, q :: 0 <= p < q < |nodes| ==> nodes[p] != nodes[q])
    && (forall p :: 0 <= p < k ==> nodes[p].next == nodes[p + 1])
    && (forall p :: 0 < p <= k ==> nodes[p].prev == nodes[p - 1])
    && nodes[0].prev == null && nodes[k].next == tail && tail.prev == nodes[k] && tail.next == null
  }

  /** Puts `n` between the end of the chain and the tail. */
  method Append(n: Node, cur: Node, tail: Node, ghost nodes: seq<Node>, ghost k: nat)
    requires Chained(nodes, tail, k) && n !in nodes && n != tail && cur == nodes[k]
    modifies n`next, n`prev, cur`next, tail`prev
    ensures Chained(nodes + [n], tail, k + 1)
  {
    n.prev, n.next := cur, tail;
    cur.next, tail.prev := n, n;
    assert n.next == tail && n.prev == cur;
    ghost var all := nodes + [n];
    forall p | 0 <= p < k + 1 ensures all[p].next == all[p + 1] {
      assert p < k ==> nodes[p] != nodes[k];
    }
    forall p | 0 < p <= k + 1 ensures all[p].prev == all[p - 1] {
    }
  }

  lemma ChainedThreads(nodes: seq<Node>, tail: Node, k: nat)
    requires Chained(nodes, tail, k)
    ensures Threads(nodes + [tail], Initial(k + 1))
  {
    var all, links := nodes + [tail], Initial(k + 1);
    forall p | 0 <= p < |all|
      ensures all[p].next == Target(all, links.next[p]) && all[p].prev == Target(all, links.prev[p])
    {
    }
  }

  ghost predicate Carries(nodes: seq<Node>, evs: seq<Event>, k: nat) {
    k <= |evs| && k < |nodes| && forall p :: 0 < p <= k ==>
      nodes[p].isReturn == evs[p - 1].isReturn && nodes[p].idx == evs[p - 1].idx
  }

  /** The node of each call and of each return that has been threaded so far. */
  ghost predicate Indexed(calls: seq<Node?>, rets: seq<Node?>, nodes: seq<Node>, k: nat)
    requires k < |nodes|
  {
    forall p :: 0 < p <= k ==>
      nodes[p].idx < |calls| == |rets| &&
        nodes[p] == if nodes[p].isReturn then rets[nodes[p].idx] else calls[nodes[p].idx]
  }

  lemma NextIndexed(t: Track, calls: seq<Node?>, rets: seq<Node?>, nodes: seq<Node>, k: nat, n: Node)
    requires t.Valid() && k < |t.evs| && |nodes| == k + 1 && |calls| == |rets| == |t.ops|
    requires Carries(nodes, t.evs, k) && Indexed(calls, rets, nodes, k)
    requires n.isReturn == t.evs[k].isReturn && n.idx == t.evs[k].idx
    ensures n.idx < |t.ops| && Carries(nodes + [n], t.evs, k + 1)
    ensures Indexed(if n.isReturn then calls else calls[n.idx := n], if n.isReturn then rets[n.idx := n] else rets,
                    nodes + [n], k + 1)
  {
    assert t.Inner(k + 1) && t.At(k + 1) == t.evs[k];
    forall p: nat | 0 < p <= k ensures nodes[p].idx != n.idx || nodes[p].isReturn != n.isReturn {
      assert t.Inner(p) && t.At(p) == t.evs[p - 1];
      assert p == t.Place(t.At(p)) && k + 1 == t.Place(t.At(k + 1));
    }
  }

  method EmptyChain() returns (head: Node, tail: Node)
    ensures Chained([head], tail, 0) && fresh(head) && fresh(tail)
  {
    head := new Node(false, 0);
    tail := new Node(false, 0);
    head.next, tail.prev := tail, head;
  }

  /** Makes the node of one event, indexes it and appends it to the list. */
  method AddEvent(e: Event, cur: Node, tail: Node, calls: array<Node?>, rets: array<Node?>,
                  ghost nodes: seq<Node>, ghost k: nat, ghost t: Track) returns (node: Node)
    requires t.Valid() && k < |t.evs| && e == t.evs[k] && calls.Length == rets.Length == |t.ops| && calls != rets
    requires Chained(nodes, tail, k) && |nodes| == k + 1 && cur == nodes[k]
    requires Carries(nodes, t.evs, k) && Indexed(calls[..], rets[..], nodes, k)
    modifies cur`next, tail`prev, calls, rets
    ensures fresh(node) && Chained(nodes + [node], tail, k + 1)
    ensures Carries(nodes + [node], t.evs, k + 1) && Indexed(calls[..], rets[..], nodes + [node], k + 1)
  {
    hide Track.Valid, Carries, Indexed;
    node := new Node(e.isReturn, e.idx);
    NextIndexed(t, calls[..], rets[..], nodes, k, node);
    if node.isReturn {
      rets[node.idx] := node;
    } else {
      calls[node.idx] := node;
    }
    Append(node, cur, tail, nodes, k);
  }

  method ThreadEvents(evs: seq<Event>, n: nat, ghost t: Track)
    returns (head: Node, tail: Node, ghost nodes: seq<Node>, calls: array<Node?>, rets: array<Node?>)
    requires t.Valid() && t.evs == evs && |t.ops| == n
    ensures Chained(nodes, tail, |evs|) && |nodes| == |evs| + 1
    ensures nodes[0] == head && Carries(nodes, evs, |evs|)
    ensures calls.Length == rets.Length == n && calls != rets && Indexed(calls[..], rets[..], nodes, |evs|)
    ensures fresh(tail) && fresh(calls) && fresh(rets) && forall p :: 0 <= p < |nodes| ==> fresh(nodes[p])
  {
    head, tail := EmptyChain();
    calls := new Node?[n](_ => null);
    rets := new Node?[n](_ => null);
    var cur := head;
    nodes := [head];
    assert Chained(nodes, tail, 0);
    hide Track.Valid, Carries, Indexed, Chained;
    StartIndexed(calls[..], rets[..], nodes, evs);
    for k := 0 to |evs|
      invariant Chained(nodes, tail, k) && |nodes| == k + 1 && nodes[0] == head && cur == nodes[k]
      invariant tail !in nodes && fresh(tail) && fresh(calls) && fresh(rets)
      invariant Carries(nodes, evs, k) && Indexed(calls[..], rets[..], nodes, k)
      invariant forall p :: 0 <= p < |nodes| ==> fresh(nodes[p])
    {
      var node := AddEvent(evs[k], cur, tail, calls, rets, nodes, k, t);
      nodes := nodes + [node];
      cur := node;
    }
  }

  lemma StartIndexed(calls: seq<Node?>, rets: seq<Node?>, nodes: seq<Node>, evs: seq<Event>)
    requires |nodes| == 1
    ensures Carries(nodes, evs, 0) && Indexed(calls, rets, nodes, 0)
  {
  }

  ghost predicate Mated(nodes: seq<Node>, t: Track, n: nat)
    requires t.Valid() && |nodes| > |t.evs|
    reads nodes`mate
  {
    forall i :: 0 <= i < n && i < |t.ops| ==>
      nodes[t.call[i]].mate == nodes[t.ret[i]] && nodes[t.ret[i]].mate == nodes[t.call[i]]
  }

  lemma IndexedPlaces(t: Track, calls: seq<Node?>, rets: seq<Node?>, nodes: seq<Node>, i: nat)
    requires t.Valid() && |nodes| == |t.evs| + 1 && |calls| == |rets| == |t.ops| && i < |t.ops|
    requires Carries(nodes, t.evs, |t.evs|) && Indexed(calls, rets, nodes, |t.evs|)
    ensures calls[i] == nodes[t.call[i]] && rets[i] == nodes[t.ret[i]]
  {
    assert t.Inner(t.call[i]) && t.At(t.call[i]) == CallEvent(t.ops[i], i);
    assert t.Inner(t.ret[i]) && t.At(t.ret[i]) == ReturnEvent(t.ops[i], i);
  }

  method LinkMates(calls: array<Node?>, rets: array<Node?>, ghost nodes: seq<Node>, ghost t: Track)
    requires t.Valid() && |nodes| == |t.evs| + 1 && calls.Length == rets.Length == |t.ops|
    requires Carries(nodes, t.evs, |t.evs|) && Indexed(calls[..], rets[..], nodes, |t.evs|)
    requires forall p, q :: 0 <= p < q < |nodes| ==> nodes[p] != nodes[q]
    modifies nodes`mate
    ensures Mated(nodes, t, |t.ops|)
  {
    hide Carries, Indexed, Sorted;
    for i := 0 to calls.Length
      invariant Mated(nodes, t, i)
    {
      IndexedPlaces(t, calls[..], rets[..], nodes, i);
      forall j | 0 <= j < i
        ensures t.call[j] != t.call[i] && t.ret[j] != t.ret[i] && t.call[j] != t.ret[i] && t.ret[j] != t.call[i]
      {
        assert t.At(t.call[i]) == CallEvent(t.ops[i], i) && t.At(t.ret[i]) == ReturnEvent(t.ops[i], i);
        assert t.At(t.call[j]) == CallEvent(t.ops[j], j) && t.At(t.ret[j]) == ReturnEvent(t.ops[j], j);
      }
      assert t.Inner(t.call[i]) && t.Inner(t.ret[i]);
      calls[i].mate, rets[i].mate := rets[i], calls[i];
    }
  }

  method BuildList(ops: seq<Op>, ghost t: Track) returns (head: Node, tail: Node, ghost nodes: seq<Node>)
    requires t.Valid() && t.ops == ops && t.evs == Sort(Events(ops))
    ensures |nodes| == t.Last() + 1 && head == nodes[0] && tail == nodes[t.Last()]
    ensures Threads(nodes, Initial(t.Last())) && Carries(nodes, t.evs, |t.evs|) && Mated(nodes, t, |ops|)
    ensures forall p :: 0 <= p < |nodes| ==> fresh(nodes[p])
  {
    hide Track.Valid, Carries, Indexed, Chained, Threads, Mated, Initial;
    var calls, rets;
    ghost var chain;
    head, tail, chain, calls, rets := ThreadEvents(Sort(Events(ops)), |ops|, t);
    ChainedDistinct(chain, tail, |t.evs|);
    LinkMates(calls, rets, chain, t);
    ChainedThreads(chain, tail, |t.evs|);
    WithTail(chain, tail, t);
    nodes := chain + [tail];
  }

  lemma ChainedDistinct(nodes: seq<Node>, tail: Node, k: nat)
    requires Chained(nodes, tail, k)
    ensures forall p, q :: 0 <= p < q < |nodes| ==> nodes[p] != nodes[q]
  {
  }

  lemma WithTail(nodes: seq<Node>, tail: Node, t: Track)
    requires t.Valid() && |nodes| == |t.evs| + 1 && Carries(nodes, t.evs, |t.evs|) && Mated(nodes, t, |t.ops|)
    ensures Carries(nodes + [tail], t.evs, |t.evs|) && Mated(nodes + [tail], t, |t.ops|)
  {
    hide Sorted;
    forall i | 0 <= i < |t.ops| ensures t.Inner(t.call[i]) && t.Inner(t.ret[i]) {
    }
  }

  // --- What the concrete state stands for ------------------------------------------

  datatype Outcome = FoundLinearization | FoundViolation | Exhausted

  datatype Why = NotExhausted | Wall | StateCeiling

  /** A taken choice, so that backtracking can undo it. */
  datatype Frame = Frame(call: Node, prevState: Value, alt: nat, prevLastWrite: int)

  /** The search's own account of what it did. */
  datatype Stats = Stats(
    states: nat,
    steps: int,
    bestDepth: int,
    bestState: Value,
    bestLinearized: seq<bv64>,
    bestLastWrite: int,
    why: Why)

  /** Whether choosing `after` left the register holding the operation's own write. */
  predicate Applied(after: Value, op: Op) {
    op.kind == Write && after == Known(op.value)
  }

  /** The last operation on the trail that was applied as a write, or -1. */
  ghost function LastApplied(t: Track, tr: Trail): int
    requires tr.Shaped(t)
    decreases |tr.path|
  {
    if tr.path == [] then -1
    else
      PopShaped(t, tr);
      var i := tr.path[|tr.path| - 1];
      if Applied(tr.State(), t.ops[i]) then i else LastApplied(t, Popped(tr))
  }

  /** No choice on the trail was an applied write. */
  ghost predicate NoneApplied(t: Track, tr: Trail)
    requires tr.Shaped(t)
  {
    forall k :: 0 <= k < |tr.path| ==> !Applied(tr.states[k + 1], t.ops[tr.path[k]])
  }

  lemma NoneAppliedPush(t: Track, tr: Trail)
    requires tr.Shaped(t) && tr.path != []
    ensures Popped(tr).Shaped(t)
    ensures NoneApplied(t, Popped(tr)) && !Applied(tr.State(), t.ops[tr.path[|tr.path| - 1]]) ==> NoneApplied(t, tr)
  {
    PopShaped(t, tr);
    var back := Popped(tr);
    forall k | 0 <= k < |back.path| ensures back.states[k + 1] == tr.states[k + 1] && back.path[k] == tr.path[k] {
    }
  }

  /** The write that is said to have established the register's value did so. */
  lemma {:induction false} LastAppliedHolds(t: Track, tr: Trail)
    requires TrailOk(t, tr)
    ensures var w := LastApplied(t, tr);
      if w == -1 then NoneApplied(t, tr)
      else w in SetOf(tr.path) && t.ops[w].kind == Write && tr.State() == Known(t.ops[w].value)
    decreases |tr.path|
  {
    if tr.path != [] {
      hide PassedOver, Tried, NoneApplied, SetOf;
      PopOk(t, tr);
      LastAppliedHolds(t, Popped(tr));
      NoneAppliedPush(t, tr);
      StillHeld(t, Popped(tr).State(), tr.path[|tr.path| - 1], tr.alts[|tr.path| - 1]);
    } else {
      hide LastApplied;
    }
  }

  /** A choice that is not an applied write and meets a determined register leaves
      its value alone. */
  lemma StillHeld(t: Track, before: Value, i: nat, a: nat)
    requires i < |t.ops| && a < |Alternatives(before, t.ops[i])|
    ensures before.Known? && !Applied(Alternatives(before, t.ops[i])[a], t.ops[i]) ==>
              Alternatives(before, t.ops[i])[a] == before
  {
  }

  /** Choice `k` was a write, and left the register holding what it wrote. */
  ghost predicate LeftItsOwn(t: Track, tr: Trail, k: nat)
    requires tr.Shaped(t) && k < |tr.path|
  {
    t.ops[tr.path[k]].kind == Write && tr.states[k + 1] == Known(t.ops[tr.path[k]].value)
  }

  /** It is the last such choice, and there is none when none is named. */
  lemma {:induction false} LastAppliedIsLast(t: Track, tr: Trail) returns (k: int)
    requires TrailOk(t, tr)
    ensures -1 <= k < |tr.path| && LastApplied(t, tr) == (if k == -1 then -1 else tr.path[k])
    ensures k >= 0 ==> LeftItsOwn(t, tr, k)
    ensures forall m :: k < m < |tr.path| ==> !LeftItsOwn(t, tr, m)
    decreases |tr.path|
  {
    hide PassedOver, Tried;
    k := -1;
    if tr.path != [] {
      PopOk(t, tr);
      var n, back := |tr.path| - 1, Popped(tr);
      if LeftItsOwn(t, tr, n) {
        k := n;
      } else {
        k := LastAppliedIsLast(t, back);
        forall m: nat | m < n ensures LeftItsOwn(t, tr, m) == LeftItsOwn(t, back, m) {
        }
      }
    }
  }

  /** The first `k` choices of a trail. */
  ghost function Cut(tr: Trail, k: nat): Trail
    requires k <= |tr.path| == |tr.alts| && |tr.states| == |tr.path| + 1
  {
    Trail(tr.path[..k], tr.states[..k + 1], tr.alts[..k])
  }

  lemma CutShaped(t: Track, tr: Trail, k: nat)
    requires tr.Shaped(t) && k <= |tr.path|
    ensures Cut(tr, k).Shaped(t)
  {
  }

  ghost predicate FrameFits(t: Track, nodes: seq<Node>, tr: Trail, f: Frame, k: nat)
    requires t.Valid() && tr.Shaped(t) && |nodes| == t.Last() + 1 && k < |tr.path|
  {
    && f.call == nodes[t.call[tr.path[k]]]
    && f.prevState == tr.states[k] && f.alt == tr.alts[k]
    && (CutShaped(t, tr, k); f.prevLastWrite == LastApplied(t, Cut(tr, k)))
  }

  ghost predicate StackFits(t: Track, nodes: seq<Node>, tr: Trail, stack: seq<Frame>) {
    && TrailOk(t, tr) && |nodes| == t.Last() + 1 && |stack| == |tr.path|
    && forall k :: 0 <= k < |stack| ==> FrameFits(t, nodes, tr, stack[k], k)
  }

  lemma StackPush(t: Track, nodes: seq<Node>, tr: Trail, stack: seq<Frame>, i: nat, a: nat, after: Value, f: Frame)
    requires StackFits(t, nodes, tr, stack) && i < |t.ops| && i !in SetOf(tr.path)
    requires Choice(t, SetOf(tr.path), tr.State(), i, a, after)
    requires f == Frame(nodes[t.call[i]], tr.State(), a, LastApplied(t, tr))
    ensures var tr' := Pushed(tr, i, after, a);
      && StackFits(t, nodes, tr', stack + [f]) && SetOf(tr'.path) == SetOf(tr.path) + {i}
      && LastApplied(t, tr') == if Applied(after, t.ops[i]) then i else LastApplied(t, tr)
  {
    hide Choice;
    var tr', stack' := Pushed(tr, i, after, a), stack + [f];
    PushOk(t, tr, i, a, after);
    forall k | 0 <= k < |stack'| ensures FrameFits(t, nodes, tr', stack'[k], k) {
      CutOfPushed(t, tr, i, after, a, k);
      if k < |stack| { assert FrameFits(t, nodes, tr, stack[k], k); }
    }
  }

  lemma CutOfPushed(t: Track, tr: Trail, i: nat, after: Value, a: nat, k: nat)
    requires tr.Shaped(t) && k <= |tr.path|
    ensures Cut(Pushed(tr, i, after, a), k) == Cut(tr, k) && Cut(tr, |tr.path|) == tr
  {
  }

  lemma StackPop(t: Track, nodes: seq<Node>, tr: Trail, stack: seq<Frame>)
    requires StackFits(t, nodes, tr, stack) && tr.path != []
    ensures var back, n := Popped(tr), |tr.path| - 1; var i, f := tr.path[n], stack[n];
      && StackFits(t, nodes, back, stack[..n])
      && f == Frame(nodes[t.call[i]], back.State(), tr.alts[n], LastApplied(t, back))
  {
    hide Choice;
    var back, n := Popped(tr), |tr.path| - 1;
    PopOk(t, tr);
    forall k | 0 <= k < n ensures FrameFits(t, nodes, back, stack[k], k) {
      CutOfPushed(t, back, tr.path[n], tr.State(), tr.alts[n], k);
      assert FrameFits(t, nodes, tr, stack[k], k);
    }
    CutOfPushed(t, back, tr.path[n], tr.State(), tr.alts[n], n);
    assert FrameFits(t, nodes, tr, stack[n], n);
  }

  /** What undoing the last choice leaves, once it is known to lead nowhere. */
  lemma PopFacts(t: Track, nodes: seq<Node>, tr: Trail, stack: seq<Frame>)
    requires StackFits(t, nodes, tr, stack) && tr.path != [] && Dead(t.ops, SetOf(tr.path), tr.State())
    ensures var back, n := Popped(tr), |tr.path| - 1; var i, f := tr.path[n], stack[n];
      && StackFits(t, nodes, back, stack[..n])
      && f == Frame(nodes[t.call[i]], back.State(), tr.alts[n], LastApplied(t, back))
      && back.path + [i] == tr.path && IsPath(t, back.path) && IsPath(t, tr.path) && |back.states| == n + 1
      && i < |t.ops| && i !in SetOf(back.path) && SetOf(tr.path) == SetOf(back.path) + {i}
      && PassedOver(t, SetOf(back.path), back.State(), t.call[i])
      && Tried(t.ops, SetOf(back.path), back.State(), i, f.alt + 1)
      && t.Inner(t.call[i]) && t.At(t.call[i]) == CallEvent(t.ops[i], i)
  {
    hide LastApplied, SetOf, PassedOver, Tried, Dead;
    var n := |tr.path| - 1;
    PopOk(t, tr);
    ChoiceFailed(t, SetOf(tr.path[..n]), Popped(tr).State(), tr.path[n], tr.alts[n], tr.State());
    StackPop(t, nodes, tr, stack);
  }

  /** The register values the search can meet. */
  ghost function RegisterValues(ops: seq<Op>): set<Value> {
    {Unknown} + set op | op in ops :: Known(op.value)
  }

  ghost function SpotOf(e: Entry): Spot {
    Spot(e.state, Members(e.bits))
  }

  ghost function Spots(contents: set<Entry>): set<Spot> {
    set e | e in contents :: SpotOf(e)
  }

  ghost predicate EntryOk(ops: seq<Op>, words: nat, e: Entry) {
    && |e.bits| == words && e.state in RegisterValues(ops)
    && forall i :: i in Members(e.bits) ==> i < |ops|
  }

  ghost predicate TableFits(t: Track, tr: Trail, contents: set<Entry>, words: nat)
    requires |tr.states| == |tr.path| + 1
  {
    && MemoOk(t, tr, Spots(contents))
    && forall e :: e in contents ==> EntryOk(t.ops, words, e)
  }

  lemma TablePush(t: Track, tr: Trail, contents: set<Entry>, contents': set<Entry>, i: nat, a: nat, after: Value,
                  bits: seq<bv64>)
    requires TrailOk(t, tr) && i < |t.ops| && i !in SetOf(tr.path) && TableFits(t, tr, contents, |bits|)
    requires contents' == contents || contents' == contents + {Entry(after, bits)}
    requires Members(bits) == SetOf(tr.path) + {i} && after in RegisterValues(t.ops)
    ensures TableFits(t, Pushed(tr, i, after, a), contents', |bits|)
  {
    hide Members, RegisterValues, Dead;
    MemoPush(t, tr, Spots(contents), i, after, a);
    PushShaped(t, tr, i, after, a);
    forall b | b in tr.path ensures b < |t.ops| {
    }
    assert forall spot :: spot in Spots(contents') ==>
      spot in Spots(contents) || spot == Spot(after, SetOf(tr.path + [i]));
  }

  /** Register values times subsets of the operations. */
  ghost function StatesBound(ops: seq<Op>): nat {
    |RegisterValues(ops)| * Pow2(|ops|)
  }

  /** A register can take the values that are mentioned, or none yet. */
  lemma StatesBoundAtMost(ops: seq<Op>)
    ensures StatesBound(ops) <= (|ops| + 1) * Pow2(|ops|)
  {
    ValuesAtMost(ops);
    Times(Pow2(|ops|), |RegisterValues(ops)|, |ops| + 1);
  }

  lemma {:induction false} ValuesAtMost(ops: seq<Op>)
    ensures |RegisterValues(ops)| <= |ops| + 1
  {
    if ops == [] {
      assert RegisterValues(ops) == {Unknown};
    } else {
      var front, last := ops[..|ops| - 1], ops[|ops| - 1];
      assert ops == front + [last];
      ValuesAtMost(front);
      assert RegisterValues(ops) == RegisterValues(front) + {Known(last.value)};
    }
  }

  /** The memo cannot outgrow the register's values times the subsets of the
      operations. */
  lemma TableSize(t: Track, tr: Trail, contents: set<Entry>, words: nat)
    requires |tr.states| == |tr.path| + 1 && TableFits(t, tr, contents, words)
    ensures |contents| <= |RegisterValues(t.ops)| * Pow2(|t.ops|)
  {
    hide MemoOk, Members, RegisterValues, Pow2;
    forall e, e' | e in contents && e' in contents && SpotOf(e) == SpotOf(e')
      ensures e == e'
    {
      WordsDetermined(e.bits, e'.bits);
    }
    SpotsDistinct(contents);
    SpotsBound(RegisterValues(t.ops), |t.ops|, Spots(contents));
  }

  lemma {:induction false} SpotsDistinct(contents: set<Entry>)
    requires forall e, e' :: e in contents && e' in contents && SpotOf(e) == SpotOf(e') ==> e == e'
    ensures |Spots(contents)| == |contents|
  {
    hide Members;
    if contents != {} {
      var e :| e in contents;
      var rest := contents - {e};
      SpotsDistinct(rest);
      assert SpotOf(e) !in Spots(rest);
      assert Spots(contents) == Spots(rest) + {SpotOf(e)};
    }
  }

  ghost predicate SnapshotFits(t: Track, best: Trail, st: Stats) {
    && TrailOk(t, best) && st.bestDepth == |best.path|
    && st.bestState == best.State() && Members(st.bestLinearized) == SetOf(best.path)
    && st.bestLastWrite == LastApplied(t, best)
  }

  lemma SnapshotIgnoresCounts(t: Track, best: Trail, st: Stats, states: nat, steps: int)
    requires SnapshotFits(t, best, st)
    ensures SnapshotFits(t, best, st.(states := states, steps := steps))
  {
  }

  lemma {:induction false} StateInRange(t: Track, tr: Trail)
    requires TrailOk(t, tr)
    ensures tr.State() in RegisterValues(t.ops)
    decreases |tr.path|
  {
    if tr.path != [] {
      hide RegisterValues, PassedOver, Tried;
      PopOk(t, tr);
      var back, n := Popped(tr), |tr.path| - 1;
      StateInRange(t, back);
      NextInRange(t.ops, back.State(), tr.path[n], tr.alts[n]);
    }
  }

  lemma NextInRange(ops: seq<Op>, state: Value, i: nat, a: nat)
    requires state in RegisterValues(ops) && i < |ops| && a < |Alternatives(state, ops[i])|
    ensures Alternatives(state, ops[i])[a] in RegisterValues(ops)
  {
    assert ops[i] in ops;
  }

  predicate StackNames(ops: seq<Op>, stack: seq<Frame>) {
    forall k :: 0 <= k < |stack| ==> stack[k].call.idx < |ops|
  }

  /** The operations on the stack, in the order they were placed. */
  function Placed(ops: seq<Op>, stack: seq<Frame>): seq<Op>
    requires StackNames(ops, stack)
  {
    seq(|stack|, k requires 0 <= k < |stack| => ops[stack[k].call.idx])
  }

  ghost function NoChoices(): Trail {
    Trail([], [Unknown], [])
  }

  lemma StartTrail(t: Track, nodes: seq<Node>)
    requires t.Valid() && |nodes| == t.Last() + 1
    ensures var none := NoChoices();
      && StackFits(t, nodes, none, []) && LastApplied(t, none) == -1
      && IsPath(t, none.path) && After(t, none.path) == Initial(t.Last()) && SetOf(none.path) == {}
  {
    hide Sorted;
  }

  lemma StartTable(t: Track, words: nat)
    ensures TableFits(t, NoChoices(), {}, words)
  {
  }

  /** How many entries a memo of `maxBytes` may hold. */
  function MemoLimit(words: nat, maxBytes: int): (r: nat)
    ensures 1024 <= r <= 0x4000_0000
    ensures r > 1024 ==> r * (words * 8 + 64) <= maxBytes
    ensures r < 0x4000_0000 ==> maxBytes < (r + 1) * (words * 8 + 64)
  {
    var entry := words * 8 + 64;
    var most := maxBytes / entry;
    Entries(maxBytes, entry, most);
    Entries(maxBytes, entry, 1024);
    Entries(maxBytes, entry, 0x4000_0000);
    if most < 1024 then 1024 else if most > 0x4000_0000 then 0x4000_0000 else most
  }

  lemma Entries(bytes: int, entry: int, n: int)
    requires entry > 0
    ensures bytes / entry >= n ==> n * entry <= bytes
    ensures bytes / entry <= n ==> bytes < (n + 1) * entry
  {
    var most := bytes / entry;
    assert bytes == entry * most + bytes % entry;
    if most >= n {
      TimesGrows(n, most, entry);
    }
    if most <= n {
      TimesGrows(most + 1, n + 1, entry);
    }
  }

  lemma TimesGrows(x: int, y: int, entry: int)
    requires x <= y && entry > 0
    ensures x * entry <= y * entry
  {
  }

  // --- The search ---------------------------------------------------------------------

  class Searcher {
    const ops: seq<Op>
    const head: Node
    const tail: Node
    const memo: Memo
    const linear: array<bv64>
    const limitStates: int
    /** Whether the deadline has passed when step `n` looks at the clock. */
    const expired: int -> bool

    var state: Value
    var lastWrite: int
    var depth: int
    var stack: seq<Frame>
    var st: Stats

    ghost const nodes: seq<Node>
    ghost const track: Track
    ghost var trail: Trail
    ghost var best: Trail

    /** Threads the operations of one key onto the event list. `maxMemoBytes` bounds
        the memo; the hash is whatever the memo is given. */
    constructor (ops: seq<Op>, limitStates: int, expired: int -> bool, maxMemoBytes: int,
                 hash: (Value, seq<bv64>) -> int)
      requires forall i :: 0 <= i < |ops| ==> ops[i].WellFormed()
      ensures Ready() && this.ops == ops && this.limitStates == limitStates && this.expired == expired
      ensures memo.maxEntries == MemoLimit((|ops| + 63) / 64, maxMemoBytes)
      ensures fresh(nodes) && fresh(linear) && fresh(memo)
    {
      hide Track.Valid, Threads, Carries, Mated, Initial, Memo.Valid, Sort, Events, Op.WellFormed;
      ghost var t := TrackOf(ops);
      var h, l;
      ghost var ns;
      h, l, ns := BuildList(ops, t);
      var words := (|ops| + 63) / 64;
      var bits := new bv64[words](_ => 0);
      var mm := new Memo(MemoLimit(words, maxMemoBytes), hash);
      this.ops, this.limitStates, this.expired := ops, limitStates, expired;
      head, tail, nodes, track, linear, memo := h, l, ns, t, bits, mm;
      state, lastWrite, depth, stack := Unknown, -1, 0, [];
      st := Stats(0, 0, -1, Unknown, [], -1, NotExhausted);
      trail, best := NoChoices(), NoChoices();
      new;
      hide Track.Valid, Threads, Carries, Mated, Initial, Memo.Valid, Ready, NoChoices, MemoLimit;
      ReadyToRun();
    }

    lemma ReadyToRun()
      requires track.Valid() && track.ops == ops && |nodes| == track.Last() + 1
      requires head == nodes[0] && tail == nodes[track.Last()]
      requires Threads(nodes, Initial(track.Last()))
      requires Carries(nodes, track.evs, |track.evs|) && Mated(nodes, track, |ops|)
      requires linear.Length == (|ops| + 63) / 64 && forall w :: 0 <= w < linear.Length ==> linear[w] == 0
      requires memo.Valid() && memo.contents == {} && memo.entries == 0
      requires state == Unknown && lastWrite == -1 && depth == 0 && stack == []
      requires st == Stats(0, 0, -1, Unknown, [], -1, NotExhausted) && trail == NoChoices()
      ensures Ready()
    {
      hide Track.Valid, Threads, Carries, Mated, Initial, Memo.Valid, Members, SetOf, StackFits, After, LastApplied,
           TableFits;
      StartTrail(track, nodes);
      NoBits(linear[..]);
      StartTable(track, linear.Length);
    }

    /** The nodes carry the sorted events, and calls know their returns. */
    ghost predicate Static()
      reads nodes`mate
    {
      && track.Valid() && track.ops == ops
      && |nodes| == track.Last() + 1 && head == nodes[0] && tail == nodes[track.Last()]
      && Carries(nodes, track.evs, |track.evs|) && Mated(nodes, track, |ops|)
      && linear.Length == (|ops| + 63) / 64
    }

    /** The list is the original event list without the operations on the stack. */
    ghost predicate ListOk()
      reads this`trail, nodes`next, nodes`prev
    {
      track.Valid() && IsPath(track, trail.path) && Threads(nodes, After(track, trail.path))
    }

    ghost predicate StackOk()
      reads this`stack, this`depth, this`state, this`lastWrite, this`trail
    {
      && StackFits(track, nodes, trail, stack)
      && depth == |stack| && state == trail.State() && lastWrite == LastApplied(track, trail)
    }

    ghost predicate BitsOk()
      reads this`trail, linear
    {
      Members(linear[..]) == SetOf(trail.path)
    }

    ghost predicate TableOk()
      reads this`trail, this`st, memo
    {
      && memo.Valid()
      && |trail.states| == |trail.path| + 1 && TableFits(track, trail, memo.contents, linear.Length)
      && memo.entries <= st.states && (memo.entries < memo.maxEntries ==> st.states == memo.entries)
    }

    /** The snapshot is of a real partial linearization, and none that the search
        has reached is deeper. */
    ghost predicate BestOk()
      reads this`trail, this`best, this`st
    {
      SnapshotFits(track, best, st) && |trail.path| <= |best.path|
    }

    ghost predicate Valid()
      reads this, nodes, linear, memo
    {
      Static() && StackOk() && ListOk() && BitsOk() && TableOk() && BestOk()
    }

    /** Snapshots the deepest partial linearization reached. */
    method NoteBest()
      requires StackOk() && BitsOk()
      requires SnapshotFits(track, best, st) || st.bestDepth < 0
      modifies this`st, this`best
      ensures BestOk()
      ensures st.states == old(st.states) && st.steps == old(st.steps)
    {
      if depth <= st.bestDepth {
        return;
      }
      st := st.(bestDepth := depth, bestState := state, bestLinearized := linear[..], bestLastWrite := lastWrite);
      best := trail;
    }

    method LiftOff(call: Node, ghost path: seq<nat>, ghost i: nat)
      requires Static() && IsPath(track, path + [i]) && IsPath(track, path) && i < |ops|
      requires call == nodes[track.call[i]] && Threads(nodes, After(track, path))
      modifies nodes`next, nodes`prev
      ensures Threads(nodes, After(track, path + [i]))
    {
      hide After, Threads, Lifted, HasNeighbours, Unlink, Relink;
      UnliftLast(track, path, i);
      assert track.Inner(track.call[i]) && track.Inner(track.ret[i]);
      call.Lift(nodes, After(track, path), track.call[i], track.ret[i]);
    }

    method PutBack(call: Node, ghost path: seq<nat>, ghost i: nat)
      requires Static() && IsPath(track, path + [i]) && IsPath(track, path) && i < |ops|
      requires call == nodes[track.call[i]] && Threads(nodes, After(track, path + [i]))
      modifies nodes`next, nodes`prev
      ensures Threads(nodes, After(track, path))
    {
      hide After, Threads, Unlifted, HasNeighbours, Unlink, Relink;
      UnliftLast(track, path, i);
      assert track.Inner(track.call[i]) && track.Inner(track.ret[i]);
      call.Unlift(nodes, After(track, path + [i]), track.call[i], track.ret[i]);
    }

    /** Pushes a choice and lets the register take the chosen value. */
    method Push(call: Node, a: nat, after: Value, ghost i: nat)
      requires Static() && StackOk()
      requires i < |ops| && i !in SetOf(trail.path) && call == nodes[track.call[i]]
      requires Choice(track, SetOf(trail.path), state, i, a, after)
      modifies this`stack, this`state, this`lastWrite, this`depth, this`trail
      ensures StackOk() && trail == Pushed(old(trail), i, after, a)
      ensures SetOf(trail.path) == SetOf(old(trail.path)) + {i}
      ensures IsPath(track, old(trail.path)) && trail.path == old(trail.path) + [i] && trail.Shaped(track)
    {
      hide Choice, LastApplied, SetOf;
      StackPush(track, nodes, trail, stack, i, a, after, Frame(call, state, a, lastWrite));
      assert track.Inner(track.call[i]) && track.At(track.call[i]) == CallEvent(ops[i], i);
      stack := stack + [Frame(call, state, a, lastWrite)];
      state := after;
      if Applied(after, ops[call.idx]) {
        lastWrite := call.idx;
      }
      depth := depth + 1;
      trail := Pushed(trail, i, after, a);
    }

    /** Takes a choice: pushes it and lifts the operation off the list. */
    method Take(call: Node, a: nat, after: Value, ghost i: nat)
      requires Static() && StackOk() && ListOk()
      requires i < |ops| && i !in SetOf(trail.path) && call == nodes[track.call[i]]
      requires Choice(track, SetOf(trail.path), state, i, a, after)
      modifies this`stack, this`state, this`lastWrite, this`depth, this`trail, nodes`next, nodes`prev
      ensures StackOk() && ListOk() && trail == Pushed(old(trail), i, after, a)
      ensures SetOf(trail.path) == SetOf(old(trail.path)) + {i} && |trail.states| == |trail.path| + 1
    {
      hide Choice, SetOf, LastApplied, After, Threads;
      hide Static, StackOk, IsPath, Pushed;
      ghost var path := trail.path;
      Push(call, a, after, i);
      LiftOff(call, path, i);
    }

    /** Counts the state reached and snapshots it when it is the deepest. */
    method Count()
      requires StackOk() && BitsOk() && SnapshotFits(track, best, st)
      modifies this`st, this`best
      ensures BestOk() && st.states == old(st.states) + 1 && st.steps == old(st.steps)
    {
      hide StackOk, BitsOk, SnapshotFits, BestOk;
      SnapshotIgnoresCounts(track, best, st, st.states + 1, st.steps);
      st := st.(states := st.states + 1);
      NoteBest();
    }

    /** Everything that follows from an alternative the memo has not met. */
    method Advance(call: Node, a: nat, after: Value, ghost i: nat)
      requires Static() && StackOk() && ListOk() && SnapshotFits(track, best, st)
      requires i < |ops| && i !in SetOf(trail.path) && call == nodes[track.call[i]]
      requires Choice(track, SetOf(trail.path), state, i, a, after)
      requires Members(linear[..]) == SetOf(trail.path) + {i}
      requires memo.Valid() && TableFits(track, Pushed(trail, i, after, a), memo.contents, linear.Length)
      requires memo.entries <= st.states + 1 && (memo.entries < memo.maxEntries ==> st.states + 1 == memo.entries)
      modifies this, nodes`next, nodes`prev
      ensures Valid()
      ensures trail == Pushed(old(trail), i, after, a)
      ensures st.states == old(st.states) + 1 && st.steps == old(st.steps)
    {
      hide TableFits, Choice, Members, SetOf, LastApplied, Pushed, Memo.Valid;
      hide Static, StackOk, ListOk, BestOk, SnapshotFits;
      Take(call, a, after, i);
      Count();
    }

    /** Sets the operation's bit and asks the memo about the result. */
    method Record(a: nat, after: Value, ghost i: nat, idx: nat) returns (isNew: bool)
      requires Static() && StackOk() && BitsOk() && TableOk() && idx == i < |ops| && i !in SetOf(trail.path)
      requires a < |Alternatives(state, ops[i])| && after == Alternatives(state, ops[i])[a]
      modifies linear, memo
      ensures Members(linear[..]) == SetOf(trail.path) + {i} && memo.Valid()
      ensures isNew ==>
        && TableFits(track, Pushed(trail, i, after, a), memo.contents, linear.Length)
        && memo.entries <= st.states + 1 && (memo.entries < memo.maxEntries ==> st.states + 1 == memo.entries)
      ensures !isNew ==> TableOk() && Dead(ops, SetOf(trail.path) + {i}, after)
    {
      hide SetOf, LastApplied, Members, Threads, After, BestOk, Pushed, Dead, Static, StackOk, MemoOk;
      StateFacts();
      SetBit(linear, idx);
      ghost var contents := memo.contents;
      isNew := memo.Insert(after, linear);
      NextInRange(ops, state, i, a);
      if isNew {
        TablePush(track, trail, contents, memo.contents, i, a, after, linear[..]);
      } else {
        TableHit(track, trail, contents, i, after, linear[..]);
      }
    }

    /** Tries one alternative; a spot the memo has met is given up. */
    method TryOne(call: Node, a: nat, after: Value, ghost i: nat) returns (advanced: bool)
      requires Valid() && i < |ops| && i !in SetOf(trail.path)
      requires call == nodes[track.call[i]] && call.idx == i
      requires Choice(track, SetOf(trail.path), state, i, a, after)
      modifies this, nodes`next, nodes`prev, linear, memo
      ensures Valid() && st.steps == old(st.steps)
      ensures advanced ==> st.states == old(st.states) + 1
      ensures !advanced ==> unchanged(this) && Dead(ops, SetOf(trail.path) + {i}, after)
    {
      hide SetOf, Members, TableFits, Threads, Static, StackOk, ListOk, BestOk, Dead, PassedOver, Tried, Pushed,
           SnapshotFits;
      StateFacts();
      var isNew := Record(a, after, i, call.idx);
      if isNew {
        BestFacts();
        Advance(call, a, after, i);
        return true;
      }
      Vacate(call.idx);
      return false;
    }

    /** Takes an operation that is not on the stack out of the bit array. */
    method Vacate(i: nat)
      requires Static() && StackOk() && ListOk() && TableOk() && BestOk()
      requires i < |ops| && Members(linear[..]) - {i} == SetOf(trail.path)
      modifies linear
      ensures Valid()
    {
      hide SetOf, Members, StackOk, ListOk, TableOk, BestOk;
      ClearBit(linear, i);
    }

    lemma BestFacts()
      requires BestOk()
      ensures SnapshotFits(track, best, st)
    {
    }

    /** Tries the alternatives of `call` from number `from` on, and reports whether
        one was taken. If none was, the operation cannot come next. */
    method TryFrom(call: Node, from: nat, ghost i: nat) returns (advanced: bool)
      requires Valid() && i < |ops| && i !in SetOf(trail.path)
      requires call == nodes[track.call[i]] && call.idx == i
      requires PassedOver(track, SetOf(trail.path), state, track.call[i])
      requires Tried(ops, SetOf(trail.path), state, i, from)
      modifies this, nodes`next, nodes`prev, linear, memo
      ensures Valid() && st.steps == old(st.steps)
      ensures advanced ==> st.states == old(st.states) + 1
      ensures !advanced ==> unchanged(this) && Rejected(ops, SetOf(trail.path), state, i)
    {
      hide SetOf, Members, TableFits, Threads, Static, StackOk, ListOk, TableOk, BestOk, Dead, PassedOver;
      StateFacts();
      var alts := Alternatives(state, ops[call.idx]);
      var a := from;
      while a < |alts|
        invariant Valid() && unchanged(this)
        invariant Tried(ops, SetOf(trail.path), state, i, a)
      {
        var taken := TryOne(call, a, alts[a], i);
        if taken {
          return true;
        }
        a := a + 1;
      }
      Vacate(call.idx);
      return false;
    }

    /** Undoes the last choice. */
    method PopFrame() returns (f: Frame, ghost i: nat)
      requires Static() && StackOk() && stack != [] && Dead(ops, SetOf(trail.path), state)
      modifies this`stack, this`state, this`lastWrite, this`depth, this`trail
      ensures StackOk() && |stack| == old(|stack|) - 1 && trail == Popped(old(trail))
      ensures IsPath(track, trail.path + [i]) && IsPath(track, trail.path) && trail.path + [i] == old(trail.path)
      ensures i < |ops| && i !in SetOf(trail.path) && SetOf(old(trail.path)) == SetOf(trail.path) + {i}
      ensures f.call == nodes[track.call[i]] && f.call.idx == i && |trail.states| == |trail.path| + 1
      ensures PassedOver(track, SetOf(trail.path), state, track.call[i])
      ensures Tried(ops, SetOf(trail.path), state, i, f.alt + 1)
    {
      hide LastApplied, SetOf, PassedOver, Tried, Dead, IsPath, FrameFits;
      i := trail.path[|trail.path| - 1];
      PopFacts(track, nodes, trail, stack);
      f := stack[|stack| - 1];
      stack := stack[..|stack| - 1];
      state := f.prevState;
      lastWrite := f.prevLastWrite;
      depth := depth - 1;
      trail := Popped(trail);
    }

    /** Undoes the last choice and puts its operation back on the list. */
    method Undo() returns (f: Frame, ghost i: nat)
      requires Static() && StackOk() && ListOk() && stack != [] && Dead(ops, SetOf(trail.path), state)
      modifies this`stack, this`state, this`lastWrite, this`depth, this`trail, nodes`next, nodes`prev
      ensures StackOk() && ListOk() && |stack| == old(|stack|) - 1 && trail == Popped(old(trail))
      ensures i < |ops| && i !in SetOf(trail.path) && SetOf(old(trail.path)) == SetOf(trail.path) + {i}
      ensures f.call == nodes[track.call[i]] && f.call.idx == i && |trail.states| == |trail.path| + 1
      ensures |trail.path| == |old(trail.path)| - 1
      ensures PassedOver(track, SetOf(trail.path), state, track.call[i])
      ensures Tried(ops, SetOf(trail.path), state, i, f.alt + 1)
    {
      hide SetOf, Threads, After, StackOk, PassedOver, Tried, Dead, IsPath, Popped;
      f, i := PopFrame();
      PutBack(f.call, trail.path, i);
    }

    /** Undoes the last choice, which led nowhere, in every data structure. */
    method Retreat() returns (f: Frame, ghost i: nat)
      requires Valid() && stack != [] && Dead(ops, SetOf(trail.path), state)
      modifies this`stack, this`state, this`lastWrite, this`depth, this`trail, nodes`next, nodes`prev, linear
      ensures Valid() && |stack| == old(|stack|) - 1
      ensures i < |ops| && i !in SetOf(trail.path) && f.call == nodes[track.call[i]] && f.call.idx == i
      ensures PassedOver(track, SetOf(trail.path), state, track.call[i])
      ensures Tried(ops, SetOf(trail.path), state, i, f.alt + 1)
    {
      hide SetOf, Members, Static, StackOk, ListOk, PassedOver, Tried, Dead, EntryOk, Popped, SnapshotFits, MemoOk;
      StateFacts();
      StackNonempty();
      MemoPop(track, trail, Spots(memo.contents));
      f, i := Undo();
      Vacate(f.call.idx);
    }

    lemma StackNonempty()
      requires StackOk() && stack != []
      ensures trail.path != [] && trail.Shaped(track) && Popped(trail).path == trail.path[..|trail.path| - 1]
    {
    }

    /** `entry` is a live node, and everything before it was passed over. */
    ghost predicate Cursor(entry: Node, e: nat)
      reads this`trail, this`state
    {
      && track.Valid() && |nodes| == track.Last() + 1 && 0 < e <= track.Last() && entry == nodes[e]
      && e in Live(track, SetOf(trail.path)) && PassedOver(track, SetOf(trail.path), state, e)
    }

    /** The first node on the list. */
    method First() returns (entry: Node, ghost e: nat)
      requires Static() && ListOk()
      ensures Cursor(entry, e) && entry == head.next
      ensures 0 < e <= track.Last() < |nodes| && entry == nodes[e] && e in Live(track, SetOf(trail.path))
      ensures Gap(Live(track, SetOf(trail.path)), 0, e)
    {
      hide PassedOver, After, Gap, SetOf;
      e := FirstLive(track, trail.path);
      NothingPassed(track, SetOf(trail.path), state, e);
      entry := head.next;
    }

    /** The node after the call of an operation that cannot come next. */
    method Following(call: Node, ghost i: nat) returns (entry: Node, ghost e: nat)
      requires Static() && ListOk() && i < |ops| && i !in SetOf(trail.path) && call == nodes[track.call[i]]
      requires PassedOver(track, SetOf(trail.path), state, track.call[i])
      requires Rejected(ops, SetOf(trail.path), state, i)
      ensures Cursor(entry, e) && e > track.call[i]
    {
      hide PassedOver, After, Gap, SetOf, Rejected;
      LiveAfter(track, SetOf(trail.path), i);
      ghost var c := track.call[i];
      assert track.Inner(c) && track.At(c) == CallEvent(ops[i], i);
      e := NextLive(track, trail.path, c);
      OnePassed(track, SetOf(trail.path), state, c, e);
      entry := call.next;
    }

    lemma CursorFacts(entry: Node, e: nat)
      requires Static() && StackOk() && ListOk() && Cursor(entry, e)
      ensures entry == tail <==> e == track.Last()
      ensures e < track.Last() ==>
        && track.Inner(e) && entry.isReturn == track.At(e).isReturn && entry.idx == track.At(e).idx
        && track.At(e).idx < |ops| && track.At(e).idx !in SetOf(trail.path)
        && (!entry.isReturn ==> e == track.call[entry.idx])
    {
      if e < track.Last() {
        assert e == track.Place(track.At(e));
      }
    }

    /** Tries the call under the cursor and moves on. */
    method Forward(entry: Node, ghost e: nat) returns (entry': Node, ghost e': nat)
      requires Valid() && Cursor(entry, e) && entry != tail && !entry.isReturn
      modifies this, nodes`next, nodes`prev, linear, memo
      ensures Valid() && Cursor(entry', e') && e' <= track.Last() && st.steps == old(st.steps)
      ensures st.states == old(st.states) + 1 || (unchanged(this) && e < e')
    {
      hide Static, StackOk, ListOk, BitsOk, TableOk, BestOk, SetOf, PassedOver;
      CursorFacts(entry, e);
      var advanced := TryFrom(entry, 0, entry.idx);
      if advanced {
        entry', e' := First();
      } else {
        entry', e' := Following(entry, entry.idx);
      }
    }

    /** Undoes the last choice, whose every continuation failed, and moves on. */
    method Backtrack(entry: Node, ghost e: nat) returns (entry': Node, ghost e': nat)
      requires Valid() && Cursor(entry, e) && (entry == tail || entry.isReturn)
      requires stack != [] && Pending(ops, SetOf(trail.path)) != multiset{}
      modifies this, nodes`next, nodes`prev, linear, memo
      ensures Valid() && Cursor(entry', e') && e' <= track.Last() && st.steps == old(st.steps)
      ensures st.states == old(st.states) + 1 || (st.states == old(st.states) && |stack| < old(|stack|))
    {
      hide Static, StackOk, ListOk, BitsOk, TableOk, BestOk, SetOf, PassedOver, Tried, Dead;
      NoChoiceLeft(entry, e);
      ghost var i: nat;
      var f;
      f, i := Retreat();
      var advanced := TryFrom(f.call, f.alt + 1, i);
      if advanced {
        entry', e' := First();
      } else {
        entry', e' := Following(f.call, i);
      }
    }

    lemma NoChoiceLeft(entry: Node, e: nat)
      requires Static() && StackOk() && ListOk() && Cursor(entry, e) && (entry == tail || entry.isReturn)
      requires Pending(ops, SetOf(trail.path)) != multiset{}
      ensures Dead(ops, SetOf(trail.path), state)
    {
      CursorFacts(entry, e);
      hide PassedOver, Dead, SetOf;
      StateFacts();
      DeadEnd(track, SetOf(trail.path), state, e);
    }

    ghost predicate StackIsLinearization()
      reads this`stack
    {
      StackNames(ops, stack) && IsLinearization(Placed(ops, stack), multiset(ops), Unknown)
    }

    lemma NothingLeft(entry: Node, e: nat)
      requires Static() && StackOk() && ListOk()
      requires 0 < e <= track.Last() && entry == nodes[e]
      requires e in Live(track, SetOf(trail.path)) && Gap(Live(track, SetOf(trail.path)), 0, e)
      ensures entry != tail ==> Pending(ops, SetOf(trail.path)) != multiset{}
      ensures entry == tail ==> Pending(ops, SetOf(trail.path)) == multiset{}
    {
      hide SetOf, Gap, PassedOver;
      EmptyList(track, SetOf(trail.path), e);
    }

    lemma Finished()
      requires Static() && StackOk() && Pending(ops, SetOf(trail.path)) == multiset{}
      ensures StackIsLinearization()
    {
      hide SetOf, IsLinearization;
      FullTrail(track, trail);
      StackIsPath();
    }

    /** The stack names the operations of the trail. */
    lemma StackIsPath()
      requires Static() && StackOk()
      ensures StackNames(ops, stack) && forall i :: i in trail.path ==> i < |ops|
      ensures Placed(ops, stack) == Placement(ops, trail.path)
    {
      hide Choice, LastApplied;
      forall k | 0 <= k < |stack| ensures stack[k].call.idx == trail.path[k] && trail.path[k] < |ops| {
        assert FrameFits(track, nodes, trail, stack[k], k);
        assert track.Inner(track.call[trail.path[k]]);
      }
    }

    lemma Refuted(entry: Node, e: nat)
      requires Static() && StackOk() && ListOk() && Cursor(entry, e) && (entry == tail || entry.isReturn)
      requires stack == [] && Pending(ops, SetOf(trail.path)) != multiset{}
      ensures !Linearizable(multiset(ops))
    {
      NoChoiceLeft(entry, e);
      EmptyTrail(track, trail);
    }

    lemma FewStates()
      requires Static() && TableOk()
      ensures memo.maxEntries > StatesBound(ops) ==> st.states <= StatesBound(ops)
    {
      TableSize(track, trail, memo.contents, linear.Length);
    }

    /** What the constructor leaves and `Run` starts from. */
    ghost predicate Ready()
      reads this, nodes, linear, memo
    {
      && Static() && StackOk() && ListOk() && BitsOk() && TableOk()
      && stack == [] && trail.path == [] && st.states == 0 && st.steps == 0 && st.bestDepth == -1
    }

    /** Performs the search. A linearization is on the stack when one is claimed, and
        none exists when a violation is; the ceilings only ever stop the search. */
    method Run() returns (out: Outcome)
      requires Ready()
      modifies this, nodes`next, nodes`prev, linear, memo
      ensures out.FoundLinearization? ==> StackIsLinearization()
      ensures out.FoundViolation? ==> !Linearizable(multiset(ops))
      ensures st.states <= if limitStates < 0 then 0 else limitStates
      ensures out.Exhausted? ==>
        || (st.why == Wall && expired(st.steps))
        || (st.why == StateCeiling && limitStates <= st.states)
      ensures out.Exhausted? && st.why == StateCeiling && memo.maxEntries > StatesBound(ops) ==>
        limitStates <= StatesBound(ops)
      ensures SnapshotFits(track, best, st) && track.Valid() && track.ops == ops
    {
      hide Static, StackOk, ListOk, BitsOk, TableOk, BestOk, SetOf, Cursor, Gap, StackIsLinearization, SnapshotFits,
           Ready, Linearizable;
      Begin();
      ghost var e: nat;
      var entry;
      entry, e := First();
      while true
        invariant Valid() && Cursor(entry, e) && e <= track.Last()
        invariant st.states <= if limitStates < 0 then 0 else limitStates
        decreases limitStates - st.states, |stack|, track.Last() - e
      {
        CountStep();
        var first;
        ghost var e0: nat;
        first, e0 := First();
        NothingLeft(first, e0);
        if first == tail {
          Finished();
          Summary();
          return FoundLinearization;
        }
        if (st.steps == 1 || st.steps % 1024 == 0) && expired(st.steps) {
          Stop(Wall);
          return Exhausted;
        }
        if st.states >= limitStates {
          FewStates();
          Stop(StateCeiling);
          return Exhausted;
        }
        if entry != tail && !entry.isReturn {
          entry, e := Forward(entry, e);
        } else if |stack| == 0 {
          Refuted(entry, e);
          Summary();
          return FoundViolation;
        } else {
          entry, e := Backtrack(entry, e);
        }
      }
    }

    lemma Summary()
      requires Static() && BestOk()
      ensures SnapshotFits(track, best, st) && track.Valid() && track.ops == ops
    {
    }

    method Begin()
      requires Ready()
      modifies this`st, this`best
      ensures Valid() && st.states == 0 && st.steps == 0
    {
      hide Static, StackOk, ListOk, BitsOk, SnapshotFits;
      NoteBest();
    }

    method CountStep()
      requires Valid()
      modifies this`st
      ensures Valid() && st.steps == old(st.steps) + 1 && st.states == old(st.states)
    {
      hide Static, StackOk, ListOk, BitsOk, SnapshotFits;
      SnapshotIgnoresCounts(track, best, st, st.states, st.steps + 1);
      st := st.(steps := st.steps + 1);
    }

    method Stop(why: Why)
      requires Static() && BestOk()
      modifies this`st
      ensures st == old(st).(why := why) && SnapshotFits(track, best, st)
      ensures track.Valid() && track.ops == ops
    {
      st := st.(why := why);
    }

    lemma StateFacts()
      requires Static() && StackOk()
      ensures TrailOk(track, trail) && track.ops == ops && state == trail.State() && state in RegisterValues(ops)
      ensures linear.Length == (|ops| + 63) / 64
    {
      StateInRange(track, trail);
    }
  }

  lemma TableHit(t: Track, tr: Trail, contents: set<Entry>, i: nat, after: Value, bits: seq<bv64>)
    requires TrailOk(t, tr) && i < |t.ops| && i !in SetOf(tr.path) && TableFits(t, tr, contents, |bits|)
    requires Entry(after, bits) in contents && Members(bits) == SetOf(tr.path) + {i}
    ensures Dead(t.ops, SetOf(tr.path) + {i}, after)
  {
    hide Members, Dead, SetOf;
    assert SpotOf(Entry(after, bits)) in Spots(contents);
    MemoHit(t, tr, Spots(contents), i, after);
  }
}
