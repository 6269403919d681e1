/** Worker slots: their ports, the pool that hands them out, and batches of worlds run on one
    pool. */
module Slots {
  import opened SortedLists
  import opened Wrappers

  // --- Configuration -------------------------------------------------------------------------

  const DEFAULT_FREE_BRIDGE_NETWORKS := 24
  const DEFAULT_NETWORKS_PER_WORLD := 2
  const DEFAULT_WORKER_PORT_BASE := 19000
  const DEFAULT_PORTS_PER_WORKER := 16
  const LAST_PORT := 65535

  /** Zero or less means the default, for every field. */
  datatype Options = Options(workers: int, portBase: int, portsPerWorker: int, networks: int, networksPerWorld: int) {
    function Workers(): (w: int)
      ensures w >= 1 && w >= workers && (w == workers || w == 1)
    {
      if workers <= 0 then 1 else workers
    }

    function PortBase(): (b: int)
      ensures b >= 1 && (portBase >= 1 ==> b == portBase) && (portBase < 1 ==> b == 19000)
    {
      if portBase <= 0 then DEFAULT_WORKER_PORT_BASE else portBase
    }

    function PortsPerWorker(): (p: int)
      ensures p >= 1 && (portsPerWorker >= 1 ==> p == portsPerWorker) && (portsPerWorker < 1 ==> p == 16)
    {
      if portsPerWorker <= 0 then DEFAULT_PORTS_PER_WORKER else portsPerWorker
    }

    /** As many worlds as the free networks have room for. */
    function MaxWorkers(): (m: int)
      ensures var free, each := if networks < 1 then 24 else networks, if networksPerWorld < 1 then
        2 else networksPerWorld;
        m * each <= free < (m + 1) * each
    {
      (if networks <= 0 then DEFAULT_FREE_BRIDGE_NETWORKS else networks)
      / (if networksPerWorld <= 0 then DEFAULT_NETWORKS_PER_WORLD else networksPerWorld)
    }
  }

  datatype Refusal = NoNetworks | TooManyWorkers | NoPorts | PortsTooHigh

  datatype Checked = Fine | Refused(why: Refusal)

  /** The workers fit the networks, and the last port of the last slot is a port. */
  ghost predicate Acceptable(o: Options) {
    && 1 <= o.Workers() <= o.MaxWorkers()
    && o.PortBase() + o.Workers() * o.PortsPerWorker() - 1 <= LAST_PORT
  }

  method Validate(o: Options) returns (r: Checked)
    ensures r == Fine <==> Acceptable(o)
    ensures r == Refused(NoNetworks) <==> o.MaxWorkers() < 1
    ensures r == Refused(TooManyWorkers) <==> 1 <= o.MaxWorkers() < o.Workers()
    ensures r != Refused(NoPorts)
  {
    var w, most := o.Workers(), o.MaxWorkers();
    if most < 1 {
      return Refused(NoNetworks);
    }
    if w > most {
      return Refused(TooManyWorkers);
    }
    if o.PortsPerWorker() < 1 {
      return Refused(NoPorts);
    }
    var last := o.PortBase() + w * o.PortsPerWorker() - 1;
    if last > LAST_PORT {
      return Refused(PortsTooHigh);
    }
    r := Fine;
  }

  /** Slot `i`'s port for each of the nodes its band has room for. */
  method NewSlot(o: Options, i: nat, nodes: nat) returns (ports: seq<int>)
    ensures |ports| == if nodes < o.PortsPerWorker() then nodes else o.PortsPerWorker()
    ensures InBand(o, i, ports)
  {
    var base := o.PortBase() + i * o.PortsPerWorker();
    ports := [];
    for j := 0 to nodes
      invariant |ports| == j <= o.PortsPerWorker()
      invariant forall k :: 0 <= k < j ==> ports[k] == base + k
    {
      if j >= o.PortsPerWorker() {
        break;
      }
      ports := ports + [base + j];
    }
  }

  method AllocateSlots(o: Options, nodes: nat) returns (r: Checked, slots: seq<seq<int>>)
    ensures r == Fine <==> Acceptable(o)
    ensures r == Fine ==> |slots| == o.Workers() && PortsApart(slots)
    ensures forall k :: 0 <= k < |slots| ==>
      InBand(o, k, slots[k]) && |slots[k]| == if nodes < o.PortsPerWorker() then nodes else o.PortsPerWorker()
    ensures r != Fine ==> slots == []
  {
    slots := [];
    r := Validate(o);
    if r != Fine {
      return;
    }
    for i := 0 to o.Workers()
      invariant |slots| == i && forall k :: 0 <= k < i ==>
        InBand(o, k, slots[k]) && |slots[k]| == if nodes < o.PortsPerWorker() then nodes else o.PortsPerWorker()
    {
      var ports := NewSlot(o, i, nodes);
      slots := slots + [ports];
    }
    BandsApart(o, slots);
  }

  /** No port is used twice, by one slot or by two, and all are real port numbers. */
  ghost predicate PortsApart(slots: seq<seq<int>>) {
    && (forall i, j :: HasPort(slots, i, j) ==> 0 < slots[i][j] <= LAST_PORT)
    && forall i, j, k, l :: HasPort(slots, i, j) && HasPort(slots, k, l) && slots[i][j] == slots[k][l] ==>
         i == k && j == l
  }

  ghost predicate HasPort(slots: seq<seq<int>>, i: int, j: int) {
    0 <= i < |slots| && 0 <= j < |slots[i]|
  }

  /** The ports are consecutive from the start of slot `i`'s band, and stay inside it. */
  ghost predicate InBand(o: Options, i: nat, ports: seq<int>) {
    && |ports| <= o.PortsPerWorker()
    && forall j :: 0 <= j < |ports| ==> ports[j] == o.PortBase() + i * o.PortsPerWorker() + j
  }

  lemma BandBelow(per: int, i: int, k: int, j: int)
    requires 0 <= i < k && 0 <= j < per
    ensures i * per + j < k * per
  {
    assert (i + 1) * per <= k * per;
  }

  lemma BandsApart(o: Options, slots: seq<seq<int>>)
    requires forall k :: 0 <= k < |slots| ==> InBand(o, k, slots[k])
    requires |slots| == o.Workers() && o.PortBase() + o.Workers() * o.PortsPerWorker() - 1 <= LAST_PORT
    ensures PortsApart(slots)
  {
    var per, base := o.PortsPerWorker(), o.PortBase();
    forall i, j | HasPort(slots, i, j)
      ensures slots[i][j] == base + i * per + j && j < per && 0 < slots[i][j] <= LAST_PORT
    {
      assert InBand(o, i, slots[i]);
      BandBelow(per, i, |slots|, j);
      assert i * per >= 0;
    }
    forall i, j, k, l | HasPort(slots, i, j) && HasPort(slots, k, l) && slots[i][j] == slots[k][l]
      ensures i == k && j == l
    {
      if i < k {
        BandBelow(per, i, k, j);
      } else if k < i {
        BandBelow(per, k, i, l);
      }
    }
  }

  // --- The pool -----------------------------------------------------------------------------------

  /** What asking for a slot comes to: a slot, nothing ever, the caller having given up, or
      waiting for a world in flight. */
  datatype Acquired = Got(slot: nat) | PoolExhausted | GivenUp | Blocked

  /** Free, lent and retired slots are all the slots, each once. */
  ghost predicate Partition(total: nat, free: seq<nat>, held: set<nat>, retired: seq<nat>) {
    && Ascending(free)
    && (forall i, j :: 0 <= i < j < |retired| ==> retired[i] != retired[j])
    && (forall i: nat :: i < total <==> i in free || i in held || i in retired)
    && (forall i :: i in free ==> i !in held && i !in retired)
    && (forall i :: i in held ==> i !in retired)
  }

  lemma Lend(total: nat, free: seq<nat>, held: set<nat>, retired: seq<nat>)
    requires Partition(total, free, held, retired) && free != []
    ensures Partition(total, free[1..], held + {free[0]}, retired)
    ensures free[0] in free && free[0] !in held && free[0] !in retired
  {
    var i, rest := free[0], free[1..];
    assert free == [i] + rest && i in free;
    assert forall x :: x in free <==> x == i || x in rest;
    forall k | 0 <= k < |rest| ensures rest[k] != i {
      assert free[0] < free[k + 1];
    }
  }

  lemma GiveBack(total: nat, free: seq<nat>, held: set<nat>, retired: seq<nat>, i: nat, free': seq<nat>)
    requires Partition(total, free, held, retired) && i in held
    requires Ascending(free') && forall x :: x in free' <==> x == i || x in free
    ensures Partition(total, free', held - {i}, retired)
  {
  }

  lemma Withdraw(total: nat, free: seq<nat>, held: set<nat>, retired: seq<nat>, i: nat)
    requires Partition(total, free, held, retired) && i in held
    ensures Partition(total, free, held - {i}, retired + [i])
  {
    forall j, k | 0 <= j < k < |retired| + 1 ensures (retired + [i])[j] != (retired + [i])[k] {
      assert retired[j] in retired;
    }
  }

  lemma NothingHeld(total: nat, held: set<nat>, retired: seq<nat>)
    requires Partition(total, [], held, retired) && |held| == 0
    ensures forall i: nat :: i < total ==> i in retired
  {
  }

  class SlotPool {
    const total: nat
    var free: seq<nat>
    var retired: seq<nat>
    var inflight: nat
    /** The slots now lent out. */
    ghost var held: set<nat>

    ghost predicate Valid()
      reads this
    {
      Partition(total, free, held, retired) && inflight == |held|
    }

    ghost function RetiredSet(): set<nat>
      reads this
    {
      set s | s in retired
    }

    constructor (n: nat)
      ensures Valid() && total == n && retired == [] && held == {} && free == seq(n, i => i)
    {
      total, free, retired, inflight, held := n, seq(n, i => i), [], 0, {};
      new;
      forall i: nat | i < n ensures i in free {
        assert free[i] == i;
      }
    }

    /** One attempt of `acquire`'s loop, under the lock. */
    method Acquire(canceled: bool) returns (r: Acquired)
      requires Valid()
      modifies this
      ensures Valid() && retired == old(retired)
      ensures RetiredSet() == old(RetiredSet())
      ensures r.Got? ==> r.slot in old(free) && r.slot !in old(held) && r.slot !in RetiredSet()
      ensures r.Got? ==> r.slot == old(free)[0] && free == old(free)[1..] && held == old(held) + {r.slot}
      ensures !r.Got? ==> free == old(free) == [] && held == old(held)
      ensures r.Got? <==> old(free) != []
      ensures r == GivenUp <==> old(free) == [] && canceled
      ensures r == PoolExhausted <==> old(free) == [] && !canceled && held == {}
      ensures r == PoolExhausted ==> forall i: nat :: i < total ==> i in RetiredSet()
    {
      hide Partition;
      if |free| > 0 {
        Lend(total, free, held, retired);
        var i := free[0];
        free := free[1..];
        inflight := inflight + 1;
        held := held + {i};
        return Got(i);
      }
      if canceled {
        return GivenUp;
      }
      if inflight == 0 {
        NothingHeld(total, held, retired);
        return PoolExhausted;
      }
      r := Blocked;
    }

    method Release(i: nat)
      requires Valid() && i in held
      modifies this
      ensures Valid() && retired == old(retired) && held == old(held) - {i}
      ensures forall x :: x in free <==> x == i || x in old(free)
    {
      assert i !in free;
      hide Partition;
      ghost var free0 := free;
      assert Ascending(free) by { Sorted(total, free, held, retired); }
      free := Insert(free, i);
      GiveBack(total, free0, held, retired, i, free);
      inflight := inflight - 1;
      held := held - {i};
    }

    method Retire(i: nat)
      requires Valid() && i in held
      modifies this
      ensures Valid() && free == old(free) && held == old(held) - {i} && retired == old(retired) + [i]
    {
      hide Partition;
      Withdraw(total, free, held, retired, i);
      inflight := inflight - 1;
      held := held - {i};
      retired := retired + [i];
    }
  }

  /** A lent slot comes back only when its world's teardown was verified. */
  method TakeBack(pool: SlotPool, s: nat, tornDown: bool)
    requires pool.Valid() && s in pool.held
    modifies pool
    ensures pool.Valid() && pool.held == old(pool.held) - {s} && s < pool.total
    ensures pool.RetiredSet() == if tornDown then old(pool.RetiredSet()) else old(pool.RetiredSet()) + {s}
  {
    if tornDown {
      pool.Release(s);
    } else {
      pool.Retire(s);
    }
  }

  lemma Sorted(total: nat, free: seq<nat>, held: set<nat>, retired: seq<nat>)
    requires Partition(total, free, held, retired)
    ensures Ascending(free)
  {
  }

  // --- A batch of worlds ------------------------------------------------------------------------

  /** How one request ends: on a slot, with or without a verified teardown; never started,
      because the batch was cancelled first; or without the slot it asked for, which fails
      the batch. */
  datatype WorldOutcome =
    | Ran(slot: nat, tornDown: bool)
    | NeverStarted
    | NoSlot(why: Acquired)

  /** The requests dispatched so far are in flight or done, and those in flight hold the
      lent slots, one each. */
  ghost predicate Settled(next: nat, running: map<nat, nat>, out: map<nat, WorldOutcome>, held: set<nat>) {
    && (forall i: nat :: i < next <==> i in running || i in out)
    && (forall i :: i in running ==> i !in out && running[i] in held)
    && (forall s :: s in held ==> HeldBySomeone(running, s))
    && (forall i, j :: i in running && j in running && i != j ==> running[i] != running[j])
  }

  ghost predicate HeldBySomeone(running: map<nat, nat>, s: nat) {
    exists i :: i in running && running[i] == s
  }

  /** World `i` has, or had, slot `s`. */
  ghost predicate Used(running: map<nat, nat>, out: map<nat, WorldOutcome>, i: nat, s: nat) {
    (i in running && running[i] == s) || (i in out && out[i].Ran? && out[i].slot == s)
  }

  /** World `i` left slot `s` with its teardown unverified. */
  ghost predicate Leaked(out: map<nat, WorldOutcome>, i: nat, s: nat) {
    i in out && out[i] == Ran(s, false)
  }

  /** No world is given a slot that an earlier one still has, or left with its teardown
      unverified. */
  ghost predicate Isolated(running: map<nat, nat>, out: map<nat, WorldOutcome>, retired: set<nat>) {
    && (forall i, j, s :: i < j && i in running && running[i] == s ==> !Used(running, out, j, s))
    && (forall i, j, s :: i < j && Leaked(out, i, s) ==> !Used(running, out, j, s))
    && (forall i, s :: Leaked(out, i, s) ==> s in retired)
  }

  /** No world is, or was, on a slot that had been retired before the batch. */
  ghost predicate Avoids(running: map<nat, nat>, out: map<nat, WorldOutcome>, lost: set<nat>) {
    forall i, s :: Used(running, out, i, s) ==> s !in lost
  }

  lemma AvoidsMore(running: map<nat, nat>, out: map<nat, WorldOutcome>, lost: set<nat>, next: nat, s: nat)
    requires Avoids(running, out, lost) && s !in lost
    ensures Avoids(running[next := s], out, lost)
  {
    var running' := running[next := s];
    forall j, t | Used(running', out, j, t) ensures t !in lost {
      assert t == s || Used(running, out, j, t);
    }
  }

  lemma AvoidsWithout(running: map<nat, nat>, out: map<nat, WorldOutcome>, lost: set<nat>, next: nat, o: WorldOutcome)
    requires Avoids(running, out, lost) && !o.Ran?
    ensures Avoids(running, out[next := o], lost)
  {
    var out' := out[next := o];
    forall j, t | Used(running, out', j, t) ensures t !in lost {
      assert Used(running, out, j, t);
    }
  }

  lemma AvoidsAfter(running: map<nat, nat>, out: map<nat, WorldOutcome>, lost: set<nat>, i: nat, tornDown: bool)
    requires Avoids(running, out, lost) && i in running
    ensures Avoids(running - {i}, out[i := Ran(running[i], tornDown)], lost)
  {
    var running', out' := running - {i}, out[i := Ran(running[i], tornDown)];
    forall j, t | Used(running', out', j, t) ensures t !in lost {
      assert Used(running, out, j, t);
    }
  }

  lemma Started(next: nat, running: map<nat, nat>, out: map<nat, WorldOutcome>, held: set<nat>, retired: set<nat>,
                s: nat)
    requires Settled(next, running, out, held) && Isolated(running, out, retired) && s !in held && s !in retired
    ensures Settled(next + 1, running[next := s], out, held + {s}) && Isolated(running[next := s], out, retired)
    ensures next !in running && next !in out
  {
    var running' := running[next := s];
    forall j: nat, t: nat | Used(running', out, j, t)
      ensures (j < next && Used(running, out, j, t)) || (j == next && t == s)
    {
    }
    forall t | t in held + {s} ensures HeldBySomeone(running', t) {
      if t == s {
        assert running'[next] == s;
      } else {
        var i :| i in running && running[i] == t;
        assert running'[i] == t;
      }
    }
  }

  lemma Skipped(next: nat, running: map<nat, nat>, out: map<nat, WorldOutcome>, held: set<nat>, retired: set<nat>,
                o: WorldOutcome)
    requires Settled(next, running, out, held) && Isolated(running, out, retired) && !o.Ran?
    ensures Settled(next + 1, running, out[next := o], held) && Isolated(running, out[next := o], retired)
    ensures next !in running && next !in out
  {
    var out' := out[next := o];
    assert forall i, s :: Leaked(out', i, s) ==> Leaked(out, i, s);
    assert forall i, s :: Used(running, out', i, s) ==> Used(running, out, i, s);
  }

  lemma Ended(next: nat, running: map<nat, nat>, out: map<nat, WorldOutcome>, held: set<nat>, retired: set<nat>,
              i: nat, tornDown: bool)
    requires Settled(next, running, out, held) && Isolated(running, out, retired) && i in running
    ensures var s := running[i];
      && Settled(next, running - {i}, out[i := Ran(s, tornDown)], held - {s})
      && Isolated(running - {i}, out[i := Ran(s, tornDown)], if tornDown then retired else retired + {s})
  {
    var s := running[i];
    var running', out' := running - {i}, out[i := Ran(s, tornDown)];
    forall t | t in held - {s} ensures HeldBySomeone(running', t) {
      var j :| j in running && running[j] == t;
      assert running'[j] == t;
    }
    assert forall j, t :: Used(running', out', j, t) <==> Used(running, out, j, t);
    assert forall j, t :: Leaked(out', j, t) ==> Leaked(out, j, t) || (j == i && t == s);
  }

  /** The batch failed exactly when some request got no slot, and for such a reason. */
  ghost predicate FatalIs(out: map<nat, WorldOutcome>, fatal: Option<Acquired>) {
    && (fatal.None? ==> forall i :: i in out ==> !out[i].NoSlot?)
    && (fatal.Some? ==> exists i :: i in out && out[i] == NoSlot(fatal.value))
  }

  lemma FatalAfter(out: map<nat, WorldOutcome>, fatal: Option<Acquired>, i: nat, o: WorldOutcome)
    requires FatalIs(out, fatal) && i !in out
    ensures FatalIs(out[i := o], if fatal.None? && o.NoSlot? then Some(o.why) else fatal)
  {
    if fatal.Some? {
      var j :| j in out && out[j] == NoSlot(fatal.value);
      assert out[i := o][j] == NoSlot(fatal.value);
    } else if o.NoSlot? {
      assert out[i := o][i] == NoSlot(o.why);
    }
  }

  /** Where a batch stands: `held` and `retired` are the pool's, `lost` what earlier batches
      retired. */
  ghost predicate BatchOk(next: nat, running: map<nat, nat>, out: map<nat, WorldOutcome>, fatal: Option<Acquired>,
                          held: set<nat>, retired: set<nat>, lost: set<nat>) {
    && Settled(next, running, out, held) && Isolated(running, out, retired)
    && lost <= retired && Avoids(running, out, lost) && FatalIs(out, fatal)
  }

  lemma OkStart(retired: set<nat>)
    ensures BatchOk(0, map[], map[], None, {}, retired, retired)
  {
  }

  lemma OkStarted(next: nat, running: map<nat, nat>, out: map<nat, WorldOutcome>, fatal: Option<Acquired>,
                  held: set<nat>, retired: set<nat>, lost: set<nat>, s: nat)
    requires BatchOk(next, running, out, fatal, held, retired, lost) && s !in held && s !in retired
    ensures BatchOk(next + 1, running[next := s], out, fatal, held + {s}, retired, lost)
    ensures next !in running && next !in out
  {
    hide Settled, Isolated, Avoids, FatalIs;
    Started(next, running, out, held, retired, s);
    AvoidsMore(running, out, lost, next, s);
  }

  lemma OkSkipped(next: nat, running: map<nat, nat>, out: map<nat, WorldOutcome>, fatal: Option<Acquired>,
                  held: set<nat>, retired: set<nat>, lost: set<nat>, o: WorldOutcome)
    requires BatchOk(next, running, out, fatal, held, retired, lost) && !o.Ran?
    ensures BatchOk(next + 1, running, out[next := o], if fatal.None? && o.NoSlot? then Some(o.why) else fatal,
                    held, retired, lost)
    ensures next !in running && next !in out
  {
    hide Settled, Isolated, Avoids, FatalIs;
    Skipped(next, running, out, held, retired, o);
    AvoidsWithout(running, out, lost, next, o);
    FatalAfter(out, fatal, next, o);
  }

  lemma OkEnded(next: nat, running: map<nat, nat>, out: map<nat, WorldOutcome>, fatal: Option<Acquired>,
                held: set<nat>, retired: set<nat>, lost: set<nat>, i: nat, tornDown: bool)
    requires BatchOk(next, running, out, fatal, held, retired, lost) && i in running
    ensures running[i] in held && i !in out
    ensures var s := running[i];
      BatchOk(next, running - {i}, out[i := Ran(s, tornDown)], fatal, held - {s},
              if tornDown then retired else retired + {s}, lost)
  {
    Holds(next, running, out, held, i);
    hide Settled, Isolated, Avoids, FatalIs;
    Ended(next, running, out, held, retired, i, tornDown);
    AvoidsAfter(running, out, lost, i, tornDown);
    FatalAfter(out, fatal, i, Ran(running[i], tornDown));
  }

  /** Why a request that gets no slot does not get one. */
  function Skip(canceled: bool, canceledWaiting: bool): WorldOutcome {
    if canceled then NeverStarted else if canceledWaiting then NoSlot(GivenUp) else NoSlot(PoolExhausted)
  }

  ghost predicate AllRetired(total: nat, retired: set<nat>) {
    forall s: nat :: s < total ==> s in retired
  }

  /** What the environment decides at each step: whether the next request is tried before a
      world in flight ends, and which world that is; whether the batch, or the wait for a
      slot, has been cancelled; and whether the teardown of the world that ends is verified. */
  datatype Schedule = Schedule(
    first: nat -> bool,
    pick: nat -> nat,
    canceled: nat -> bool,
    canceledWaiting: nat -> bool,
    tornDown: nat -> bool)

  /** A request ran on a slot of the pool, or was cancelled before it had one, or found every
      slot retired. */
  ghost predicate Explained(o: WorldOutcome, sch: Schedule, total: nat, retired: set<nat>) {
    match o
    case Ran(s, tornDown) => s < total && (!tornDown ==> s in retired) && exists step :: sch.tornDown(step) == tornDown
    case NeverStarted => exists step :: sch.canceled(step)
    case NoSlot(why) =>
      || (why == GivenUp && exists step :: sch.canceledWaiting(step))
      || (why == PoolExhausted && AllRetired(total, retired))
  }

  ghost predicate AllExplained(out: map<nat, WorldOutcome>, sch: Schedule, total: nat, retired: set<nat>) {
    forall i :: i in out ==> Explained(out[i], sch, total, retired)
  }

  lemma ExplainSkip(out: map<nat, WorldOutcome>, sch: Schedule, step: nat, total: nat, retired: set<nat>, i: nat)
    requires AllExplained(out, sch, total, retired)
    requires sch.canceled(step) || sch.canceledWaiting(step) || AllRetired(total, retired)
    ensures AllExplained(out[i := Skip(sch.canceled(step), sch.canceledWaiting(step))], sch, total, retired)
  {
    var o := Skip(sch.canceled(step), sch.canceledWaiting(step));
    var out' := out[i := o];
    assert Explained(o, sch, total, retired);
    forall j | j in out' ensures Explained(out'[j], sch, total, retired) {
      assert j != i ==> Explained(out[j], sch, total, retired);
    }
  }

  /** Slots that are retired stay retired, so what was explained stays explained. */
  lemma ExplainRan(out: map<nat, WorldOutcome>, sch: Schedule, step: nat, total: nat, retired: set<nat>,
                   retired': set<nat>, i: nat, s: nat)
    requires AllExplained(out, sch, total, retired)
    requires s < total && retired' == retired + if sch.tornDown(step) then {} else {s}
    ensures AllExplained(out[i := Ran(s, sch.tornDown(step))], sch, total, retired')
  {
    var out' := out[i := Ran(s, sch.tornDown(step))];
    forall j | j in out' ensures Explained(out'[j], sch, total, retired') {
      assert j != i ==> Explained(out[j], sch, total, retired);
    }
  }

  class ParallelRun {
    const pool: SlotPool
    const requests: nat
    /** How many requests have been dispatched; they go in order. */
    var next: nat
    /** The slot of each world in flight. */
    var running: map<nat, nat>
    var out: map<nat, WorldOutcome>
    /** Why the first request that got no slot did not get one. */
    var fatal: Option<Acquired>
    /** The slots that earlier batches retired. */
    ghost const lost: set<nat>

    ghost predicate Valid()
      reads this, pool
    {
      pool.Valid() && next <= requests && BatchOk(next, running, out, fatal, pool.held, pool.RetiredSet(), lost)
    }

    /** A batch on a pool that no other batch is using. */
    constructor (pool: SlotPool, requests: nat)
      requires pool.Valid() && pool.held == {}
      ensures Valid() && this.pool == pool && this.requests == requests && lost == pool.RetiredSet()
      ensures next == 0 && running == map[] && out == map[]
    {
      this.pool, this.requests, next, running, out, fatal := pool, requests, 0, map[], map[], None;
      lost := pool.RetiredSet();
      OkStart(pool.RetiredSet());
    }

    /** The next request is given a slot, or an outcome without one, or waits. */
    method Dispatch(canceled: bool, canceledWaiting: bool) returns (moved: bool)
      requires Valid() && next < requests
      modifies this, pool
      ensures Valid() && pool.RetiredSet() == old(pool.RetiredSet())
      ensures !moved <==> !canceled && !canceledWaiting && old(pool.free) == [] && old(pool.held) != {}
      ensures !moved ==> next == old(next) && running == old(running) != map[] && out == old(out)
      ensures moved ==> next == old(next) + 1
      ensures moved && !canceled && old(pool.free) != [] ==>
        running == old(running)[old(next) := old(pool.free)[0]] && out == old(out)
      ensures moved && (canceled || old(pool.free) == []) ==>
        running == old(running) && out == old(out)[old(next) := Skip(canceled, canceledWaiting)]
      ensures moved ==> old(next) !in old(out) && old(next) !in old(running)
      ensures moved && !canceled && !canceledWaiting && old(pool.free) == [] ==>
        AllRetired(pool.total, pool.RetiredSet())
    {
      hide BatchOk, Partition, SlotPool.Valid, SlotPool.RetiredSet;
      ghost var held, retired := pool.held, pool.RetiredSet();
      var o := NeverStarted;
      if !canceled {
        var r := pool.Acquire(canceledWaiting);
        if r.Blocked? {
          SomeoneRuns(next, running, out, fatal, held, retired, lost);
          return false;
        }
        if r.Got? {
          OkStarted(next, running, out, fatal, held, retired, lost, r.slot);
          running := running[next := r.slot];
          next := next + 1;
          return true;
        }
        o := NoSlot(r);
      }
      OkSkipped(next, running, out, fatal, held, retired, lost, o);
      if fatal.None? && o.NoSlot? {
        fatal := Some(o.why);
      }
      out := out[next := o];
      next := next + 1;
      moved := true;
    }

    /** A world ends: its slot goes back only when its teardown was verified. */
    method Finish(i: nat, tornDown: bool)
      requires Valid() && i in running
      modifies this, pool
      ensures Valid() && next == old(next)
      ensures running == old(running) - {i} && out == old(out)[i := Ran(old(running)[i], tornDown)]
      ensures i !in old(out) && old(running)[i] < pool.total
      ensures pool.RetiredSet() == old(pool.RetiredSet()) + if tornDown then {} else {old(running)[i]}
    {
      hide BatchOk, Partition, SlotPool.Valid, SlotPool.RetiredSet;
      var s := running[i];
      OkEnded(next, running, out, fatal, pool.held, pool.RetiredSet(), lost, i, tornDown);
      TakeBack(pool, s, tornDown);
      running := running - {i};
      out := out[i := Ran(s, tornDown)];
    }

    /** One step: the next request is dispatched, or a world in flight ends. */
    method Step(sch: Schedule, step: nat)
      requires Valid() && (next < requests || |running| > 0)
      requires AllExplained(out, sch, pool.total, pool.RetiredSet())
      modifies this, pool
      ensures Valid() && AllExplained(out, sch, pool.total, pool.RetiredSet())
      ensures next > old(next) || (next == old(next) && |running| < old(|running|))
    {
      hide BatchOk, SlotPool.Valid, SlotPool.RetiredSet, AllExplained, Explained;
      ghost var done, retired := out, pool.RetiredSet();
      var moved := false;
      if next < requests && (sch.first(step) || |running| == 0) {
        ghost var n := next;
        moved := Dispatch(sch.canceled(step), sch.canceledWaiting(step));
        if moved && out != done {
          ExplainSkip(done, sch, step, pool.total, retired, n);
        }
      }
      if !moved {
        var i :| i in running;
        if sch.pick(step) in running {
          i := sch.pick(step);
        }
        ghost var s := running[i];
        Finish(i, sch.tornDown(step));
        ExplainRan(done, sch, step, pool.total, retired, pool.RetiredSet(), i, s);
      }
    }

    /** The whole batch, under any schedule. */
    method Run(sch: Schedule)
      requires Valid() && next == 0
      modifies this, pool
      ensures Valid() && running == map[] && pool.held == {} && forall i: nat :: i < requests <==> i in out
      ensures AllExplained(out, sch, pool.total, pool.RetiredSet())
    {
      NothingYet(next, running, out, fatal, pool.held, pool.RetiredSet(), lost);
      hide BatchOk, SlotPool.Valid, SlotPool.RetiredSet, Explained;
      var step := 0;
      while next < requests || |running| > 0
        invariant Valid() && AllExplained(out, sch, pool.total, pool.RetiredSet())
        decreases requests - next, |running|
      {
        Step(sch, step);
        step := step + 1;
      }
      AllSettled(next, running, out, fatal, pool.held, pool.RetiredSet(), lost);
    }
  }

  lemma NothingYet(next: nat, running: map<nat, nat>, out: map<nat, WorldOutcome>, fatal: Option<Acquired>,
                   held: set<nat>, retired: set<nat>, lost: set<nat>)
    requires BatchOk(next, running, out, fatal, held, retired, lost) && next == 0
    ensures running == map[] && out == map[]
  {
  }

  lemma Holds(next: nat, running: map<nat, nat>, out: map<nat, WorldOutcome>, held: set<nat>, i: nat)
    requires Settled(next, running, out, held) && i in running
    ensures running[i] in held && i !in out
  {
  }

  lemma SomeoneRuns(next: nat, running: map<nat, nat>, out: map<nat, WorldOutcome>, fatal: Option<Acquired>,
                    held: set<nat>, retired: set<nat>, lost: set<nat>)
    requires BatchOk(next, running, out, fatal, held, retired, lost) && held != {}
    ensures running != map[]
  {
    var s :| s in held;
    assert HeldBySomeone(running, s);
  }

  lemma AllSettled(next: nat, running: map<nat, nat>, out: map<nat, WorldOutcome>, fatal: Option<Acquired>,
                   held: set<nat>, retired: set<nat>, lost: set<nat>)
    requires BatchOk(next, running, out, fatal, held, retired, lost) && |running| == 0
    ensures running == map[] && held == {} && forall i: nat :: i < next <==> i in out
  {
    if s :| s in held {
      NobodyHolds(running, s);
    }
  }

  lemma NobodyHolds(running: map<nat, nat>, s: nat)
    requires |running| == 0
    ensures !HeldBySomeone(running, s)
  {
  }
}
