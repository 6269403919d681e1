/** A run: its budget, its worlds one after another, and its verdict. */
module Runner {
  import opened Wrappers
  import opened Outcomes
  import opened WorldRun

  const WORLDS_UNBOUNDED := -1

  /** A profile's own numbers, as the configuration writes them. */
  datatype Profile = Profile(wall: int, worlds: Option<int>, minWorlds: Option<int>)

  /** Zero or less means unbounded, for wall time and for worlds. */
  datatype Budget = Budget(wall: int, worlds: int, requiredWall: int, requiredWorlds: int, narrowed: bool,
                           minWorlds: int) {
    predicate WallUnbounded() { wall <= 0 }

    predicate WorldsUnbounded() { worlds <= 0 }

    /** How many worlds have to finish before the gate has been performed. */
    ghost function Required(): (n: int)
      ensures n >= 1 && (worlds > 0 ==> n == worlds)
      ensures worlds <= 0 ==> n >= minWorlds && (n == minWorlds || n == 1)
    {
      if WorldsUnbounded() then (if minWorlds < 1 then 1 else minWorlds) else worlds
    }
  }

  function BudgetForProfile(p: Profile): (b: Budget)
    ensures !b.narrowed && b.wall == p.wall
    ensures p.worlds.Some? && p.worlds.value > 0 ==> b.worlds == p.worlds.value == b.Required()
    ensures p.worlds.None? || p.worlds.value <= 0 ==> b.WorldsUnbounded()
    ensures b.WorldsUnbounded() ==> b.minWorlds == (if p.minWorlds.Some? then p.minWorlds.value else 1)
  {
    var worlds := if p.worlds.Some? then p.worlds.value else WORLDS_UNBOUNDED;
    Budget(p.wall, worlds, 0, 0, false,
           if worlds > 0 then 0 else if p.minWorlds.Some? then p.minWorlds.value else 1)
  }

  /** `spent` is over the limit, where zero or less is no limit. */
  ghost predicate Over(limit: int, spent: int) {
    limit > 0 && spent >= limit
  }

  /** Numbers from the command line, which may only narrow the profile's: what is over either
      wall budget is over the result's. A profile that asks for zero worlds is left open-ended. */
  function ApplyCliOverrides(b: Budget, cliWall: int, cliWorlds: int): (r: Budget)
    ensures r.requiredWall == b.wall && r.requiredWorlds == b.worlds && r.minWorlds == b.minWorlds
    ensures !b.WallUnbounded() ==> !r.WallUnbounded() && r.wall <= b.wall
    ensures !b.WorldsUnbounded() ==> !r.WorldsUnbounded() && r.worlds <= b.worlds
    ensures !r.narrowed && !b.narrowed ==> r.wall == b.wall && r.worlds == b.worlds
    ensures b.narrowed ==> r.narrowed
    ensures forall t :: Over(r.wall, t) <==> Over(b.wall, t) || Over(cliWall, t)
    ensures b.worlds != 0 ==> forall n :: Over(r.worlds, n) <==> Over(b.worlds, n) || Over(cliWorlds, n)
    ensures b.worlds == 0 ==> r.worlds == 0
    ensures r.narrowed ==> b.narrowed || r.wall != b.wall || r.worlds != b.worlds
    ensures r.wall != b.wall || r.worlds != b.worlds ==> r.narrowed
  {
    var r := b.(requiredWall := b.wall, requiredWorlds := b.worlds);
    var s := if cliWall > 0 && (r.wall <= 0 || cliWall < r.wall) then r.(wall := cliWall, narrowed := true) else r;
    if cliWorlds > 0 && (s.worlds < 0 || cliWorlds < s.worlds) then s.(worlds := cliWorlds, narrowed := true) else s
  }

  class BudgetTracker {
    const budget: Budget
    var started: nat
    var completed: nat

    constructor (budget: Budget)
      ensures this.budget == budget && started == 0 && completed == 0
    {
      this.budget, started, completed := budget, 0, 0;
    }

    predicate WallExpired(elapsed: int) {
      !budget.WallUnbounded() && elapsed >= budget.wall
    }

    predicate WorldsExhausted()
      reads this
    {
      !budget.WorldsUnbounded() && started >= budget.worlds
    }

    method NoteWorldStarted()
      modifies this
      ensures started == old(started) + 1 && completed == old(completed)
    {
      started := started + 1;
    }

    method NoteWorldFinished()
      modifies this
      ensures completed == old(completed) + 1 && started == old(started)
    {
      completed := completed + 1;
    }
  }

  /** What expiry means for a run that found nothing wrong. */
  function ExpiryOutcome(b: Budget, finished: nat): (o: Outcome)
    ensures o == if finished >= b.Required() then Pass else BudgetExhausted
  {
    if b.WorldsUnbounded() then
      var min := if b.minWorlds < 1 then 1 else b.minWorlds;
      if finished >= min then Pass else BudgetExhausted
    else if finished >= b.worlds then Pass
    else BudgetExhausted
  }

  datatype LockStatus = LockOk | LockBypassed | LockAbsent | LockDrifted

  /** The verdict on a run. A narrowed one is no PASS, and its lock is not called ok. */
  function BuildVerdict(o: Outcome, narrowed: bool, lock: LockStatus): (r: (Verdict, LockStatus))
    ensures r.0 == VerdictPass <==> o == Pass && !narrowed
    ensures r.0 == VerdictFail <==> o == Violation
    ensures r.1 == LockOk <==> lock == LockOk && !narrowed
    ensures lock == LockAbsent || lock == LockDrifted ==> r.1 == lock
  {
    var outcome := if narrowed && o == Pass then Inconclusive else o;
    (outcome.Result(), if narrowed && lock == LockOk then LockBypassed else lock)
  }

  ghost predicate Monotone(clock: nat -> int) {
    forall i: nat, j: nat :: i <= j ==> clock(i) <= clock(j)
  }

  ghost predicate AllEarned(worlds: seq<Env>, ran: nat)
    requires ran <= |worlds|
  {
    forall i :: 0 <= i < ran ==> Earned(worlds[i])
  }

  ghost predicate SomeViolated(worlds: seq<Env>, ran: nat)
    requires ran <= |worlds|
  {
    exists i :: 0 <= i < ran && Violated(worlds[i])
  }

  ghost predicate Violated(e: Env) {
    RunsToEnd(e) && ProvesViolation(e.oracles)
  }

  lemma NoWorlds(worlds: seq<Env>)
    ensures AllEarned(worlds, 0) && !SomeViolated(worlds, 0)
  {
  }

  lemma OneMoreWorld(worlds: seq<Env>, ran: nat)
    requires ran < |worlds|
    ensures AllEarned(worlds, ran + 1) <==> AllEarned(worlds, ran) && Earned(worlds[ran])
    ensures SomeViolated(worlds, ran + 1) <==> SomeViolated(worlds, ran) || Violated(worlds[ran])
  {
    if SomeViolated(worlds, ran) {
      var i :| 0 <= i < ran && Violated(worlds[i]);
    }
  }

  /** Nothing more fits into the budget once `i` worlds have run. */
  ghost predicate Spent(b: Budget, clock: nat -> int, i: nat) {
    (!b.WorldsUnbounded() && i >= b.worlds) || (!b.WallUnbounded() && clock(i) >= b.wall)
  }

  /** World `i` may start: there is budget for it and nobody has cancelled the run. */
  ghost predicate MayStart(b: Budget, clock: nat -> int, canceled: nat -> bool, worlds: seq<Env>, i: nat) {
    !Spent(b, clock, i) && i < |worlds| && !canceled(i)
  }

  /** Worlds run as long as they may start, and a violation stops them. */
  ghost predicate RanUntil(b: Budget, clock: nat -> int, canceled: nat -> bool, worlds: seq<Env>, ran: nat)
    requires ran <= |worlds|
  {
    && (forall i :: 0 <= i < ran ==> MayStart(b, clock, canceled, worlds, i))
    && (forall i :: 0 <= i < ran - 1 ==> !Violated(worlds[i]))
    && (MayStart(b, clock, canceled, worlds, ran) ==> SomeViolated(worlds, ran))
  }

  /** The run was cancelled while it still had budget and had found no violation. */
  ghost predicate GaveUp(b: Budget, clock: nat -> int, canceled: nat -> bool, worlds: seq<Env>, ran: nat)
    requires ran <= |worlds|
  {
    !SomeViolated(worlds, ran) && !Spent(b, clock, ran) && !MayStart(b, clock, canceled, worlds, ran)
  }

  lemma StopsHere(b: Budget, clock: nat -> int, canceled: nat -> bool, worlds: seq<Env>, ran: nat)
    requires ran <= |worlds| && !SomeViolated(worlds, ran)
    requires forall i :: 0 <= i < ran ==> MayStart(b, clock, canceled, worlds, i)
    ensures !MayStart(b, clock, canceled, worlds, ran) ==> RanUntil(b, clock, canceled, worlds, ran)
  {
  }

  /** The world loop: `clock` answers successive readings of the elapsed time, `canceled`
      successive looks at the context, and `worlds` says how each world's environment
      behaves. The context is cancelled at the latest when `worlds` runs out. */
  method RunWorlds(tracker: BudgetTracker, clock: nat -> int, canceled: nat -> bool, worlds: seq<Env>)
    returns (outcome: Outcome, ran: nat)
    requires tracker.started == tracker.completed == 0
    modifies tracker
    ensures ran <= |worlds| && tracker.started == tracker.completed == ran
    ensures RanUntil(tracker.budget, clock, canceled, worlds, ran)
    ensures outcome == Pass <==> AllEarned(worlds, ran) && !GaveUp(tracker.budget, clock, canceled, worlds, ran)
    ensures outcome == Violation <==> SomeViolated(worlds, ran)
  {
    hide Earned, AllEarned, SomeViolated, RunsToEnd;
    NoWorlds(worlds);
    outcome, ran := Pass, 0;
    while true
      invariant ran <= |worlds| && tracker.started == tracker.completed == ran
      invariant forall i :: 0 <= i < ran ==> MayStart(tracker.budget, clock, canceled, worlds, i)
      invariant outcome == Pass <==> AllEarned(worlds, ran)
      invariant outcome.Rank() < Violation.Rank() && !SomeViolated(worlds, ran)
      decreases |worlds| - ran
    {
      StopsHere(tracker.budget, clock, canceled, worlds, ran);
      if tracker.WorldsExhausted() {
        break;
      }
      if tracker.WallExpired(clock(ran)) {
        break;
      }
      if ran == |worlds| || canceled(ran) {
        outcome := Canceled;
        break;
      }
      tracker.NoteWorldStarted();
      var w := new World();
      var wres, err := w.Run(worlds[ran]);
      tracker.NoteWorldFinished();
      OneMoreWorld(worlds, ran);
      if wres.outcome.Rank() > outcome.Rank() {
        outcome := wres.outcome;
      }
      ran := ran + 1;
      if wres.outcome == Violation {
        UntilViolated(tracker.budget, clock, canceled, worlds, ran);
        break;
      }
    }
  }

  lemma UntilViolated(b: Budget, clock: nat -> int, canceled: nat -> bool, worlds: seq<Env>, ran: nat)
    requires 0 < ran <= |worlds| && !SomeViolated(worlds, ran - 1) && SomeViolated(worlds, ran)
    requires forall i :: 0 <= i < ran ==> MayStart(b, clock, canceled, worlds, i)
    ensures RanUntil(b, clock, canceled, worlds, ran)
  {
  }

  /** At most one number of worlds fits. */
  lemma RanOnce(b: Budget, clock: nat -> int, canceled: nat -> bool, worlds: seq<Env>, r: nat, r': nat)
    requires r <= |worlds| && RanUntil(b, clock, canceled, worlds, r)
    requires r' <= |worlds| && RanUntil(b, clock, canceled, worlds, r')
    ensures r == r'
  {
    hide RunsToEnd, Violated, Spent;
    var more, more' := MayStart(b, clock, canceled, worlds, r), MayStart(b, clock, canceled, worlds, r');
  }

  /** The budget a run is held to. */
  ghost function RunBudget(profile: Profile, cliWall: int, cliWorlds: int, otherwiseNarrowed: bool): (b: Budget)
    ensures !b.narrowed ==> b.Required() == BudgetForProfile(profile).Required()
  {
    var b := ApplyCliOverrides(BudgetForProfile(profile), cliWall, cliWorlds);
    b.(narrowed := b.narrowed || otherwiseNarrowed)
  }

  /** A whole run. PASS is earned: the budget was the profile's own, the run was not
      cancelled, every world earned its pass, and as many worlds finished as the gate asks
      for. */
  method Run(profile: Profile, cliWall: int, cliWorlds: int, scheduleNarrowed: bool, variantNarrowed: bool,
             clock: nat -> int, canceled: nat -> bool, worlds: seq<Env>, lock: LockStatus)
    returns (verdict: Verdict, lock': LockStatus, ran: nat)
    requires Monotone(clock)
    ensures ran <= |worlds|
    ensures var b := RunBudget(profile, cliWall, cliWorlds, scheduleNarrowed || variantNarrowed);
      && RanUntil(b, clock, canceled, worlds, ran)
      && (verdict == VerdictPass <==>
          !b.narrowed && !GaveUp(b, clock, canceled, worlds, ran) && AllEarned(worlds, ran) && ran >= b.Required())
      && (verdict == VerdictFail <==> SomeViolated(worlds, ran))
      && (lock' == LockOk <==> lock == LockOk && !b.narrowed)
  {
    var b := ApplyCliOverrides(BudgetForProfile(profile), cliWall, cliWorlds);
    if scheduleNarrowed {
      b := b.(narrowed := true);
    }
    if variantNarrowed {
      b := b.(narrowed := true);
    }
    assert b == RunBudget(profile, cliWall, cliWorlds, scheduleNarrowed || variantNarrowed);
    hide Earned, AllEarned, SomeViolated, Violated, ApplyCliOverrides, BudgetForProfile, ExpiryOutcome, RunBudget;
    var tracker := new BudgetTracker(b);
    var outcome;
    outcome, ran := RunWorlds(tracker, clock, canceled, worlds);
    assert clock(ran) <= clock(ran + 1);
    if outcome == Pass && tracker.WallExpired(clock(ran + 1)) {
      outcome := ExpiryOutcome(b, tracker.completed);
    }
    var v := BuildVerdict(outcome, b.narrowed, lock);
    verdict, lock' := v.0, v.1;
  }
}
