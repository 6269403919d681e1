/** One world, from BOOT to TEARDOWN, as its environment lets it run. */
module WorldRun {
  import opened Outcomes

  datatype UpResult = Booted | ProjectInUse | UpFailed

  datatype ExecResult = Ran | ExecFailed | ExecCanceled

  datatype Status = StatusOk | StatusViolated | StatusUnclear | OracleErred {
    function Outcome(): (o: Outcome)
      ensures o == Pass <==> this == StatusOk
      ensures o == Violation <==> this == StatusViolated
      ensures o == Pass || o == Violation || o == Inconclusive
    {
      match this
      case StatusOk => Pass
      case StatusViolated => Violation
      case _ => Inconclusive
    }
  }

  datatype OracleRun = EngineFailed | Findings(findings: seq<Status>)

  /** How the environment answers each thing a world asks of it. */
  datatype Env = Env(
    driverProfileKnown: bool, directories: bool, phaseLog: bool,
    bootAdvance: bool, up: UpResult, imagesWanted: bool, imagesMatch: bool, portsAgree: bool, injectors: bool,
    seedAdvance: bool, telemetry: bool, steadyState: bool,
    driveAdvance: bool, plan: bool, driverStart: bool,
    perturbNest: bool, compiles: bool, faultless: bool, driveWindow: bool, exec: ExecResult,
    healAdvance: bool, heal: bool, lateHeal: bool,
    quiesceAdvance: bool, drained: bool, convergence: bool,
    assertAdvance: bool, worldFile: bool, oracles: OracleRun,
    keepUp: bool, handoff: bool, down: bool)

  /** What a world does to its surroundings. */
  datatype Act = Heal | StopDriver | StopTelemetry | Down

  /** A world that could not open its files has nothing to tear down. */
  datatype Teardown = TornDown | TeardownFailed | TeardownSkipped | KeptUp | NeverOpened

  datatype WorldResult = WorldResult(outcome: Outcome, findings: seq<Status>, teardown: Teardown)

  ghost function Count(acts: seq<Act>, a: Act): nat {
    if acts == [] then 0
    else Count(acts[..|acts| - 1], a) + if acts[|acts| - 1] == a then 1 else 0
  }

  lemma CountMore(acts: seq<Act>, b: Act, a: Act)
    ensures Count(acts + [b], a) == Count(acts, a) + if b == a then 1 else 0
  {
    assert (acts + [b])[..|acts|] == acts;
  }

  // --- Which environments let a world through ----------------------------------------------------

  ghost predicate Opens(e: Env) {
    e.driverProfileKnown && e.directories && e.phaseLog
  }

  ghost predicate Boots(e: Env) {
    Opens(e) && e.bootAdvance && e.up == Booted && e.portsAgree && e.injectors
  }

  ghost predicate Drives(e: Env) {
    && Boots(e) && e.seedAdvance && e.telemetry && e.steadyState && e.driveAdvance && e.plan && e.driverStart
  }

  /** The perturbation was compiled: from here on it has to be healed. */
  ghost predicate Perturbs(e: Env) {
    Drives(e) && e.perturbNest && e.compiles
  }

  /** The world reached the end of ASSERT. */
  ghost predicate RunsToEnd(e: Env) {
    && Perturbs(e) && (if e.faultless then e.driveWindow else e.exec == Ran)
    && e.healAdvance && e.quiesceAdvance && e.convergence && e.assertAdvance
  }

  ghost predicate AllOk(findings: seq<Status>) {
    forall i :: 0 <= i < |findings| ==> findings[i] == StatusOk
  }

  ghost predicate Judged(o: OracleRun) {
    o.Findings? && o.findings != [] && AllOk(o.findings)
  }

  ghost predicate TearsDown(e: Env) {
    if e.keepUp then e.handoff else e.down
  }

  /** Everything a world needs to pass. */
  ghost predicate Earned(e: Env) {
    && RunsToEnd(e) && (e.imagesWanted ==> e.imagesMatch) && e.heal && e.drained && e.worldFile
    && Judged(e.oracles) && TearsDown(e)
  }

  ghost predicate ProvesViolation(o: OracleRun) {
    o.Findings? && StatusViolated in o.findings
  }

  // --- The world ---------------------------------------------------------------------------------

  function AtLeastHarnessError(o: Outcome): (r: Outcome)
    ensures r == o.Worse(HarnessError)
  {
    if o.Rank() < HarnessError.Rank() then HarnessError else o
  }

  method FoldFindings(o: Outcome, findings: seq<Status>) returns (r: Outcome)
    requires o.Rank() <= HarnessError.Rank()
    ensures r.Rank() >= o.Rank() && r.Rank() <= Violation.Rank()
    ensures r == Pass <==> o == Pass && AllOk(findings)
    ensures r == Violation <==> StatusViolated in findings
  {
    r := o;
    for i := 0 to |findings|
      invariant r.Rank() >= o.Rank() && r.Rank() <= Violation.Rank()
      invariant r == Pass <==> o == Pass && AllOk(findings[..i])
      invariant r == Violation <==> StatusViolated in findings[..i]
    {
      assert findings[..i + 1] == findings[..i] + [findings[i]];
      if findings[i].Outcome().Rank() > r.Rank() {
        r := findings[i].Outcome();
      }
    }
    assert findings[..|findings|] == findings;
  }

  class World {
    var topology: bool
    var telemetry: bool
    var driver: bool
    var perturbed: bool
    var healed: bool
    var bootInUse: bool
    /** What has been done, oldest first. */
    var acts: seq<Act>

    constructor ()
      ensures !topology && !telemetry && !driver && !perturbed && !healed && !bootInUse && acts == []
    {
      topology, telemetry, driver, perturbed, healed, bootInUse, acts := false, false, false, false, false, false, [];
    }

    /** BOOT and SEED, up to a driven system. */
    method BootToDrive(e: Env) returns (ok: bool, outcome: Outcome)
      requires Opens(e)
      requires !topology && !telemetry && !driver && !perturbed && !healed && !bootInUse && acts == []
      modifies this
      ensures ok == Drives(e) && !perturbed && !healed && acts == []
      ensures ok ==> outcome == (if e.imagesWanted && !e.imagesMatch then Inconclusive else Pass)
      ensures !ok ==> outcome == HarnessError
      ensures driver == Drives(e) && (driver ==> topology)
      ensures bootInUse ==> !topology && e.up == ProjectInUse
      ensures topology == (e.bootAdvance && e.up == Booted)
    {
      outcome := Pass;
      if !e.bootAdvance {
        return false, HarnessError;
      }
      if e.up != Booted {
        bootInUse := e.up == ProjectInUse;
        return false, HarnessError;
      }
      topology := true;
      if e.imagesWanted && !e.imagesMatch {
        outcome := outcome.Worse(Inconclusive);
      }
      if !e.portsAgree || !e.injectors || !e.seedAdvance || !e.telemetry {
        return false, HarnessError;
      }
      telemetry := true;
      if !e.steadyState || !e.driveAdvance || !e.plan || !e.driverStart {
        return false, HarnessError;
      }
      driver := true;
      ok := true;
    }

    /** PERTURB and HEAL. */
    method PerturbAndHeal(e: Env, before: Outcome) returns (ok: bool, outcome: Outcome)
      requires Drives(e) && topology && driver && !perturbed && !healed && acts == []
      requires before == (if e.imagesWanted && !e.imagesMatch then Inconclusive else Pass)
      modifies this
      ensures topology == old(topology) && driver == old(driver) && bootInUse == old(bootInUse)
      ensures perturbed == Perturbs(e) && acts == (if healed then [Heal] else []) && (healed ==> perturbed)
      ensures ok == (Perturbs(e) && (if e.faultless then e.driveWindow else e.exec == Ran) && e.healAdvance)
      ensures ok ==> healed && outcome == if e.heal then before else HarnessError
      ensures !ok ==> !healed && (outcome == HarnessError || outcome == Canceled)
    {
      if !e.perturbNest || !e.compiles {
        return false, HarnessError;
      }
      perturbed := true;
      if e.faultless {
        if !e.driveWindow {
          return false, Canceled;
        }
      } else if e.exec != Ran {
        return false, if e.exec == ExecCanceled then Canceled else HarnessError;
      }
      if !e.healAdvance {
        return false, HarnessError;
      }
      acts := acts + [Heal];
      healed := true;
      outcome := before;
      if !e.heal {
        outcome := outcome.Worse(HarnessError);
      }
      ok := true;
    }

    /** QUIESCE and ASSERT. */
    method QuiesceAndAssert(e: Env, before: Outcome) returns (ok: bool, outcome: Outcome, findings: seq<Status>)
      requires before.Rank() <= HarnessError.Rank() && driver
      modifies this
      ensures topology == old(topology) && driver == old(driver) && bootInUse == old(bootInUse)
      ensures perturbed == old(perturbed) && healed == old(healed)
      ensures acts == old(acts) || acts == old(acts) + [StopDriver]
      ensures ok == (e.quiesceAdvance && e.convergence && e.assertAdvance)
      ensures !ok ==> outcome == HarnessError && findings == []
      ensures ok ==> (outcome == Pass <==> before == Pass && e.drained && e.worldFile && Judged(e.oracles))
      ensures ok ==> (outcome == Violation <==> ProvesViolation(e.oracles)) && outcome.Rank() <= Violation.Rank()
      ensures ok ==> findings == if e.oracles.Findings? then e.oracles.findings else []
    {
      findings := [];
      if !e.quiesceAdvance {
        return false, HarnessError, [];
      }
      acts := acts + [StopDriver];
      outcome := before;
      if !e.drained {
        outcome := outcome.Worse(Inconclusive);
      }
      if !e.convergence || !e.assertAdvance {
        return false, HarnessError, [];
      }
      if !e.worldFile {
        outcome := outcome.Worse(HarnessError);
      }
      match e.oracles {
        case EngineFailed =>
          outcome := outcome.Worse(Inconclusive);
        case Findings(fs) =>
          findings := fs;
          if |fs| == 0 {
            outcome := outcome.Worse(Inconclusive);
          } else {
            outcome := FoldFindings(outcome, fs);
          }
      }
      ok := true;
    }

    /** The steps of the lifecycle, up to the first that cannot be taken. */
    method Steps(e: Env) returns (err: bool, outcome: Outcome, findings: seq<Status>)
      requires Opens(e)
      requires !topology && !telemetry && !driver && !perturbed && !healed && !bootInUse && acts == []
      modifies this
      ensures err == !RunsToEnd(e) && perturbed == Perturbs(e)
      ensures outcome == Pass <==>
        RunsToEnd(e) && (e.imagesWanted ==> e.imagesMatch) && e.heal && e.drained && e.worldFile && Judged(e.oracles)
      ensures outcome == Violation <==> RunsToEnd(e) && ProvesViolation(e.oracles)
      ensures outcome.Rank() <= Violation.Rank()
      ensures Count(acts, Heal) == (if healed then 1 else 0) && (healed ==> perturbed)
      ensures driver == Drives(e) && Count(acts, Down) == 0
      ensures topology ==> !bootInUse
      ensures bootInUse ==> e.up == ProjectInUse
      ensures RunsToEnd(e) && e.oracles.Findings? ==> findings == e.oracles.findings
      ensures RunsToEnd(e) ==> topology && healed
    {
      findings := [];
      var ok;
      ok, outcome := BootToDrive(e);
      if !ok {
        return true, outcome, [];
      }
      ok, outcome := PerturbAndHeal(e, outcome);
      assert Count([Heal], Heal) == 1 && Count([Heal], Down) == 0 by {
        CountMore([], Heal, Heal);
        CountMore([], Heal, Down);
      }
      if !ok {
        return true, outcome, [];
      }
      CountMore(acts, StopDriver, Heal);
      CountMore(acts, StopDriver, Down);
      ok, outcome, findings := QuiesceAndAssert(e, outcome);
      err := !ok;
    }

    /** HEAL, when a compiled perturbation has not been healed yet. */
    method HealLate(e: Env, before: Outcome) returns (outcome: Outcome)
      requires Count(acts, Heal) == (if healed then 1 else 0) && (healed ==> perturbed)
      modifies this`acts
      ensures Count(acts, Heal) == (if perturbed then 1 else 0) && Count(acts, Down) == old(Count(acts, Down))
      ensures outcome == if perturbed && !healed && !e.lateHeal then before.Worse(HarnessError) else before
    {
      outcome := before;
      if perturbed && !healed {
        CountMore(acts, Heal, Heal);
        CountMore(acts, Heal, Down);
        acts := acts + [Heal];
        if !e.lateHeal {
          outcome := AtLeastHarnessError(outcome);
        }
      }
    }

    /** Nothing is left driving or sampling what is about to be torn down. */
    method StopWorkload()
      modifies this`acts
      ensures Count(acts, Heal) == old(Count(acts, Heal)) && Count(acts, Down) == old(Count(acts, Down))
      ensures driver ==> StopDriver in acts
    {
      if driver {
        CountMore(acts, StopDriver, Heal);
        CountMore(acts, StopDriver, Down);
        acts := acts + [StopDriver];
      }
      if telemetry {
        CountMore(acts, StopTelemetry, Heal);
        CountMore(acts, StopTelemetry, Down);
        acts := acts + [StopTelemetry];
      }
    }

    method TearDown(e: Env, before: Outcome) returns (outcome: Outcome, teardown: Teardown)
      modifies this`acts
      ensures Count(acts, Heal) == old(Count(acts, Heal))
      ensures acts == if teardown == TornDown || teardown == TeardownFailed then old(acts) + [Down] else old(acts)
      ensures Count(acts, Down) ==
        old(Count(acts, Down)) + if teardown == TornDown || teardown == TeardownFailed then 1 else 0
      ensures teardown == TeardownSkipped <==> !topology && bootInUse
      ensures teardown == KeptUp <==> topology && e.keepUp && e.handoff
      ensures outcome == before || outcome == before.Worse(HarnessError)
      ensures topology ==> outcome == if TearsDown(e) then before else before.Worse(HarnessError)
      ensures teardown == TornDown ==> e.down
      ensures teardown != NeverOpened
    {
      outcome := before;
      if !topology && bootInUse {
        return AtLeastHarnessError(outcome), TeardownSkipped;
      }
      if e.keepUp && topology {
        if e.handoff {
          return outcome, KeptUp;
        }
        outcome := AtLeastHarnessError(outcome);
      }
      CountMore(acts, Down, Heal);
      CountMore(acts, Down, Down);
      acts := acts + [Down];
      if !e.down {
        return AtLeastHarnessError(outcome), TeardownFailed;
      }
      teardown := TornDown;
    }

    /** A whole world. It passes exactly when everything it needed was so, it reports a
        violation exactly when it ran to its end and an oracle proved one, and what it
        perturbed it heals exactly once. */
    method Run(e: Env) returns (wres: WorldResult, err: bool)
      requires !topology && !telemetry && !driver && !perturbed && !healed && !bootInUse && acts == []
      modifies this
      ensures wres.outcome == Pass <==> Earned(e)
      ensures wres.outcome == Violation <==> RunsToEnd(e) && ProvesViolation(e.oracles)
      ensures wres.outcome.Rank() <= Violation.Rank()
      ensures err == !RunsToEnd(e)
      ensures Count(acts, Heal) == if Perturbs(e) then 1 else 0
      ensures Count(acts, Down) <= 1
      ensures Count(acts, Down) == 0 <==>
        wres.teardown == KeptUp || wres.teardown == TeardownSkipped || wres.teardown == NeverOpened
      ensures wres.teardown == NeverOpened <==> !Opens(e)
      ensures wres.teardown == KeptUp ==> e.keepUp && e.handoff
      ensures wres.teardown == TeardownSkipped ==> e.up == ProjectInUse
      ensures Count(acts, Down) == 1 ==> acts != [] && acts[|acts| - 1] == Down
      ensures Drives(e) ==> StopDriver in acts
      ensures Earned(e) ==> wres.findings == e.oracles.findings
    {
      if !e.driverProfileKnown || !e.directories || !e.phaseLog {
        return WorldResult(HarnessError, [], NeverOpened), true;
      }
      var outcome, findings;
      err, outcome, findings := Steps(e);
      outcome := HealLate(e, outcome);
      StopWorkload();
      var teardown;
      outcome, teardown := TearDown(e, outcome);
      wres := WorldResult(outcome, findings, teardown);
    }
  }
}
