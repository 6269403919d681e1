/** How executions are classified, and how classifications are folded. */
module Outcomes {

  /** Weakest first. `Undeclared` stands for any value outside the closed set. */
  datatype Outcome =
    | Pass
    | BudgetExhausted
    | Canceled
    | Inconclusive
    | HarnessError
    | Violation
    | ConfigError
    | Undeclared
  {
    function Rank(): (r: nat)
      ensures r == 0 <==> this == Pass
    {
      match this
      case Pass => 0
      case BudgetExhausted => 1
      case Canceled => 2
      case Inconclusive => 3
      case HarnessError => 4
      case Violation => 5
      case ConfigError => 6
      case Undeclared => 7
    }

    function Worse(o: Outcome): (r: Outcome)
      ensures r == this || r == o
      ensures r.Rank() >= Rank() && r.Rank() >= o.Rank()
    {
      if o.Rank() > Rank() then o else this
    }

    /** Only a pass is a PASS, only a violation a FAIL, and oracle drift is never claimed. An
        outcome that nobody declared gives no conclusion. */
    function Result(): (v: Verdict)
      ensures v == VerdictPass <==> this == Pass
      ensures v == VerdictFail <==> this == Violation
      ensures v == VerdictBudgetExhausted <==> this == BudgetExhausted
      ensures v == VerdictConfigError <==> this == ConfigError
      ensures v != VerdictOracleDrift
    {
      match this
      case Pass => VerdictPass
      case Violation => VerdictFail
      case Inconclusive | HarnessError | Canceled => VerdictInconclusive
      case BudgetExhausted => VerdictBudgetExhausted
      case ConfigError => VerdictConfigError
      case Undeclared => VerdictInconclusive
    }
  }

  datatype Verdict =
    | VerdictPass | VerdictFail | VerdictInconclusive | VerdictBudgetExhausted | VerdictOracleDrift | VerdictConfigError

  /** The severity order, weakest first. What nobody declared is worse than anything. */
  lemma WeakestFirst(o: Outcome)
    ensures Pass.Rank() < BudgetExhausted.Rank() < Canceled.Rank() < Inconclusive.Rank()
    ensures Inconclusive.Rank() < HarnessError.Rank() < Violation.Rank() < ConfigError.Rank() < Undeclared.Rank()
    ensures Undeclared.Worse(o) == o.Worse(Undeclared) == Undeclared
  {
  }

  ghost function Fold(os: seq<Outcome>): Outcome {
    if os == [] then Pass else Fold(os[..|os| - 1]).Worse(os[|os| - 1])
  }

  /** A fold is the worst of its outcomes, so it passes only when all of them do. */
  lemma {:induction false} FoldIsWorst(os: seq<Outcome>)
    ensures forall o :: o in os ==> Fold(os).Rank() >= o.Rank()
    ensures Fold(os) in os || Fold(os) == Pass
    ensures Fold(os) == Pass <==> forall o :: o in os ==> o == Pass
  {
    if os != [] {
      var rest, last := os[..|os| - 1], os[|os| - 1];
      assert os == rest + [last];
      FoldIsWorst(rest);
    }
  }

  /** The order in which outcomes are folded makes no difference. */
  lemma {:induction false} FoldAppend(a: seq<Outcome>, b: seq<Outcome>)
    ensures Fold(a + b) == Fold(a).Worse(Fold(b)) == Fold(b).Worse(Fold(a))
  {
    if b == [] {
      assert a + b == a;
    } else {
      var rest, last := b[..|b| - 1], b[|b| - 1];
      FoldAppend(a, rest);
      assert (a + b)[..|a + b| - 1] == a + rest;
    }
  }
}
