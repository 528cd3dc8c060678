/** The key facts of a loan: what the borrower repays, what it costs, and at what rate. */
module KeyFacts {
  import opened Wrappers
  import opened Reals
  import opened RepaymentSchedule
  import ScheduleBounds
  import EffectiveRate

  /** Amounts are in currency units; rates in percent. */
  datatype Input = Input(
    principal: real, netDisbursed: Option<real>, installments: seq<real>, nominal: real,
    processingFee: real, adminFee: real)

  datatype Facts = Facts(
    principal: real, netDisbursed: real, nominal: real, effective: real, totalPrincipal: real,
    totalInterest: real, totalFees: real, totalRepayable: real, totalCost: real,
    count: nat, average: real, first: real)

  function To2(x: real): real {
    EffectiveRate.RoundTo2(x)
  }

  function Fees(input: Input): real {
    To2(input.processingFee + input.adminFee)
  }

  function Net(input: Input): real {
    match input.netDisbursed
    case Some(net) => net
    case None => To2(input.principal - Fees(input))
  }

  // ── The facts of a repayment schedule ─────────────────────────────────────

  function Units(cents: int): real {
    cents as real / 100.0
  }

  lemma WholeCentsStay(cents: int)
    ensures To2(Units(cents)) == Units(cents)
  {
    RoundInt(cents);
  }

  function Totals(s: seq<Instalment>): seq<real> {
    seq(|s|, i requires 0 <= i < |s| => Units(s[i].total))
  }

  lemma {:induction false} TotalsAddUp(s: seq<Instalment>, k: nat)
    requires k <= |s| && forall i | 0 <= i < |s| :: s[i].total == s[i].principal + s[i].interest
    ensures EffectiveRate.Total(Totals(s), k) == Units(SumPrincipal(s[..k]) + SumInterest(s[..k]))
  {
    if k > 0 {
      TotalsAddUp(s, k - 1);
      assert s[..k] == s[..k - 1] + [s[k - 1]];
      SumsOfOneMore(s[..k - 1], s[k - 1]);
    }
  }

  lemma RepayableIs(loan: Loan, s: seq<Instalment>)
    requires ScheduleBounds.IsScheduleOf(loan, s)
    ensures EffectiveRate.Total(Totals(s), |s|) == Units(loan.principal + SumInterest(s))
  {
    forall i | 0 <= i < |s|
      ensures s[i].total == s[i].principal + s[i].interest
    {
      assert s[i] == Row(loan, i + 1);
    }
    TotalsAddUp(s, |s|);
    assert s[..|s|] == s;
    if loan.interest.Flat? {
      ScheduleBounds.FlatConserves(loan, s);
    } else {
      ScheduleBounds.ReducingConserves(loan, s);
    }
  }

  /**
   * The key facts of either schedule: the total interest is the sum of its interest parts to the
   * cent, the total repayable is that and the loan, and the cost of credit adds the fees.
   */
  lemma ScheduleFacts(loan: Loan, s: seq<Instalment>, fees: int)
    requires ScheduleBounds.IsScheduleOf(loan, s)
    ensures var repayable := To2(EffectiveRate.Total(Totals(s), |s|));
            var interest := To2(repayable - Units(loan.principal));
            && repayable == Units(loan.principal + SumInterest(s))
            && interest == Units(SumInterest(s))
            && To2(interest + Units(fees)) == Units(SumInterest(s) + fees)
  {
    RepayableIs(loan, s);
    WholeCentsStay(loan.principal + SumInterest(s));
    WholeCentsStay(SumInterest(s));
    WholeCentsStay(SumInterest(s) + fees);
  }

  // ── The facts handed to the borrower ──────────────────────────────────────

  /** The input is a loan's own schedule, with fees in whole cents. */
  ghost predicate Describes(input: Input, loan: Loan, s: seq<Instalment>, fees: int) {
    && ScheduleBounds.IsScheduleOf(loan, s) && input.installments == Totals(s)
    && input.principal == Units(loan.principal) && input.processingFee + input.adminFee == Units(fees)
  }

  /** To the cent: what is repaid is the loan and its interest, the cost is interest and fees; the average to half a cent. */
  predicate TrueToSchedule(input: Input, f: Facts, loan: Loan, s: seq<Instalment>, fees: int) {
    && f.principal == f.totalPrincipal == Units(loan.principal) && f.totalInterest == Units(SumInterest(s))
    && f.totalRepayable == f.totalPrincipal + f.totalInterest
    && f.totalFees == Units(fees) && f.totalCost == f.totalInterest + f.totalFees
    && (input.netDisbursed.None? ==> f.netDisbursed + f.totalFees == f.principal)
    && f.count == |s| > 0 && f.first == Units(s[0].total)
    && -0.005 <= f.average - f.totalRepayable / |s| as real <= 0.005
  }

  lemma UnitsAdd(a: int, b: int)
    ensures Units(a + b) == Units(a) + Units(b) && Units(a - b) == Units(a) - Units(b)
  {
  }

  lemma To2IsNear(x: real)
    ensures -0.005 <= To2(x) - x <= 0.005
  {
  }

  lemma FactsAreTrue(input: Input, f: Facts, loan: Loan, s: seq<Instalment>, fees: int)
    requires Describes(input, loan, s, fees) && |s| > 0
    requires f.totalFees == Fees(input) && f.netDisbursed == To2(Net(input))
    requires f.totalRepayable == To2(EffectiveRate.Total(input.installments, |input.installments|))
    requires f.totalInterest == To2(f.totalRepayable - input.principal) && f.totalCost == To2(f.totalInterest + f.totalFees)
    requires f.principal == f.totalPrincipal == To2(input.principal) && f.count == |input.installments|
    requires f.first == To2(input.installments[0]) && f.average == To2(f.totalRepayable / f.count as real)
    ensures TrueToSchedule(input, f, loan, s, fees)
  {
    ScheduleFacts(loan, s, fees);
    WholeCentsStay(fees);
    WholeCentsStay(loan.principal);
    WholeCentsStay(loan.principal - fees);
    WholeCentsStay(s[0].total);
    UnitsAdd(loan.principal, SumInterest(s));
    UnitsAdd(SumInterest(s), fees);
    UnitsAdd(loan.principal, fees);
    To2IsNear(f.totalRepayable / |s| as real);
  }

  /** The annual rate of a located root, and zero where there is no cost to find a rate for. */
  ghost predicate Rated(net: real, s: seq<real>, percent: real) {
    if net <= 0.0 || s == [] || EffectiveRate.Total(s, |s|) <= net then percent == 0.0
    else exists r :: r >= 0.0 && EffectiveRate.Located(net, s, r) && EffectiveRate.Yearly(r, percent)
  }

  lemma RoundedStays(x: real)
    ensures To2(To2(x)) == To2(x)
  {
    RoundInt(Round(x * 100.0));
  }

  method BuildKeyFacts(input: Input) returns (f: Facts)
    ensures f.totalFees == To2(input.processingFee + input.adminFee)
    ensures f.totalRepayable == To2(EffectiveRate.Total(input.installments, |input.installments|))
    ensures f.totalInterest == To2(f.totalRepayable - input.principal)
    ensures f.totalCost == To2(f.totalInterest + f.totalFees)
    ensures f.principal == f.totalPrincipal == To2(input.principal) && f.nominal == To2(input.nominal)
    ensures forall net | input.netDisbursed == Some(net) :: f.netDisbursed == To2(net) && Rated(net, input.installments, f.effective)
    ensures input.netDisbursed.None? ==>
              f.netDisbursed == To2(input.principal - f.totalFees) && Rated(f.netDisbursed, input.installments, f.effective)
    ensures f.count == |input.installments|
    ensures f.count > 0 ==> f.first == To2(input.installments[0]) && f.average == To2(f.totalRepayable / f.count as real)
    ensures forall loan, s, fees | Describes(input, loan, s, fees) :: TrueToSchedule(input, f, loan, s, fees)
  {
    var fees, net, s := Fees(input), Net(input), input.installments;
    var repayable := To2(EffectiveRate.Total(s, |s|));
    var interest := To2(repayable - input.principal);
    var eir := EffectiveRate.ComputeEir(net, s);
    f := Facts(
      To2(input.principal), To2(net), To2(input.nominal), eir, To2(input.principal),
      interest, fees, repayable, To2(interest + fees), |s|,
      if |s| > 0 then To2(repayable / |s| as real) else 0.0,
      if |s| > 0 then To2(s[0]) else 0.0);
    RoundedStays(input.principal - fees);
    forall loan, sched, cents | Describes(input, loan, sched, cents)
      ensures TrueToSchedule(input, f, loan, sched, cents)
    {
      FactsAreTrue(input, f, loan, sched, cents);
    }
  }
}
