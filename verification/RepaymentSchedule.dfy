/**
 * The legacy repayment schedule. Money is whole cents; rates, instalments before rounding and
 * exact balances are reals.
 */
module RepaymentSchedule {
  import opened Reals
  import opened Calendar

  datatype InterestMethod = Flat | ReducingBalance

  /** `rate` is the annual rate in percent. */
  datatype Loan = Loan(principal: int, rate: real, months: int, start: Date, interest: InterestMethod)

  datatype Instalment = Instalment(
    number: int, due: Date, principal: int, interest: int, total: int, outstanding: int)

  predicate Lends(loan: Loan) {
    loan.months > 0 && loan.principal > 0
  }

  function SumPrincipal(s: seq<Instalment>): int {
    if s == [] then 0 else SumPrincipal(s[..|s| - 1]) + s[|s| - 1].principal
  }

  function SumInterest(s: seq<Instalment>): int {
    if s == [] then 0 else SumInterest(s[..|s| - 1]) + s[|s| - 1].interest
  }

  lemma SumsOfOneMore(s: seq<Instalment>, row: Instalment)
    ensures SumPrincipal(s + [row]) == SumPrincipal(s) + row.principal
    ensures SumInterest(s + [row]) == SumInterest(s) + row.interest
  {
    assert (s + [row])[..|s|] == s;
  }

  // ── Flat rate ─────────────────────────────────────────────────────────────

  function FlatInterest(loan: Loan): real {
    loan.principal as real * (loan.rate / 100.0) * (loan.months as real / 12.0)
  }

  function FlatPart(loan: Loan): int
    requires Lends(loan)
  {
    Round(loan.principal as real / loan.months as real)
  }

  function FlatInterestPart(loan: Loan): int
    requires Lends(loan)
  {
    Round(FlatInterest(loan) / loan.months as real)
  }

  /** Instalment `i` of `months`, the rounding residue repaired in the last. */
  function FlatRow(loan: Loan, i: int): Instalment
    requires Lends(loan) && 1 <= i <= loan.months
  {
    var last := i == loan.months;
    var part, interestPart := FlatPart(loan), FlatInterestPart(loan);
    var principal := if last then loan.principal - (i - 1) * part else part;
    var interest := if last then Round(FlatInterest(loan)) - (i - 1) * interestPart else interestPart;
    Instalment(i, AddMonthsClamped(loan.start, i), principal, interest, principal + interest,
               if last then 0 else loan.principal - i * part)
  }

  // ── Reducing balance ──────────────────────────────────────────────────────

  function MonthlyRate(loan: Loan): real {
    loan.rate / 100.0 / 12.0
  }

  /** The exact equated monthly instalment. */
  function Emi(loan: Loan): real
    requires Lends(loan)
  {
    var r, p := MonthlyRate(loan), loan.principal as real;
    if r > 0.0 then
      (GrowthExceedsOne(r, loan.months);
       p * r * Pow(1.0 + r, loan.months) / (Pow(1.0 + r, loan.months) - 1.0))
    else p / loan.months as real
  }

  lemma GrowthExceedsOne(r: real, n: nat)
    requires r > 0.0 && n > 0
    ensures Pow(1.0 + r, n) > 1.0
  {
    GeoClosed(1.0 + r, n);
    GeoNonNegative(1.0 + r, n);
    assert r * Geo(1.0 + r, n) > 0.0;
  }

  /** The interest on a balance for one month, and the principal part of a full instalment. */
  function InterestOn(balance: int, r: real): int {
    Round(balance as real * r)
  }

  function PrincipalPart(balance: int, r: real, emi: real): int {
    Round(emi - InterestOn(balance, r) as real)
  }

  /** One full instalment off a balance, each line rounded to cents. */
  function PayOne(r: real, emi: real): int -> int {
    (balance: int) => balance - PrincipalPart(balance, r, emi)
  }

  /** The balance after `k` full instalments. */
  function Rounded(p: int, r: real, emi: real, k: nat): int {
    Iterate(PayOne(r, emi), p, k)
  }

  function Outstanding(loan: Loan, k: nat): int
    requires Lends(loan)
  {
    Rounded(loan.principal, MonthlyRate(loan), Emi(loan), k)
  }

  /** Instalment `i` of `n` from the balance before it; the last pays everything off. */
  function ReducingRowOn(balance: int, r: real, emi: real, start: Date, n: int, i: int): Instalment {
    var interest := InterestOn(balance, r);
    var principal := if i == n then balance else PrincipalPart(balance, r, emi);
    Instalment(i, AddMonthsClamped(start, i), principal, interest, principal + interest, balance - principal)
  }

  function ReducingRow(loan: Loan, i: int): Instalment
    requires Lends(loan) && 1 <= i <= loan.months
  {
    ReducingRowOn(Outstanding(loan, i - 1), MonthlyRate(loan), Emi(loan), loan.start, loan.months, i)
  }

  /** Instalments `i` to `n`, each made from the balance the one before it left. */
  function RowsFrom(row: (int, int) -> Instalment, balance: int, n: int, i: int): seq<Instalment>
    decreases n - i
  {
    if i > n then [] else [row(balance, i)] + RowsFrom(row, row(balance, i).outstanding, n, i + 1)
  }

  lemma {:induction false} RowsFromAt(row: (int, int) -> Instalment, balance: int -> int, n: int, i: int, k: nat)
    requires i + k <= n
    requires forall j | i <= j < n :: row(balance(j - 1), j).outstanding == balance(j)
    ensures |RowsFrom(row, balance(i - 1), n, i)| == n + 1 - i
    ensures RowsFrom(row, balance(i - 1), n, i)[k] == row(balance(i + k - 1), i + k)
    decreases n - i
  {
    if i < n {
      assert row(balance(i - 1), i).outstanding == balance(i + 1 - 1);
      RowsFromAt(row, balance, n, i + 1, if k > 0 then k - 1 else 0);
    }
  }

  function ReducingStep(r: real, emi: real, start: Date, n: int): (int, int) -> Instalment {
    (balance: int, i: int) => ReducingRowOn(balance, r, emi, start, n, i)
  }

  lemma RoundedStep(p: int, r: real, emi: real, start: Date, n: int, i: int)
    requires 0 < i < n
    ensures ReducingStep(r, emi, start, n)(Rounded(p, r, emi, i - 1), i).outstanding == Rounded(p, r, emi, i)
  {
  }

  function Row(loan: Loan, i: int): Instalment
    requires Lends(loan) && 1 <= i <= loan.months
  {
    if loan.interest.Flat? then FlatRow(loan, i) else ReducingRow(loan, i)
  }

  // ── The loops ─────────────────────────────────────────────────────────────

  method FlatSchedule(loan: Loan) returns (schedule: seq<Instalment>)
    requires Lends(loan)
    ensures |schedule| == loan.months
    ensures forall k | 0 <= k < loan.months :: schedule[k] == FlatRow(loan, k + 1)
  {
    schedule := [];
    var n := loan.months;
    var totalInterest := FlatInterest(loan);
    var outstanding, sumPrincipal, sumInterest := loan.principal, 0, 0;
    for i := 1 to n + 1
      invariant |schedule| == i - 1
      invariant forall k | 0 <= k < i - 1 :: schedule[k] == FlatRow(loan, k + 1)
      invariant i <= n ==> sumPrincipal == (i - 1) * FlatPart(loan)
      invariant i <= n ==> sumInterest == (i - 1) * FlatInterestPart(loan)
      invariant i <= n ==> outstanding == loan.principal - sumPrincipal
    {
      var principal := Round(loan.principal as real / n as real);
      var interest := Round(totalInterest / n as real);
      if i == n {
        principal := Round((loan.principal - sumPrincipal) as real);
        RoundInt(loan.principal - sumPrincipal);
        interest := Round(totalInterest - sumInterest as real);
        RoundShift(totalInterest, -sumInterest);
      }
      outstanding := outstanding - principal;
      sumPrincipal, sumInterest := sumPrincipal + principal, sumInterest + interest;
      var row := Instalment(i, AddMonthsClamped(loan.start, i), principal, interest, principal + interest, outstanding);
      OneMoreTime(i, FlatPart(loan));
      OneMoreTime(i, FlatInterestPart(loan));
      assert row == FlatRow(loan, i);
      schedule := schedule + [row];
    }
  }

  lemma OneMoreTime(i: int, x: int)
    ensures (i - 1) * x + x == i * x
  {
  }

  lemma OneMoreRow(done: seq<Instalment>, row: (int, int) -> Instalment, balance: int, n: int, i: int)
    requires i <= n
    ensures done + RowsFrom(row, balance, n, i)
            == (done + [row(balance, i)]) + RowsFrom(row, row(balance, i).outstanding, n, i + 1)
  {
    var rest := RowsFrom(row, row(balance, i).outstanding, n, i + 1);
    assert RowsFrom(row, balance, n, i) == [row(balance, i)] + rest;
    assert done + ([row(balance, i)] + rest) == (done + [row(balance, i)]) + rest;
  }

  method ReducingSchedule(p: int, r: real, emi: real, start: Date, n: int) returns (schedule: seq<Instalment>)
    requires n > 0
    ensures schedule == RowsFrom(ReducingStep(r, emi, start, n), p, n, 1)
  {
    schedule := [];
    var outstanding := p;
    ghost var step := ReducingStep(r, emi, start, n);
    assert schedule + RowsFrom(step, p, n, 1) == RowsFrom(step, p, n, 1);
    for i := 1 to n + 1
      invariant schedule + RowsFrom(step, outstanding, n, i) == RowsFrom(step, p, n, 1)
    {
      var interest := Round(outstanding as real * r);
      var principal := Round(emi - interest as real);
      if i == n {
        principal := outstanding;
      }
      var row := Instalment(i, AddMonthsClamped(start, i), principal, interest, principal + interest, outstanding - principal);
      OneMoreRow(schedule, step, outstanding, n, i);
      assert row == step(outstanding, i);
      outstanding := outstanding - principal;
      schedule := schedule + [row];
    }
    assert schedule + [] == schedule;
  }

  function RoundedOf(p: int, r: real, emi: real): int -> int {
    (k: int) => if k < 0 then 0 else Rounded(p, r, emi, k)
  }

  lemma ReducingRowsFrom(p: int, r: real, emi: real, start: Date, n: int, k: int)
    requires 0 <= k < n
    ensures var rows := RowsFrom(ReducingStep(r, emi, start, n), p, n, 1);
            |rows| == n && rows[k] == ReducingRowOn(Rounded(p, r, emi, k), r, emi, start, n, k + 1)
  {
    var row, balance := ReducingStep(r, emi, start, n), RoundedOf(p, r, emi);
    forall j | 1 <= j < n
      ensures row(balance(j - 1), j).outstanding == balance(j)
    {
      RoundedStep(p, r, emi, start, n, j);
    }
    assert balance(1 - 1) == p;
    RowsFromAt(row, balance, n, 1, k);
    assert balance(1 + k - 1) == Rounded(p, r, emi, k);
  }

  lemma ReducingRowsAre(loan: Loan)
    requires Lends(loan)
    ensures var rows := RowsFrom(ReducingStep(MonthlyRate(loan), Emi(loan), loan.start, loan.months), loan.principal, loan.months, 1);
            |rows| == loan.months && forall k | 0 <= k < loan.months :: rows[k] == ReducingRow(loan, k + 1)
  {
    ReducingRowsFrom(loan.principal, MonthlyRate(loan), Emi(loan), loan.start, loan.months, 0);
    forall k | 0 <= k < loan.months
      ensures RowsFrom(ReducingStep(MonthlyRate(loan), Emi(loan), loan.start, loan.months), loan.principal, loan.months, 1)[k]
              == ReducingRow(loan, k + 1)
    {
      ReducingRowsFrom(loan.principal, MonthlyRate(loan), Emi(loan), loan.start, loan.months, k);
    }
  }
}
