/**
 * A repayment schedule in the terms a borrower is quoted: the annual rate in percent, the months, and
 * the instalment that would pay the loan off exactly. These terms determine every line.
 */
module ScheduleTerms {
  import opened Reals
  import opened Calendar
  import opened RepaymentSchedule
  import opened ScheduleBounds
  import EffectiveRate

  // ── The terms ─────────────────────────────────────────────────────────────

  /** One month's part of an annual rate in percent. */
  function Monthly(percent: real): real {
    percent / 1200.0
  }

  /** Paid every month, `e` pays the loan off with nothing rounded; below zero the program takes equal shares. */
  predicate PaysOff(loan: Loan, e: real)
    requires Lends(loan)
  {
    if loan.rate >= 0.0 then Exact(loan.principal, 1.0 + Monthly(loan.rate), e, loan.months) == 0.0
    else e * loan.months as real == loan.principal as real
  }

  /** The balance before instalment `k` of a loan of `p`. */
  function Before(p: int, s: seq<Instalment>, k: nat): int
    requires k <= |s|
  {
    if k == 0 then p else s[k - 1].outstanding
  }

  predicate Dated(start: Date, s: seq<Instalment>, k: nat)
    requires k < |s|
  {
    s[k].number == k + 1 && s[k].due == AddMonthsClamped(start, k + 1) && s[k].total == s[k].principal + s[k].interest
  }

  /**
   * Interest at `r` on the balance, and the rest of the instalment `e` off it; the last pays
   * everything off.
   */
  predicate ReducingLine(p: int, r: real, e: real, start: Date, s: seq<Instalment>, k: nat)
    requires k < |s|
  {
    var b := Before(p, s, k);
    && Dated(start, s, k) && s[k].interest == Round(b as real * r)
    && s[k].principal == (if k + 1 == |s| then b else Round(e - s[k].interest as real))
    && s[k].outstanding == b - s[k].principal
  }

  predicate ReducingLines(p: int, r: real, e: real, start: Date, s: seq<Instalment>) {
    forall k | 0 <= k < |s| :: ReducingLine(p, r, e, start, s, k)
  }

  /** The shares of the loan and of its interest, but for the last line. */
  predicate FlatLine(p: int, part: int, share: int, start: Date, s: seq<Instalment>, k: nat)
    requires k < |s|
  {
    && Dated(start, s, k) && s[k].outstanding == Before(p, s, k) - s[k].principal
    && (k + 1 < |s| ==> s[k].principal == part && s[k].interest == share)
  }

  /** Equal shares to the cent, and sums that the last line makes good. */
  predicate FlatLines(p: int, part: int, share: int, interest: int, start: Date, s: seq<Instalment>) {
    && (forall k | 0 <= k < |s| :: FlatLine(p, part, share, start, s, k))
    && SumPrincipal(s) == p && SumInterest(s) == interest
  }

  /** Interest on the whole loan for all its months. */
  function Quoted(loan: Loan): real {
    loan.principal as real * Monthly(loan.rate) * loan.months as real
  }

  /** A schedule by its terms. */
  ghost predicate ByTerms(loan: Loan, s: seq<Instalment>)
    requires Lends(loan)
  {
    && |s| == loan.months
    && match loan.interest
       case Flat =>
         FlatLines(loan.principal, Round(loan.principal as real / loan.months as real),
                   Round(Quoted(loan) / loan.months as real), Round(Quoted(loan)), loan.start, s)
       case ReducingBalance => exists e :: PaysOff(loan, e) && ReducingLines(loan.principal, Monthly(loan.rate), e, loan.start, s)
  }

  // ── The exact instalment ──────────────────────────────────────────────────

  lemma SharesOnly(x: real, y: real, n: real)
    requires n > 0.0 && x * n == y * n
    ensures x == y
  {
    CancelRight(x, y, n);
  }

  lemma OneZero(a: real, e: real, f: real, g: real)
    requires g > 0.0 && a - e * g == 0.0 && a - f * g == 0.0
    ensures e == f
  {
    CancelRight(e, f, g);
  }

  lemma OnlyOnePaysOff(p: int, q: real, e: real, f: real, n: nat)
    requires n > 0 && q >= 0.0 && Exact(p, q, e, n) == 0.0 && Exact(p, q, f, n) == 0.0
    ensures e == f
  {
    ExactClosed(p, q, e, n);
    ExactClosed(p, q, f, n);
    GeoNonNegative(q, n);
    OneZero(p as real * Pow(q, n), e, f, Geo(q, n));
  }

  lemma EqualSharesPayOff(loan: Loan)
    requires Lends(loan) && loan.rate < 0.0
    ensures Emi(loan) * loan.months as real == loan.principal as real
  {
    DivideThenTimes(loan.principal as real, loan.months as real);
  }

  /** Exactly one instalment pays the loan off. */
  lemma OnlyEmiPaysOff(loan: Loan, e: real)
    requires Lends(loan)
    ensures PaysOff(loan, e) <==> e == Emi(loan)
  {
    var emi := Emi(loan);
    if loan.rate >= 0.0 {
      AnnuityPaysOff(loan);
      if PaysOff(loan, e) {
        OnlyOnePaysOff(loan.principal, 1.0 + MonthlyRate(loan), e, emi, loan.months);
      }
    } else {
      EqualSharesPayOff(loan);
      if PaysOff(loan, e) {
        SharesOnly(e, emi, loan.months as real);
      }
    }
  }

  // ── Reducing balance ──────────────────────────────────────────────────────

  lemma OneLine(s: seq<Instalment>, p: int, r: real, e: real, start: Date, k: nat)
    requires k < |s|
    ensures ReducingLine(p, r, e, start, s, k) <==> s[k] == ReducingRowOn(Before(p, s, k), r, e, start, |s|, k + 1)
  {
    var b := Before(p, s, k);
    var row := ReducingRowOn(b, r, e, start, |s|, k + 1);
    assert row.interest == Round(b as real * r) == InterestOn(b, r);
    assert row.principal == if k + 1 == |s| then b else Round(e - row.interest as real);
    assert row.total == row.principal + row.interest && row.outstanding == b - row.principal;
    SameRow(s[k], row);
  }

  lemma SameRow(a: Instalment, b: Instalment)
    ensures a == b <==> && a.number == b.number && a.due == b.due && a.principal == b.principal && a.interest == b.interest
                        && a.total == b.total && a.outstanding == b.outstanding
  {
  }

  /** A full instalment leaves the next balance. */
  lemma NextBefore(s: seq<Instalment>, p: int, r: real, e: real, start: Date, k: nat)
    requires 0 < k < |s| && s[k - 1] == ReducingRowOn(Rounded(p, r, e, k - 1), r, e, start, |s|, k)
    ensures Before(p, s, k) == Rounded(p, r, e, k)
  {
    RoundedNext(p, r, e, k - 1);
  }

  lemma BeforeIs(s: seq<Instalment>, p: int, r: real, e: real, start: Date, k: nat)
    requires k < |s| && (k > 0 ==> s[k - 1] == ReducingRowOn(Rounded(p, r, e, k - 1), r, e, start, |s|, k))
    ensures Before(p, s, k) == Rounded(p, r, e, k)
  {
    if k > 0 {
      NextBefore(s, p, r, e, start, k);
    }
  }

  lemma {:induction false} LinesAreRows(s: seq<Instalment>, p: int, r: real, e: real, start: Date, k: nat)
    requires k < |s| && ReducingLines(p, r, e, start, s)
    ensures s[k] == ReducingRowOn(Rounded(p, r, e, k), r, e, start, |s|, k + 1)
    decreases k
  {
    if k > 0 {
      LinesAreRows(s, p, r, e, start, k - 1);
    }
    BeforeIs(s, p, r, e, start, k);
    OneLine(s, p, r, e, start, k);
  }

  predicate AreRows(s: seq<Instalment>, p: int, r: real, e: real, start: Date) {
    forall k: nat | k < |s| :: IsRow(s, p, r, e, start, k)
  }

  predicate IsRow(s: seq<Instalment>, p: int, r: real, e: real, start: Date, k: nat)
    requires k < |s|
  {
    s[k] == ReducingRowOn(Rounded(p, r, e, k), r, e, start, |s|, k + 1)
  }

  lemma RowsExactlyLines(s: seq<Instalment>, p: int, r: real, e: real, start: Date)
    ensures AreRows(s, p, r, e, start) <==> ReducingLines(p, r, e, start, s)
  {
    if ReducingLines(p, r, e, start, s) {
      forall k: nat | k < |s| ensures IsRow(s, p, r, e, start, k) { LinesAreRows(s, p, r, e, start, k); }
    }
    if AreRows(s, p, r, e, start) {
      forall k: nat | k < |s|
        ensures ReducingLine(p, r, e, start, s, k)
      {
        assert IsRow(s, p, r, e, start, k) && (k > 0 ==> IsRow(s, p, r, e, start, k - 1));
        BeforeIs(s, p, r, e, start, k);
        OneLine(s, p, r, e, start, k);
      }
    }
  }

  lemma ScheduledExactlyAsRows(loan: Loan, s: seq<Instalment>)
    requires Lends(loan) && loan.interest.ReducingBalance?
    ensures IsScheduleOf(loan, s) <==>
            |s| == loan.months && AreRows(s, loan.principal, Monthly(loan.rate), Emi(loan), loan.start)
  {
    var r := Monthly(loan.rate);
    assert MonthlyRate(loan) == r;
    if |s| == loan.months {
      forall k: nat | k < |s|
        ensures IsRow(s, loan.principal, r, Emi(loan), loan.start, k) <==> s[k] == Row(loan, k + 1)
      {
        assert Outstanding(loan, k) == Rounded(loan.principal, r, Emi(loan), k);
      }
    }
  }

  // ── Flat rate ─────────────────────────────────────────────────────────────

  lemma FlatTotal(p: real, rate: real, n: real)
    ensures p * (rate / 100.0) * (n / 12.0) == p * (rate / 1200.0) * n
  {
  }

  lemma {:induction false} SharesAddUp(p: int, part: int, share: int, start: Date, s: seq<Instalment>, k: nat)
    requires k < |s| && forall i | 0 <= i < |s| :: FlatLine(p, part, share, start, s, i)
    ensures SumPrincipal(s[..k]) == k * part && SumInterest(s[..k]) == k * share && Before(p, s, k) == p - k * part
    decreases k
  {
    if k > 0 {
      SharesAddUp(p, part, share, start, s, k - 1);
      assert FlatLine(p, part, share, start, s, k - 1);
      assert s[..k] == s[..k - 1] + [s[k - 1]];
      SumsOfOneMore(s[..k - 1], s[k - 1]);
      OneMoreTime(k, part);
      OneMoreTime(k, share);
    }
  }

  /** The line that comes of the shares and the sums. */
  function LineOf(p: int, part: int, share: int, interest: int, start: Date, n: nat, k: nat): Instalment {
    var principal := if k + 1 == n then p - k * part else part;
    var due := if k + 1 == n then interest - k * share else share;
    Instalment(k + 1, AddMonthsClamped(start, k + 1), principal, due, principal + due,
               if k + 1 == n then 0 else p - (k + 1) * part)
  }

  lemma LinesAreThose(p: int, part: int, share: int, interest: int, start: Date, s: seq<Instalment>, k: nat)
    requires k < |s| && FlatLines(p, part, share, interest, start, s)
    ensures s[k] == LineOf(p, part, share, interest, start, |s|, k)
  {
    SharesAddUp(p, part, share, start, s, k);
    assert FlatLine(p, part, share, start, s, k);
    OneMoreTime(k + 1, part);
    if k + 1 == |s| {
      assert s == s[..k] + [s[k]];
      SumsOfOneMore(s[..k], s[k]);
    }
  }

  lemma ThoseAreLines(p: int, part: int, share: int, interest: int, start: Date, s: seq<Instalment>, k: nat)
    requires k < |s| && forall i | 0 <= i < |s| :: s[i] == LineOf(p, part, share, interest, start, |s|, i)
    ensures FlatLine(p, part, share, start, s, k)
  {
    OneMoreTime(k + 1, part);
  }

  lemma FlatRowIs(loan: Loan, k: nat)
    requires Lends(loan) && k < loan.months
    ensures FlatRow(loan, k + 1) == LineOf(loan.principal, FlatPart(loan), FlatInterestPart(loan),
                                           Round(FlatInterest(loan)), loan.start, loan.months, k)
  {
  }

  lemma QuotedIs(loan: Loan)
    ensures Quoted(loan) == FlatInterest(loan)
  {
    FlatTotal(loan.principal as real, loan.rate, loan.months as real);
  }

  // ── The theorem ───────────────────────────────────────────────────────────

  lemma ReducingByTerms(loan: Loan, s: seq<Instalment>)
    requires Lends(loan) && loan.interest.ReducingBalance?
    ensures IsScheduleOf(loan, s) <==> ByTerms(loan, s)
  {
    ScheduledExactlyAsRows(loan, s);
    OnlyEmiPaysOff(loan, Emi(loan));
    RowsExactlyLines(s, loan.principal, Monthly(loan.rate), Emi(loan), loan.start);
    if ByTerms(loan, s) {
      var e :| PaysOff(loan, e) && ReducingLines(loan.principal, Monthly(loan.rate), e, loan.start, s);
      OnlyEmiPaysOff(loan, e);
    }
  }

  lemma FlatByTerms(loan: Loan, s: seq<Instalment>)
    requires Lends(loan) && loan.interest.Flat?
    ensures IsScheduleOf(loan, s) <==> ByTerms(loan, s)
  {
    var part, share, interest := FlatPart(loan), FlatInterestPart(loan), Round(FlatInterest(loan));
    forall k: nat | k < loan.months
      ensures Row(loan, k + 1) == LineOf(loan.principal, part, share, interest, loan.start, loan.months, k)
    {
      FlatRowIs(loan, k);
    }
    if IsScheduleOf(loan, s) {
      FlatConserves(loan, s);
    }
    LinesByTerms(loan, s, part, share, interest);
    QuotedIs(loan);
  }

  lemma LinesByTerms(loan: Loan, s: seq<Instalment>, part: int, share: int, interest: int)
    requires Lends(loan)
    requires forall k: nat | k < loan.months ::
               Row(loan, k + 1) == LineOf(loan.principal, part, share, interest, loan.start, loan.months, k)
    requires IsScheduleOf(loan, s) ==> SumPrincipal(s) == loan.principal && SumInterest(s) == interest
    ensures IsScheduleOf(loan, s) <==>
            |s| == loan.months && FlatLines(loan.principal, part, share, interest, loan.start, s)
  {
    if IsScheduleOf(loan, s) {
      forall k | 0 <= k < |s| ensures FlatLine(loan.principal, part, share, loan.start, s, k) {
        ThoseAreLines(loan.principal, part, share, interest, loan.start, s, k);
      }
    }
    if |s| == loan.months && FlatLines(loan.principal, part, share, interest, loan.start, s) {
      forall k | 0 <= k < |s| ensures s[k] == Row(loan, k + 1) {
        LinesAreThose(loan.principal, part, share, interest, loan.start, s, k);
      }
    }
  }

  /** The schedules the program makes are exactly those of the loan's terms. */
  lemma ScheduledExactlyByTerms(loan: Loan, s: seq<Instalment>)
    requires Lends(loan)
    ensures IsScheduleOf(loan, s) <==> ByTerms(loan, s)
  {
    if loan.interest.Flat? {
      FlatByTerms(loan, s);
    } else {
      ReducingByTerms(loan, s);
    }
  }

  method CalculateRepaymentSchedule(loan: Loan) returns (schedule: seq<Instalment>)
    ensures !Lends(loan) ==> schedule == []
    ensures Lends(loan) ==> IsScheduleOf(loan, schedule) && ByTerms(loan, schedule)
  {
    if loan.months <= 0 || loan.principal <= 0 {
      return [];
    }
    if loan.interest.Flat? {
      schedule := FlatSchedule(loan);
    } else {
      schedule := ReducingSchedule(loan.principal, MonthlyRate(loan), Emi(loan), loan.start, loan.months);
      ReducingRowsAre(loan);
    }
    ScheduledExactlyByTerms(loan, schedule);
  }

  /** The only rate at which the exact instalments are worth the loan is a twelfth of its annual percentage. */
  lemma RootIsTheAnnualPercentage(loan: Loan, e: real, rate: real)
    requires Lends(loan) && loan.rate > 0.0 && PaysOff(loan, e) && rate > -1.0
    ensures EffectiveRate.Npv(loan.principal as real, EffectiveRate.Level(e, loan.months), rate) == 0.0
            <==> 12.0 * rate * 100.0 == loan.rate
  {
    OnlyEmiPaysOff(loan, e);
    EmiIsPositive(loan);
    EffectiveRate.AnnuityRateIsTheRoot(loan.principal as real, Emi(loan), MonthlyRate(loan), loan.months, rate);
  }

  lemma PositiveInstalment(p: real, w: real, emi: real, g: real)
    requires p > 0.0 && w > 0.0 && g >= 1.0 && p * w == emi * g
    ensures emi > 0.0
  {
    MulPositive(p, w);
    if emi <= 0.0 {
      MulPositive(-emi, g);
      assert -emi * g == -(emi * g);
    }
  }

  lemma EmiIsPositive(loan: Loan)
    requires Lends(loan) && MonthlyRate(loan) > 0.0
    ensures Emi(loan) > 0.0
    ensures loan.principal as real * Pow(1.0 + MonthlyRate(loan), loan.months)
            == Emi(loan) * Geo(1.0 + MonthlyRate(loan), loan.months)
  {
    var r, n := MonthlyRate(loan), loan.months;
    EmiWithInterest(loan, r);
    PowPositive(1.0 + r, n);
    GeoNonNegative(1.0 + r, n);
    PositiveInstalment(loan.principal as real, Pow(1.0 + r, n), Emi(loan), Geo(1.0 + r, n));
  }
}
