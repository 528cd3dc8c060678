/** What the repayment schedule promises: conservation, and how far rounding can drift. */
module ScheduleBounds {
  import opened Reals
  import opened Calendar
  import opened RepaymentSchedule

  ghost predicate IsScheduleOf(loan: Loan, s: seq<Instalment>) {
    && Lends(loan) && |s| == loan.months
    && forall k | 0 <= k < loan.months :: s[k] == Row(loan, k + 1)
  }

  lemma {:induction false} PrincipalTelescopes(s: seq<Instalment>, level: int -> int, k: nat)
    requires k <= |s| && forall i | 0 <= i < k :: s[i].principal == level(i) - level(i + 1)
    ensures SumPrincipal(s[..k]) == level(0) - level(k)
  {
    if k > 0 {
      PrincipalTelescopes(s, level, k - 1);
      assert s[..k] == s[..k - 1] + [s[k - 1]];
      SumsOfOneMore(s[..k - 1], s[k - 1]);
      assert s[k - 1].principal == level(k - 1) - level(k - 1 + 1);
    }
  }

  /** Each instalment takes the balance one level down. */
  ghost predicate Follows(s: seq<Instalment>, level: int -> int) {
    forall i | 0 <= i < |s| :: s[i].principal == level(i) - level(i + 1) && s[i].outstanding == level(i + 1)
  }

  /** The principal parts add up to the loan, every balance is what is left of it, and the last is zero. */
  ghost predicate Conserves(loan: Loan, s: seq<Instalment>) {
    && SumPrincipal(s) == loan.principal
    && (forall k | 0 < k <= |s| :: s[k - 1].outstanding == loan.principal - SumPrincipal(s[..k]))
    && (s != [] ==> s[|s| - 1].outstanding == 0)
  }

  lemma FollowingConserves(loan: Loan, s: seq<Instalment>, level: int -> int)
    requires Follows(s, level) && level(0) == loan.principal && level(|s|) == 0
    ensures Conserves(loan, s)
  {
    forall k | 0 < k <= |s|
      ensures s[k - 1].outstanding == loan.principal - SumPrincipal(s[..k])
    {
      PrincipalTelescopes(s, level, k);
      assert s[k - 1].outstanding == level(k - 1 + 1);
    }
    PrincipalTelescopes(s, level, |s|);
    assert s[..|s|] == s;
    if s != [] {
      assert s[|s| - 1].outstanding == level(|s| - 1 + 1);
    }
  }

  lemma {:induction false} InterestTelescopes(s: seq<Instalment>, level: int -> int, k: nat)
    requires k <= |s| && forall i | 0 <= i < k :: s[i].interest == level(i) - level(i + 1)
    ensures SumInterest(s[..k]) == level(0) - level(k)
  {
    if k > 0 {
      InterestTelescopes(s, level, k - 1);
      assert s[..k] == s[..k - 1] + [s[k - 1]];
      SumsOfOneMore(s[..k - 1], s[k - 1]);
      assert s[k - 1].interest == level(k - 1) - level(k - 1 + 1);
    }
  }

  // ── Reducing balance ──────────────────────────────────────────────────────

  /** One exact instalment off an exact balance; `q` is 1 + the monthly rate. */
  function PayExactly(q: real, emi: real): real -> real {
    (balance: real) => balance * q - emi
  }

  /** The balance after `k` instalments with nothing rounded. */
  function Exact(p: int, q: real, emi: real, k: nat): real {
    Iterate(PayExactly(q, emi), p as real, k)
  }

  function Closed(p: int, q: real, emi: real, k: nat): real {
    p as real * Pow(q, k) - emi * Geo(q, k)
  }

  lemma ClosedNext(p: int, q: real, emi: real, k: nat)
    ensures Closed(p, q, emi, k + 1) == Closed(p, q, emi, k) * q - emi
  {
    ClosedStep(p as real, q, emi, Pow(q, k), Geo(q, k));
  }

  lemma ClosedStep(p: real, q: real, emi: real, w: real, g: real)
    ensures (p * w - emi * g) * q - emi == p * (q * w) - emi * (1.0 + q * g)
  {
    assert emi * (1.0 + q * g) == emi + emi * g * q;
    assert p * (q * w) == p * w * q;
  }

  /** In closed form: P q^k - EMI (1 + q + ... + q^(k-1)). */
  lemma {:induction false} ExactClosed(p: int, q: real, emi: real, k: nat)
    ensures Exact(p, q, emi, k) == Closed(p, q, emi, k)
  {
    if k > 0 {
      ExactClosed(p, q, emi, k - 1);
      ClosedNext(p, q, emi, k - 1);
    }
  }

  lemma AbsTimes(x: real, y: real)
    ensures Abs(x * y) == Abs(x) * Abs(y)
  {
    assert (-x) * y == -(x * y) && x * (-y) == -(x * y) && (-x) * (-y) == x * y;
    MulPositive(Abs(x), Abs(y));
  }

  lemma MulBelow(a: real, b: real, q: real)
    requires a <= b && q >= 0.0
    ensures q * a <= q * b
  {
    MulPositive(b - a, q);
    assert q * b == q * (a + (b - a)) == q * a + q * (b - a);
  }

  /** Rounding the interest and then the principal part moves the balance by less than a cent. */
  lemma RoundedStepError(balance: int, r: real, q: real, emi: real)
    requires q == 1.0 + r
    ensures var after := balance - PrincipalPart(balance, r, emi);
            Abs(after as real - (balance as real * q - emi)) <= 1.0
  {
    var x := balance as real;
    RoundError(x * r);
    RoundError(emi - InterestOn(balance, r) as real);
    assert x * q == x + x * r;
  }

  /** An error already in the balance grows by the month's rate. */
  lemma CarriedError(x: real, exact: real, q: real, g: real)
    requires Abs(x - exact) <= g
    ensures Abs(x * q - exact * q) <= Abs(q) * g
  {
    AbsTimes(q, x - exact);
    MulBelow(Abs(x - exact), g, Abs(q));
    assert q * (x - exact) == x * q - exact * q;
  }

  lemma AbsTriangle(a: real, b: real, c: real)
    ensures Abs(a - c) <= Abs(a - b) + Abs(b - c)
  {
  }

  lemma DriftStep(balance: int, exact: real, r: real, q: real, emi: real, g: real)
    requires Abs(balance as real - exact) <= g && q == 1.0 + r
    ensures var after := balance - PrincipalPart(balance, r, emi);
            Abs(after as real - (exact * q - emi)) <= 1.0 + Abs(q) * g
  {
    var after := balance - PrincipalPart(balance, r, emi);
    RoundedStepError(balance, r, q, emi);
    CarriedError(balance as real, exact, q, g);
    ErrorsAdd(after as real, balance as real * q, exact * q, emi, Abs(q) * g);
  }

  lemma ErrorsAdd(a: real, b: real, c: real, emi: real, w: real)
    requires Abs(a - (b - emi)) <= 1.0 && Abs(b - c) <= w
    ensures Abs(a - (c - emi)) <= 1.0 + w
  {
  }

  /** How far a bound on the error moves in one instalment. */
  function Widen(q: real): real -> real {
    (g: real) => 1.0 + Abs(q) * g
  }

  lemma {:induction false} WidenIsGeo(q: real, k: nat)
    ensures Iterate(Widen(q), 0.0, k) == Geo(Abs(q), k)
  {
    if k > 0 {
      WidenIsGeo(q, k - 1);
    }
  }

  predicate Near(rounded: int, exact: real, g: real) {
    Abs(rounded as real - exact) <= g
  }

  /** One step keeps a rounded and an exact value within a widened bound. */
  ghost predicate KeepsNear(rounded: int -> int, exact: real -> real, widen: real -> real) {
    forall b, x, g {:trigger rounded(b), exact(x), widen(g)} :: Near(b, x, g) ==> Near(rounded(b), exact(x), widen(g))
  }

  /** If one step keeps two iterations within a widened bound, any number of steps does. */
  lemma {:induction false} IterationsStayClose(
    rounded: int -> int, exact: real -> real, widen: real -> real, p: int, k: nat)
    requires KeepsNear(rounded, exact, widen)
    ensures Near(Iterate(rounded, p, k), Iterate(exact, p as real, k), Iterate(widen, 0.0, k))
  {
    if k > 0 {
      IterationsStayClose(rounded, exact, widen, p, k - 1);
    }
  }

  lemma PayOneStaysClose(r: real, q: real, emi: real)
    requires q == 1.0 + r
    ensures KeepsNear(PayOne(r, emi), PayExactly(q, emi), Widen(q))
  {
    forall b, x, g | Near(b, x, g)
      ensures Near(PayOne(r, emi)(b), PayExactly(q, emi)(x), Widen(q)(g))
    {
      PayOneClose(b, x, r, q, emi, g);
    }
  }

  lemma PayOneClose(b: int, x: real, r: real, q: real, emi: real, g: real)
    requires q == 1.0 + r && Abs(b as real - x) <= g
    ensures Abs(PayOne(r, emi)(b) as real - PayExactly(q, emi)(x)) <= Widen(q)(g)
  {
    DriftStep(b, x, r, q, emi, g);
  }

  /** After k instalments the rounded balance is within 1 + |q| + ... + |q|^(k-1) cents of the exact one. */
  lemma DriftBound(p: int, r: real, q: real, emi: real, k: nat)
    requires q == 1.0 + r
    ensures Abs(Rounded(p, r, emi, k) as real - Exact(p, q, emi, k)) <= Geo(Abs(q), k)
  {
    PayOneStaysClose(r, q, emi);
    IterationsStayClose(PayOne(r, emi), PayExactly(q, emi), Widen(q), p, k);
    WidenIsGeo(q, k);
  }

  /** The annuity identity: the exact instalment pays the loan off in `months` months. */
  lemma AnnuityPaysOff(loan: Loan)
    requires Lends(loan) && loan.rate >= 0.0
    ensures Exact(loan.principal, 1.0 + MonthlyRate(loan), Emi(loan), loan.months) == 0.0
  {
    var r, n := MonthlyRate(loan), loan.months;
    ExactClosed(loan.principal, 1.0 + r, Emi(loan), n);
    EmiCoversGrowth(loan);
  }

  lemma EmiCoversGrowth(loan: Loan)
    requires Lends(loan) && loan.rate >= 0.0
    ensures loan.principal as real * Pow(1.0 + MonthlyRate(loan), loan.months)
            == Emi(loan) * Geo(1.0 + MonthlyRate(loan), loan.months)
  {
    if MonthlyRate(loan) > 0.0 {
      EmiWithInterest(loan, MonthlyRate(loan));
    } else {
      EmiWithoutInterest(loan);
    }
  }

  lemma EmiWithInterest(loan: Loan, r: real)
    requires Lends(loan) && r == MonthlyRate(loan) > 0.0
    ensures loan.principal as real * Pow(1.0 + r, loan.months) == Emi(loan) * Geo(1.0 + r, loan.months)
  {
    var p, w, g := loan.principal as real, Pow(1.0 + r, loan.months), Geo(1.0 + r, loan.months);
    GeoClosed(1.0 + r, loan.months);
    GrowthExceedsOne(r, loan.months);
    DivideThenTimes(p * r * w, w - 1.0);
    Annuity(p, r, w, g, Emi(loan));
  }

  lemma EmiWithoutInterest(loan: Loan)
    requires Lends(loan) && MonthlyRate(loan) == 0.0
    ensures loan.principal as real * Pow(1.0, loan.months) == Emi(loan) * Geo(1.0, loan.months)
  {
    UnitGrowth(loan.months);
    DivideThenTimes(loan.principal as real, loan.months as real);
  }

  lemma Annuity(p: real, r: real, w: real, g: real, emi: real)
    requires r > 0.0 && r * g == w - 1.0 && emi * (w - 1.0) == p * r * w
    ensures p * w == emi * g
  {
    assert emi * g * r == emi * (r * g);
    assert p * w * r == p * r * w;
    CancelRight(emi * g, p * w, r);
  }

  lemma DivideThenTimes(x: real, y: real)
    requires y != 0.0
    ensures x / y * y == x
  {
  }

  lemma CancelRight(x: real, y: real, r: real)
    requires r > 0.0 && x * r == y * r
    ensures x == y
  {
    TimesThenDivide(x, r);
    TimesThenDivide(y, r);
  }

  lemma TimesThenDivide(x: real, y: real)
    requires y != 0.0
    ensures x * y / y == x
  {
  }

  lemma {:induction false} UnitGrowth(n: nat)
    ensures Pow(1.0, n) == 1.0 && Geo(1.0, n) == n as real
  {
    if n > 0 {
      UnitGrowth(n - 1);
    }
  }

  /** The balance the schedule reaches after `k` instalments. */
  function Balance(loan: Loan, k: int): int
    requires Lends(loan)
  {
    if 0 <= k < loan.months then Outstanding(loan, k) else 0
  }

  lemma ReducingRowAt(loan: Loan, s: seq<Instalment>, i: int)
    requires IsScheduleOf(loan, s) && loan.interest.ReducingBalance? && 0 <= i < loan.months
    ensures s[i].principal == Balance(loan, i) - Balance(loan, i + 1)
    ensures s[i].outstanding == Balance(loan, i + 1)
    ensures s[i].total == s[i].principal + InterestOn(Balance(loan, i), MonthlyRate(loan))
  {
    assert s[i] == Row(loan, i + 1);
    if i + 1 < loan.months {
      RoundedNext(loan.principal, MonthlyRate(loan), Emi(loan), i);
    }
  }

  lemma RoundedNext(p: int, r: real, emi: real, i: nat)
    ensures Rounded(p, r, emi, i + 1) == Rounded(p, r, emi, i) - PrincipalPart(Rounded(p, r, emi, i), r, emi)
  {
  }

  function BalanceOf(loan: Loan): int -> int
    requires Lends(loan)
  {
    (k: int) => Balance(loan, k)
  }

  lemma ReducingFollows(loan: Loan, s: seq<Instalment>)
    requires IsScheduleOf(loan, s) && loan.interest.ReducingBalance?
    ensures Follows(s, BalanceOf(loan))
  {
    forall i | 0 <= i < |s|
      ensures s[i].principal == BalanceOf(loan)(i) - BalanceOf(loan)(i + 1)
      ensures s[i].outstanding == BalanceOf(loan)(i + 1)
    {
      ReducingRowAt(loan, s, i);
    }
  }

  /**
   * The principal parts add up to the loan, each balance is the loan less the parts so far, and
   * the schedule ends at zero.
   */
  lemma ReducingConserves(loan: Loan, s: seq<Instalment>)
    requires IsScheduleOf(loan, s) && loan.interest.ReducingBalance?
    ensures Conserves(loan, s)
  {
    ReducingFollows(loan, s);
    FollowingConserves(loan, s, BalanceOf(loan));
  }

  /**
   * Before the last instalment the stated balance is within 1 + |q| + ... + |q|^(k-1) cents of the
   * exact one, where q is 1 + the monthly rate.
   */
  lemma ReducingDrift(loan: Loan, s: seq<Instalment>, k: nat)
    requires IsScheduleOf(loan, s) && loan.interest.ReducingBalance? && 0 < k < loan.months
    ensures var q := 1.0 + MonthlyRate(loan);
            Abs(s[k - 1].outstanding as real - Exact(loan.principal, q, Emi(loan), k)) <= Geo(Abs(q), k)
  {
    ReducingRowAt(loan, s, k - 1);
    DriftBound(loan.principal, MonthlyRate(loan), 1.0 + MonthlyRate(loan), Emi(loan), k);
  }

  /** The total of a last instalment that starts from this balance. */
  function LastTotal(r: real): int -> int {
    (balance: int) => balance + InterestOn(balance, r)
  }

  /** What the exact instalments would be paid in all, one step on. */
  function PaidExactly(q: real, emi: real): real -> real {
    (x: real) => emi + (x * q - emi)
  }

  ghost predicate Adds(paid: real -> real, emi: real, exact: real -> real) {
    forall x :: paid(x) == emi + exact(x)
  }

  lemma LastStaysClose(
    rounded: int -> int, exact: real -> real, widen: real -> real, total: int -> int, paid: real -> real, emi: real,
    p: int, n: nat, bound: real)
    requires KeepsNear(rounded, exact, widen) && KeepsNear(total, paid, widen) && Adds(paid, emi, exact)
    requires n > 0 && Iterate(widen, 0.0, n) == bound
    ensures Near(total(Iterate(rounded, p, n - 1)), emi + Iterate(exact, p as real, n), bound)
  {
    IterationsStayClose(rounded, exact, widen, p, n - 1);
  }

  lemma LastStep(balance: int, exact: real, r: real, q: real, emi: real, g: real)
    requires Abs(balance as real - exact) <= g && q == 1.0 + r
    ensures Abs((balance + InterestOn(balance, r)) as real - (emi + (exact * q - emi))) <= 1.0 + Abs(q) * g
  {
    var total := (balance + InterestOn(balance, r)) as real;
    WithInterest(balance, r, q);
    CarriedError(balance as real, exact, q, g);
    AbsTriangle(total, balance as real * q, exact * q);
    assert emi + (exact * q - emi) == exact * q;
  }

  lemma WithInterest(balance: int, r: real, q: real)
    requires q == 1.0 + r
    ensures Abs((balance + InterestOn(balance, r)) as real - balance as real * q) <= 1.0
  {
    RoundError(balance as real * r);
    assert balance as real * q == balance as real + balance as real * r;
  }

  lemma LastTotalStaysClose(r: real, q: real, emi: real)
    requires q == 1.0 + r
    ensures KeepsNear(LastTotal(r), PaidExactly(q, emi), Widen(q))
  {
    forall b, x, g | Near(b, x, g)
      ensures Near(LastTotal(r)(b), PaidExactly(q, emi)(x), Widen(q)(g))
    {
      LastTotalClose(b, x, r, q, emi, g);
    }
  }

  lemma LastTotalClose(b: int, x: real, r: real, q: real, emi: real, g: real)
    requires q == 1.0 + r && Near(b, x, g)
    ensures Near(LastTotal(r)(b), PaidExactly(q, emi)(x), Widen(q)(g))
  {
    LastStep(b, x, r, q, emi, g);
  }

  lemma PaidAdds(q: real, emi: real)
    ensures Adds(PaidExactly(q, emi), emi, PayExactly(q, emi))
  {
  }

  lemma LastInstalment(p: int, r: real, q: real, emi: real, n: nat)
    requires n > 0 && q == 1.0 + r
    ensures Near(LastTotal(r)(Rounded(p, r, emi, n - 1)), emi + Exact(p, q, emi, n), Geo(Abs(q), n))
  {
    PayOneStaysClose(r, q, emi);
    LastTotalStaysClose(r, q, emi);
    PaidAdds(q, emi);
    WidenIsGeo(q, n);
    LastStaysClose(PayOne(r, emi), PayExactly(q, emi), Widen(q), LastTotal(r), PaidExactly(q, emi), emi, p, n, Geo(Abs(q), n));
  }

  /**
   * The last instalment is within 1 + |q| + ... + |q|^(n-1) cents of the exact one plus what exact
   * instalments would have left, and for a rate of zero or more they leave nothing.
   */
  lemma ReducingLastInstalment(loan: Loan, s: seq<Instalment>)
    requires IsScheduleOf(loan, s) && loan.interest.ReducingBalance?
    ensures var q := 1.0 + MonthlyRate(loan);
            var left := Exact(loan.principal, q, Emi(loan), loan.months);
            && Abs(s[|s| - 1].total as real - (Emi(loan) + left)) <= Geo(Abs(q), loan.months)
            && (loan.rate >= 0.0 ==> left == 0.0)
  {
    var r, n := MonthlyRate(loan), loan.months;
    ReducingRowAt(loan, s, n - 1);
    LastInstalment(loan.principal, r, 1.0 + r, Emi(loan), n);
    if loan.rate >= 0.0 {
      AnnuityPaysOff(loan);
    }
  }

  // ── Flat rate ─────────────────────────────────────────────────────────────

  /** What is left of a total after `k` of `n` parts, when the last takes the rest. */
  function Rest(total: int, part: int, n: int, k: int): int {
    if k < n then total - k * part else 0
  }

  lemma FlatRowAt(loan: Loan, s: seq<Instalment>, i: int)
    requires IsScheduleOf(loan, s) && loan.interest.Flat? && 0 <= i < loan.months
    ensures var n, part := loan.months, FlatPart(loan);
            && s[i].principal == Rest(loan.principal, part, n, i) - Rest(loan.principal, part, n, i + 1)
            && s[i].outstanding == Rest(loan.principal, part, n, i + 1)
    ensures var n, total, part := loan.months, Round(FlatInterest(loan)), FlatInterestPart(loan);
            s[i].interest == Rest(total, part, n, i) - Rest(total, part, n, i + 1)
  {
    assert s[i] == Row(loan, i + 1);
    OneMoreTime(i + 1, FlatPart(loan));
    OneMoreTime(i + 1, FlatInterestPart(loan));
  }

  /** The residue of n - 1 equal roundings, each at most half a cent off. */
  lemma ResidueBound(p: int, n: int)
    requires n > 0
    ensures var part := Round(p as real / n as real);
            Abs((p - (n - 1) * part) as real - p as real / n as real) <= (n - 1) as real / 2.0
  {
    var share, part := p as real / n as real, Round(p as real / n as real);
    RoundError(share);
    DivideThenTimes(p as real, n as real);
    Residue(share, part as real, n as real, p as real);
    CastResidue(p, n - 1, part);
  }

  lemma CastResidue(p: int, m: int, part: int)
    ensures (p - m * part) as real == p as real - m as real * part as real
  {
    assert (m * part) as real == m as real * part as real;
  }

  lemma Residue(share: real, part: real, n: real, p: real)
    requires share * n == p && Abs(part - share) <= 0.5 && n >= 1.0
    ensures Abs(p - (n - 1.0) * part - share) <= (n - 1.0) / 2.0
  {
    var m, e := n - 1.0, part - share;
    AbsTimes(m, e);
    MulBelow(Abs(e), 0.5, m);
    assert Abs(e) <= 0.5;
    assert share * (m + 1.0) == share * m + share;
    assert m * (share + e) == m * share + m * e;
    assert n == m + 1.0 && part == share + e;
    assert m * part == m * (share + e);
    assert p - m * part - share == share * m - m * share - m * e;
    assert share * m == m * share;
    assert Abs(m) == m;
    calc {
      Abs(m * e);
      Abs(m) * Abs(e);
      m * Abs(e);
    <=
      m * 0.5;
    }
    assert Abs(-(m * e)) == Abs(m * e);
    assert p - (n - 1.0) * part - share == -(m * e);
  }

  function RestOf(total: int, part: int, n: int): int -> int {
    (k: int) => Rest(total, part, n, k)
  }

  lemma FlatFollows(loan: Loan, s: seq<Instalment>)
    requires IsScheduleOf(loan, s) && loan.interest.Flat?
    ensures Follows(s, RestOf(loan.principal, FlatPart(loan), loan.months))
    ensures var level := RestOf(Round(FlatInterest(loan)), FlatInterestPart(loan), loan.months);
            forall i | 0 <= i < |s| :: s[i].interest == level(i) - level(i + 1)
  {
    var interest := RestOf(Round(FlatInterest(loan)), FlatInterestPart(loan), loan.months);
    var level := RestOf(loan.principal, FlatPart(loan), loan.months);
    forall i | 0 <= i < |s|
      ensures s[i].principal == level(i) - level(i + 1) && s[i].outstanding == level(i + 1)
      ensures s[i].interest == interest(i) - interest(i + 1)
    {
      FlatRowAt(loan, s, i);
    }
  }

  /** The flat schedule conserves the loan, and its interest parts add up to the total rounded once. */
  lemma FlatConserves(loan: Loan, s: seq<Instalment>)
    requires IsScheduleOf(loan, s) && loan.interest.Flat?
    ensures Conserves(loan, s)
    ensures SumInterest(s) == Round(FlatInterest(loan))
  {
    FlatFollows(loan, s);
    FollowingConserves(loan, s, RestOf(loan.principal, FlatPart(loan), loan.months));
    InterestTelescopes(s, RestOf(Round(FlatInterest(loan)), FlatInterestPart(loan), loan.months), |s|);
    assert s[..|s|] == s;
  }

  /** The last principal part is within (n-1)/2 cents of an equal share. */
  lemma FlatLastPart(loan: Loan, s: seq<Instalment>)
    requires IsScheduleOf(loan, s) && loan.interest.Flat?
    ensures Abs(s[|s| - 1].principal as real - loan.principal as real / loan.months as real)
            <= (loan.months - 1) as real / 2.0
  {
    FlatRowAt(loan, s, loan.months - 1);
    ResidueBound(loan.principal, loan.months);
  }

  ghost predicate NothingNegative(s: seq<Instalment>) {
    forall k | 0 <= k < |s| :: s[k].principal >= 0 && s[k].outstanding >= 0
  }

  lemma KeepsBelow(k: int, n: int, part: int)
    requires 0 <= k <= n && part >= 0
    ensures k * part <= n * part
  {
  }

  /**
   * No part and no balance is negative exactly when n - 1 rounded shares fit in the loan, and they
   * do whenever the loan is at least n(n-1)/2 cents.
   */
  lemma FlatNeverNegative(loan: Loan, s: seq<Instalment>)
    requires IsScheduleOf(loan, s) && loan.interest.Flat?
    ensures NothingNegative(s) <==> (loan.months - 1) * FlatPart(loan) <= loan.principal
    ensures 2 * loan.principal >= loan.months * (loan.months - 1) ==> NothingNegative(s)
  {
    var n, part := loan.months, FlatPart(loan);
    FlatRowAt(loan, s, n - 1);
    PositiveShare(loan.principal, n);
    if (n - 1) * part <= loan.principal {
      forall k | 0 <= k < n
        ensures s[k].principal >= 0 && s[k].outstanding >= 0
      {
        FlatRowAt(loan, s, k);
        OneMoreTime(k + 1, part);
        if k + 1 < n {
          KeepsBelow(k + 1, n - 1, part);
        }
      }
    }
    if 2 * loan.principal >= n * (n - 1) {
      ResidueBound(loan.principal, n);
      LargeShare(loan.principal, n);
    }
  }

  lemma PositiveShare(p: int, n: int)
    requires p > 0 && n > 0
    ensures Round(p as real / n as real) >= 0
  {
    assert p as real / n as real > 0.0;
  }

  lemma LargeShare(p: int, n: int)
    requires n > 0 && 2 * p >= n * (n - 1)
    ensures p as real / n as real >= (n - 1) as real / 2.0
  {
    var h := (n - 1) as real / 2.0;
    assert (n * (n - 1)) as real == h * 2.0 * n as real;
    var x := p as real - h * n as real;
    assert x / n as real >= 0.0;
    DivideThenTimes(x, n as real);
    DivideThenTimes(p as real, n as real);
    assert (p as real / n as real - h) * n as real == x;
    CancelRight(p as real / n as real - h, x / n as real, n as real);
  }

  /** Two cents over four months: three parts of one cent, and a last one of minus one cent. */
  lemma SmallLoanGoesNegative(loan: Loan, s: seq<Instalment>)
    requires IsScheduleOf(loan, s) && loan.interest.Flat? && loan.principal == 2 && loan.months == 4
    ensures s[3].principal == -1 && !NothingNegative(s)
  {
    FlatRowAt(loan, s, 3);
    RoundUnique(2.0 / 4.0, 1);
  }

  // ── Either method ─────────────────────────────────────────────────────────

  /** Due dates are strictly increasing, each 28 to 31 days after the one before (the start, for the first). */
  lemma DueDatesAreMonthly(loan: Loan, s: seq<Instalment>, k: nat)
    requires IsScheduleOf(loan, s) && ValidDate(loan.start) && k < loan.months
    ensures var earlier := if k == 0 then loan.start else s[k - 1].due;
            28 <= DayNumber(s[k].due) - DayNumber(earlier) <= 31
  {
    assert s[k] == Row(loan, k + 1);
    if k == 0 {
      AddNoMonths(loan.start);
    } else {
      assert s[k - 1] == Row(loan, k);
    }
    MonthlyGap(loan.start, k);
  }
}
