/**
 * A reducing schedule with its lines rounded to cents: when nothing in it is negative, and how far
 * its rate can be from the nominal one.
 */
module RoundedRate {
  import opened Reals
  import opened RepaymentSchedule
  import opened ScheduleBounds
  import opened EffectiveRate

  // ── When nothing is negative ──────────────────────────────────────────────

  lemma CoversInterest(p: real, r: real, w: real, g: real, emi: real)
    requires p > 0.0 && g >= 1.0 && r * g == w - 1.0 && p * w == emi * g
    ensures emi > p * r
  {
    assert emi * g == p * (1.0 + r * g) == p + p * r * g;
    assert (emi - p * r) * g == p;
    PositiveFactor(emi - p * r, g);
  }

  lemma PositiveFactor(x: real, g: real)
    requires g > 0.0 && x * g > 0.0
    ensures x > 0.0
  {
    if x <= 0.0 {
      MulPositive(-x, g);
    }
  }

  /** The exact instalment more than covers a month's interest on the whole loan. */
  lemma EmiCoversInterest(loan: Loan)
    requires Lends(loan) && loan.rate >= 0.0
    ensures Emi(loan) > loan.principal as real * MonthlyRate(loan)
  {
    var q, n := 1.0 + MonthlyRate(loan), loan.months;
    EmiCoversGrowth(loan);
    GeoClosed(q, n);
    GeoNonNegative(q, n);
    CoversInterest(loan.principal as real, MonthlyRate(loan), Pow(q, n), Geo(q, n), Emi(loan));
  }

  /** So the principal part of a full instalment is not negative on any balance up to the loan. */
  lemma PartNotNegative(b: int, p: int, r: real, emi: real)
    requires b <= p && r >= 0.0 && emi > p as real * r
    ensures PrincipalPart(b, r, emi) >= 0
  {
    MulBelow(b as real, p as real, r);
    RoundError(b as real * r);
    assert InterestOn(b, r) as real <= p as real * r + 0.5;
    assert emi - InterestOn(b, r) as real > -0.5;
  }

  lemma {:induction false} RoundedFalls(p: int, r: real, emi: real, j: nat, k: nat)
    requires r >= 0.0 && emi > p as real * r && j <= k
    ensures Rounded(p, r, emi, k) <= Rounded(p, r, emi, j) <= p
    decreases k
  {
    if k > 0 {
      RoundedFalls(p, r, emi, if j < k then j else k - 1, k - 1);
      PartNotNegative(Rounded(p, r, emi, k - 1), p, r, emi);
      RoundedNext(p, r, emi, k - 1);
    }
  }

  lemma BalancesFall(loan: Loan, j: nat, k: nat)
    requires Lends(loan) && loan.rate >= 0.0 && j <= k
    ensures Outstanding(loan, k) <= Outstanding(loan, j) <= loan.principal
  {
    EmiCoversInterest(loan);
    RoundedFalls(loan.principal, MonthlyRate(loan), Emi(loan), j, k);
  }

  lemma LastPlain(b: real, x: real, g: real, q: real)
    requires q > 0.0 && b >= x - g && x * q >= g * q
    ensures b >= 0.0
  {
    MulPositive(b - x + g, q);
    assert (b - x + g) * q == b * q - x * q + g * q;
    if b < 0.0 {
      NegativeTimes(b, q);
    }
  }

  lemma NegativeTimes(b: real, q: real)
    requires q > 0.0 && b < 0.0
    ensures b * q < 0.0
  {
    MulPositive(-b, q);
    assert -b * q == -(b * q);
  }

  lemma RoundedAbove(p: int, r: real, emi: real, k: nat)
    requires r >= 0.0
    ensures Rounded(p, r, emi, k) as real >= Exact(p, 1.0 + r, emi, k) - Geo(1.0 + r, k)
  {
    DriftBound(p, r, 1.0 + r, emi, k);
    assert Abs(1.0 + r) == 1.0 + r;
  }

  lemma LastRounded(p: int, r: real, emi: real, k: nat)
    requires r >= 0.0 && Exact(p, 1.0 + r, emi, k) * (1.0 + r) >= Geo(1.0 + r, k) * (1.0 + r)
    ensures Rounded(p, r, emi, k) >= 0
  {
    RoundedAbove(p, r, emi, k);
    LastPlain(Rounded(p, r, emi, k) as real, Exact(p, 1.0 + r, emi, k), Geo(1.0 + r, k), 1.0 + r);
  }

  lemma ExactNext(p: int, q: real, emi: real, n: nat)
    requires n > 0
    ensures Exact(p, q, emi, n) == Exact(p, q, emi, n - 1) * q - emi
  {
  }

  lemma GeoNext(q: real, n: nat)
    requires n > 0
    ensures Geo(q, n) == 1.0 + Geo(q, n - 1) * q
  {
  }

  lemma LastBalance(loan: Loan)
    requires Lends(loan) && loan.rate >= 0.0 && Emi(loan) + 1.0 >= Geo(1.0 + MonthlyRate(loan), loan.months)
    ensures Outstanding(loan, loan.months - 1) >= 0
  {
    AnnuityPaysOff(loan);
    ExactNext(loan.principal, 1.0 + MonthlyRate(loan), Emi(loan), loan.months);
    GeoNext(1.0 + MonthlyRate(loan), loan.months);
    LastRounded(loan.principal, MonthlyRate(loan), Emi(loan), loan.months - 1);
  }

  /**
   * In a reducing schedule no part and no balance is negative exactly when the rounded balance before
   * the last instalment is not, and it is not whenever the exact instalment, in cents, is at least
   * q + ... + q^(n-1).
   */
  lemma ReducingNeverNegative(loan: Loan, s: seq<Instalment>)
    requires IsScheduleOf(loan, s) && loan.interest.ReducingBalance? && loan.rate >= 0.0
    ensures NothingNegative(s) <==> Outstanding(loan, loan.months - 1) >= 0
    ensures Emi(loan) + 1.0 >= Geo(1.0 + MonthlyRate(loan), loan.months) ==> NothingNegative(s)
  {
    var n := loan.months;
    ReducingRowAt(loan, s, n - 1);
    if Outstanding(loan, n - 1) >= 0 {
      forall k | 0 <= k < n
        ensures s[k].principal >= 0 && s[k].outstanding >= 0
      {
        ReducingRowAt(loan, s, k);
        if k + 1 < n {
          BalancesFall(loan, k, k + 1);
          BalancesFall(loan, k + 1, n - 1);
        }
      }
    }
    if Emi(loan) + 1.0 >= Geo(1.0 + MonthlyRate(loan), n) {
      LastBalance(loan);
    }
  }

  // ── Present values ────────────────────────────────────────────────────────

  /** Discount factors for a growth of `q` a month. */
  ghost predicate Factors(w: seq<real>, q: real) {
    |w| > 0 && w[0] == 1.0 && forall i | 0 < i < |w| :: w[i] > 0.0 && w[i - 1] == q * w[i]
  }

  predicate Grows(x: seq<real>, a: seq<real>, w: seq<real>, i: nat)
    requires i < |a| && i + 1 < |w| && i + 1 < |x|
  {
    x[i + 1] == x[i] + a[i] * w[i + 1]
  }

  /** The running sums of the amounts, the one after `i` months worth `w[i]` of itself. */
  ghost predicate Adds(x: seq<real>, a: seq<real>, w: seq<real>) {
    0 < |x| == |w| <= |a| + 1 && x[0] == 0.0 && forall i: nat | i + 1 < |w| :: Grows(x, a, w, i)
  }

  function Present(a: seq<real>, w: seq<real>, k: nat): real
    requires k <= |a| && k < |w|
  {
    if k == 0 then 0.0 else Present(a, w, k - 1) + a[k - 1] * w[k]
  }

  function Running(a: seq<real>, w: seq<real>): (x: seq<real>)
    requires 0 < |w| <= |a| + 1
  {
    seq(|w|, i requires 0 <= i < |w| => Present(a, w, i))
  }

  lemma RunningAdds(a: seq<real>, w: seq<real>)
    requires 0 < |w| <= |a| + 1
    ensures Adds(Running(a, w), a, w)
  {
  }

  function Ones(n: nat): seq<real> {
    seq(n, _ => 1.0)
  }

  // ── What the instalments are worth ────────────────────────────────────────

  /** Instalment `i` pays for one month's interest at `r`, to half a cent, and for the fall of the balance. */
  predicate PaysFor(t: seq<real>, b: seq<real>, r: real, i: nat)
    requires i < |t| < |b|
  {
    -0.5 <= t[i] - (b[i] - b[i + 1] + b[i] * r) <= 0.5
  }

  lemma HalfOf(e: real, w: real)
    requires -0.5 <= e <= 0.5 && w >= 0.0
    ensures -(w / 2.0) <= e * w <= w / 2.0
  {
    MulPositive(0.5 - e, w);
    MulPositive(e + 0.5, w);
    assert (0.5 - e) * w == 0.5 * w - e * w;
    assert (e + 0.5) * w == e * w + 0.5 * w;
  }

  /**
   * One more instalment, in plain reals: `b` and `c` are the balances before and after it, `e` the
   * rounding of its interest, `v` and `w` the factors before and after it.
   */
  lemma OneMoreInstalment(d: real, p: real, b: real, c: real, e: real, r: real, q: real, v: real, w: real, total: real)
    requires total == b - c + b * r + e && v == q * w
    ensures d + total * w - p + c * w == (d - p + b * v) + (r - (q - 1.0)) * (b * w) + e * w
  {
    assert total * w == b * w - c * w + r * (b * w) + e * w;
    assert b * v == q * (b * w);
    assert (r - (q - 1.0)) * (b * w) == r * (b * w) - q * (b * w) + b * w;
  }

  lemma TimesSum(x: real, s: real, y: real, z: real)
    requires s == y + z
    ensures x * s == x * y + x * z
  {
  }

  /** A difference that moves by at most half a weight stays within half the weights. */
  lemma StaysWithin(u: real, g: real, e: real, move: real, u2: real, g2: real, weight: real, w: real)
    requires Abs(u - g) <= weight / 2.0 && u2 == u + move + e && g2 == g + move && -(w / 2.0) <= e <= w / 2.0
    ensures Abs(u2 - g2) <= (weight + w) / 2.0
  {
  }

  /**
   * What instalments worth `d` leave of the loan `p`, with a balance `b` at factor `v`, is the gap
   * between the rates times the balances so far, up to half the weights.
   */
  predicate Within(p: real, gap: real, d: real, b: real, v: real, sum: real, weight: real) {
    Abs((d - p + b * v) - gap * sum) <= weight / 2.0
  }

  lemma NextPlain(p: real, gap: real, d: real, d2: real, b: real, c: real, r: real, q: real, v: real, w: real,
                  total: real, sum: real, sum2: real, weight: real, weight2: real)
    requires gap == r - (q - 1.0) && -0.5 <= total - (b - c + b * r) <= 0.5 && v == q * w && w >= 0.0
    requires d2 == d + total * w && sum2 == sum + b * w && weight2 == weight + w
    requires Within(p, gap, d, b, v, sum, weight)
    ensures Within(p, gap, d2, c, w, sum2, weight2)
  {
    var e := total - (b - c + b * r);
    OneMoreInstalment(d, p, b, c, e, r, q, v, w, total);
    HalfOf(e, w);
    TimesSum(gap, sum2, sum, b * w);
    StaysWithin(d - p + b * v, gap * sum, e * w, gap * (b * w), d2 - p + c * w, gap * sum2, weight, w);
  }

  /** `x`, `y` and `z` sum the instalments, the balances and the factors themselves. */
  ghost predicate Sums(t: seq<real>, b: seq<real>, w: seq<real>, x: seq<real>, y: seq<real>, z: seq<real>) {
    |t| + 1 == |b| == |w| && Adds(x, t, w) && Adds(y, b, w) && Adds(z, Ones(|w|), w)
  }

  lemma StartPlain(p: real, gap: real)
    ensures Within(p, gap, 0.0, p, 1.0, 0.0, 0.0)
  {
  }

  /** One step of the running sums, each number by its own name. */
  lemma NextAccount(t: seq<real>, b: seq<real>, w: seq<real>, x: seq<real>, y: seq<real>, z: seq<real>,
                    r: real, q: real, gap: real, k: nat)
    requires Sums(t, b, w, x, y, z) && Factors(w, q) && k < |t| && PaysFor(t, b, r, k) && gap == r - (q - 1.0)
    requires Within(b[0], gap, x[k], b[k], w[k], y[k], z[k])
    ensures Within(b[0], gap, x[k + 1], b[k + 1], w[k + 1], y[k + 1], z[k + 1])
  {
    assert Grows(x, t, w, k) && Grows(y, b, w, k) && Grows(z, Ones(|w|), w, k);
    NextPlain(b[0], gap, x[k], x[k + 1], b[k], b[k + 1], r, q, w[k], w[k + 1], t[k], y[k], y[k + 1], z[k], z[k + 1]);
  }

  /** Up to half a cent for each instalment, the instalments so far account for the balances so far. */
  lemma {:induction false} InstalmentsAccount(t: seq<real>, b: seq<real>, w: seq<real>, x: seq<real>, y: seq<real>,
                                              z: seq<real>, r: real, q: real, gap: real, k: nat)
    requires Sums(t, b, w, x, y, z) && Factors(w, q) && k <= |t| && gap == r - (q - 1.0)
    requires forall i | 0 <= i < |t| :: PaysFor(t, b, r, i)
    ensures Within(b[0], gap, x[k], b[k], w[k], y[k], z[k])
    decreases k
  {
    if k == 0 {
      StartPlain(b[0], gap);
    } else {
      InstalmentsAccount(t, b, w, x, y, z, r, q, gap, k - 1);
      NextAccount(t, b, w, x, y, z, r, q, gap, k - 1);
    }
  }

  // ── The bound ─────────────────────────────────────────────────────────────

  lemma {:induction false} FactorsFall(w: seq<real>, q: real, k: nat)
    requires Factors(w, q) && q >= 1.0 && 0 < k < |w|
    ensures w[k] <= w[1]
    decreases k
  {
    if k > 1 {
      FactorsFall(w, q, k - 1);
      MulBelow(1.0, q, w[k]);
      assert w[k] * q == q * w[k];
    }
  }

  lemma OneMoreTimes(k: nat, u: real)
    requires k > 0
    ensures (k - 1) as real * u + u == k as real * u
  {
  }

  lemma {:induction false} WeightsAtMost(w: seq<real>, z: seq<real>, q: real, k: nat)
    requires Factors(w, q) && q >= 1.0 && k < |w| && |w| > 1 && Adds(z, Ones(|w|), w)
    ensures z[k] <= k as real * w[1]
    decreases k
  {
    if k > 0 {
      WeightsAtMost(w, z, q, k - 1);
      assert Grows(z, Ones(|w|), w, k - 1);
      FactorsFall(w, q, k);
      OneMoreTimes(k, w[1]);
    }
  }

  lemma {:induction false} PresentAtLeast(b: seq<real>, w: seq<real>, y: seq<real>, q: real, k: nat)
    requires Factors(w, q) && 0 < k < |w| == |b| && NonNegative(b) && Adds(y, b, w)
    ensures y[k] >= b[0] * w[1]
    decreases k
  {
    assert Grows(y, b, w, k - 1);
    if k > 1 {
      PresentAtLeast(b, w, y, q, k - 1);
      MulPositive(b[k - 1], w[k]);
    }
  }

  lemma TimesMore(x: real, y: real, u: real)
    requires u > 0.0 && x > y
    ensures x * u > y * u
  {
    MulPositive(x - y, u);
    assert (x - y) * u == x * u - y * u;
  }

  lemma DivideOut(x: real, y: real, u: real)
    requires u > 0.0 && x * u <= y * u
    ensures x <= y
  {
    if x > y {
      TimesMore(x, y, u);
    }
  }

  lemma Cancel(gap: real, p: real, sum: real, weights: real, n: nat, u: real)
    requires u > 0.0 && Abs(gap * sum) <= weights / 2.0 && weights <= n as real * u && sum >= p * u && p > 0.0
    ensures Abs(gap) * p <= n as real / 2.0
  {
    MulPositive(p, u);
    AbsTimes(gap, sum);
    MulBelow(p * u, sum, Abs(gap));
    assert Abs(gap) * (p * u) == (Abs(gap) * p) * u;
    assert n as real * u / 2.0 == (n as real / 2.0) * u;
    DivideOut(Abs(gap) * p, n as real / 2.0, u);
  }

  lemma NothingLeft(p: real, gap: real, w: real, sum: real, weight: real)
    requires Within(p, gap, p, 0.0, w, sum, weight)
    ensures Abs(gap * sum) <= weight / 2.0
  {
    assert p - p + 0.0 * w == 0.0;
    AbsNegated(gap * sum);
  }

  lemma AbsNegated(x: real)
    ensures Abs(0.0 - x) == Abs(x)
  {
  }

  /** Instalments that pay a loan off: any growth at which they are worth it is near the one they were made for. */
  lemma GrowthIsNear(t: seq<real>, b: seq<real>, w: seq<real>, x: seq<real>, y: seq<real>, z: seq<real>,
                     r: real, q: real)
    requires t != [] && Sums(t, b, w, x, y, z) && NonNegative(b) && b[0] > 0.0 && b[|t|] == 0.0
    requires q >= 1.0 && Factors(w, q) && x[|t|] == b[0]
    requires forall i | 0 <= i < |t| :: PaysFor(t, b, r, i)
    ensures Abs(r - (q - 1.0)) * b[0] <= |t| as real / 2.0
  {
    var n, gap := |t|, r - (q - 1.0);
    InstalmentsAccount(t, b, w, x, y, z, r, q, gap, n);
    NothingLeft(b[0], gap, w[n], y[n], z[n]);
    WeightsAtMost(w, z, q, n);
    PresentAtLeast(b, w, y, q, n);
    Cancel(gap, b[0], y[n], z[n], n, w[1]);
  }

  // ── The factors of a rate ─────────────────────────────────────────────────

  ghost function FactorsOf(q: real, n: nat): (w: seq<real>)
    requires q > 0.0
    ensures |w| == n + 1
  {
    seq(n + 1, i requires 0 <= i <= n => Over(q, i))
  }

  predicate Inverts(w: real, x: real) {
    w > 0.0 && w * x == 1.0
  }

  /** One over q^k. */
  ghost function Over(q: real, k: nat): (w: real)
    requires q > 0.0
    ensures w > 0.0 && Pow(q, k) > 0.0 && w * Pow(q, k) == 1.0
  {
    PowPositive(q, k);
    OverExists(Pow(q, k));
    var w: real :| Inverts(w, Pow(q, k)); w
  }

  lemma OverExists(x: real)
    requires x > 0.0
    ensures exists w: real :: Inverts(w, x)
  {
    DivideThenTimes(1.0, x);
    assert 1.0 / x > 0.0;
    assert Inverts(1.0 / x, x);
  }

  lemma OverNext(q: real, k: nat)
    requires q > 0.0 && k > 0
    ensures Over(q, k - 1) == q * Over(q, k)
  {
    var v, w, x := Over(q, k - 1), Over(q, k), Pow(q, k - 1);
    assert Pow(q, k) == q * x;
    assert (q * w) * x == w * (q * x);
    CancelRight(v, q * w, x);
  }

  lemma FactorsOfAre(q: real, n: nat)
    requires q > 0.0
    ensures Factors(FactorsOf(q, n), q)
  {
    OverOne(q);
    forall i | 0 < i <= n
      ensures FactorsOf(q, n)[i] > 0.0 && FactorsOf(q, n)[i - 1] == q * FactorsOf(q, n)[i]
    {
      OverNext(q, i);
    }
  }

  lemma OverOne(q: real)
    requires q > 0.0
    ensures Over(q, 0) == 1.0
  {
  }

  lemma OverAsFactor(x: real, y: real, w: real)
    requires y > 0.0 && w * y == 1.0
    ensures x / y == x * w
  {
    DivideThenTimes(x, y);
    assert (x * w) * y == x * (w * y) == x;
    CancelRight(x / y, x * w, y);
  }

  lemma {:induction false} DiscountedIsPresent(a: seq<real>, q: real, n: nat, k: nat)
    requires k <= |a| && k <= n && q > 0.0
    ensures Discounted(a, q, k) == Present(a, FactorsOf(q, n), k)
    decreases k
  {
    if k > 0 {
      DiscountedIsPresent(a, q, n, k - 1);
      OverAsFactor(a[k - 1], Pow(q, k), Over(q, k));
    }
  }

  // ── Of a loan ─────────────────────────────────────────────────────────────

  /** The instalments, and the balances before and after them, in cents. */
  function Totals(s: seq<Instalment>): seq<real> {
    seq(|s|, i requires 0 <= i < |s| => s[i].total as real)
  }

  function Balances(loan: Loan): seq<real>
    requires Lends(loan)
  {
    seq(loan.months + 1, i requires 0 <= i <= loan.months => Balance(loan, i) as real)
  }

  lemma RowPaysFor(t: seq<real>, b: seq<real>, r: real, i: nat, total: int, x: int, y: int)
    requires i < |t| < |b| && t[i] == total as real && b[i] == x as real && b[i + 1] == y as real
    requires total == x - y + InterestOn(x, r)
    ensures PaysFor(t, b, r, i)
  {
    RoundError(x as real * r);
  }

  lemma InstalmentPaysFor(loan: Loan, s: seq<Instalment>, i: nat)
    requires IsScheduleOf(loan, s) && loan.interest.ReducingBalance? && i < loan.months
    ensures PaysFor(Totals(s), Balances(loan), MonthlyRate(loan), i)
  {
    ReducingRowAt(loan, s, i);
    RowPaysFor(Totals(s), Balances(loan), MonthlyRate(loan), i, s[i].total, Balance(loan, i), Balance(loan, i + 1));
  }

  lemma BalancesNotNegative(loan: Loan, s: seq<Instalment>)
    requires IsScheduleOf(loan, s) && loan.interest.ReducingBalance? && NothingNegative(s)
    ensures NonNegative(Balances(loan))
  {
    forall i | 0 <= i <= loan.months
      ensures Balance(loan, i) >= 0
    {
      if i > 0 {
        ReducingRowAt(loan, s, i - 1);
      }
    }
  }

  lemma BalancesPayOff(loan: Loan, s: seq<Instalment>)
    requires IsScheduleOf(loan, s) && loan.interest.ReducingBalance? && NothingNegative(s)
    ensures |Totals(s)| == loan.months && |Balances(loan)| == loan.months + 1 && NonNegative(Balances(loan))
    ensures Balances(loan)[0] == loan.principal as real && Balances(loan)[loan.months] == 0.0
    ensures forall i | 0 <= i < loan.months :: PaysFor(Totals(s), Balances(loan), MonthlyRate(loan), i)
  {
    forall i | 0 <= i < loan.months
      ensures PaysFor(Totals(s), Balances(loan), MonthlyRate(loan), i)
    {
      InstalmentPaysFor(loan, s, i);
    }
    BalancesNotNegative(loan, s);
  }

  /** The factors of a rate that makes the instalments worth the loan, and the running sums of them. */
  lemma WorthTheLoan(loan: Loan, s: seq<Instalment>, rate: real) returns (w: seq<real>, x: seq<real>)
    requires Lends(loan) && rate >= 0.0 && Npv(loan.principal as real, Totals(s), rate) == 0.0
    ensures |w| == |s| + 1 && Factors(w, 1.0 + rate) && Adds(x, Totals(s), w) && x[|s|] == loan.principal as real
  {
    w := FactorsOf(1.0 + rate, |s|);
    x := Running(Totals(s), w);
    FactorsOfAre(1.0 + rate, |s|);
    RunningAdds(Totals(s), w);
    DiscountedIsPresent(Totals(s), 1.0 + rate, |s|, |s|);
  }

  lemma RateIsNear(t: seq<real>, b: seq<real>, w: seq<real>, x: seq<real>, r: real, rate: real)
    requires t != [] && |b| == |w| == |t| + 1 && NonNegative(b) && b[0] > 0.0 && b[|t|] == 0.0
    requires rate >= 0.0 && Factors(w, 1.0 + rate) && Adds(x, t, w) && x[|t|] == b[0]
    requires forall i | 0 <= i < |t| :: PaysFor(t, b, r, i)
    ensures Abs(rate - r) * b[0] <= |t| as real / 2.0
  {
    RunningAdds(b, w);
    RunningAdds(Ones(|w|), w);
    GrowthIsNear(t, b, w, x, Running(b, w), Running(Ones(|w|), w), r, 1.0 + rate);
    assert Abs(rate - r) == Abs(r - ((1.0 + rate) - 1.0));
  }

  /**
   * Rounding the lines of a reducing schedule moves its rate by at most n/2 cents over the loan: any
   * rate that makes the instalments worth exactly the loan is that close to the nominal monthly one.
   */
  lemma RoundedRateIsNearNominal(loan: Loan, s: seq<Instalment>, rate: real)
    requires IsScheduleOf(loan, s) && loan.interest.ReducingBalance? && NothingNegative(s)
    requires rate >= 0.0 && Npv(loan.principal as real, Totals(s), rate) == 0.0
    ensures Abs(rate - loan.rate / 1200.0) * loan.principal as real <= loan.months as real / 2.0
  {
    var w, x := WorthTheLoan(loan, s, rate);
    BalancesPayOff(loan, s);
    RateIsNear(Totals(s), Balances(loan), w, x, MonthlyRate(loan), rate);
  }
}
