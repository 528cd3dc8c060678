/** The effective interest rate of a loan: the internal rate of return, found by bisection. */
module EffectiveRate {
  import opened Reals

  // ── Net present value ─────────────────────────────────────────────────────

  /** The first `k` instalments, each discounted at `q` = 1 + rate per month. */
  function Discounted(s: seq<real>, q: real, k: nat): real
    requires k <= |s| && q > 0.0
  {
    if k == 0 then 0.0
    else
      PowPositive(q, k);
      Discounted(s, q, k - 1) + s[k - 1] / Pow(q, k)
  }

  function Total(s: seq<real>, k: nat): real
    requires k <= |s|
  {
    if k == 0 then 0.0 else Total(s, k - 1) + s[k - 1]
  }

  function Npv(net: real, s: seq<real>, r: real): real
    requires r > -1.0
  {
    Discounted(s, 1.0 + r, |s|) - net
  }

  /** No positive cost of credit to find a rate for. */
  predicate Degenerate(net: real, s: seq<real>) {
    net <= 0.0 || s == [] || Total(s, |s|) <= net
  }

  ghost predicate NonNegative(s: seq<real>) {
    forall i | 0 <= i < |s| :: s[i] >= 0.0
  }

  lemma {:induction false} UndiscountedIsTotal(s: seq<real>, k: nat)
    requires k <= |s|
    ensures Discounted(s, 1.0, k) == Total(s, k)
  {
    if k > 0 {
      UndiscountedIsTotal(s, k - 1);
      OnePow(k);
    }
  }

  lemma {:induction false} OnePow(k: nat)
    ensures Pow(1.0, k) == 1.0
  {
    if k > 0 {
      OnePow(k - 1);
    }
  }

  lemma QuotientDecreases(a: real, x: real, y: real)
    requires a >= 0.0 && 0.0 < x < y
    ensures a / y <= a / x
    ensures a > 0.0 ==> a / y < a / x
  {
    var u, v := a / x, a / y;
    assert u * x == a && v * y == a;
    SmallerFactor(u, v, x, y);
  }

  /** Of two factorings of one product, the one with the larger right factor has the smaller left one. */
  lemma SmallerFactor(u: real, v: real, x: real, y: real)
    requires 0.0 < x < y && u * x == v * y && u * x >= 0.0
    ensures v <= u && (u * x > 0.0 ==> v < u)
  {
    if v < 0.0 {
      MulPositive(-v, y);
    } else if v > 0.0 {
      MulPositive(v, y - x);
      assert (u - v) * x == u * x - v * x && v * (y - x) == v * y - v * x;
      DividesSign(u - v, x);
    } else {
      DividesSign(u, x);
    }
  }

  lemma DividesSign(d: real, x: real)
    requires x > 0.0
    ensures d * x >= 0.0 ==> d >= 0.0
    ensures d * x > 0.0 ==> d > 0.0
  {
    if d < 0.0 {
      MulPositive(-d, x);
    }
  }

  /** Discounting harder never raises the value, and lowers it if anything at all is paid. */
  lemma {:induction false} DiscountingHarder(s: seq<real>, p: real, q: real, k: nat)
    requires NonNegative(s) && 0.0 < p < q && k <= |s|
    ensures Discounted(s, q, k) <= Discounted(s, p, k)
    ensures Total(s, k) > 0.0 ==> Discounted(s, q, k) < Discounted(s, p, k)
  {
    if k > 0 {
      DiscountingHarder(s, p, q, k - 1);
      PowStrictlyMonotone(p, q, k);
      PowPositive(p, k);
      QuotientDecreases(s[k - 1], Pow(p, k), Pow(q, k));
    }
  }

  lemma NpvStrictlyDecreasing(net: real, s: seq<real>, low: real, high: real)
    requires NonNegative(s) && !Degenerate(net, s) && -1.0 < low < high
    ensures Npv(net, s, high) < Npv(net, s, low)
  {
    DiscountingHarder(s, 1.0 + low, 1.0 + high, |s|);
  }

  lemma NpvAtZero(net: real, s: seq<real>)
    requires !Degenerate(net, s)
    ensures Npv(net, s, 0.0) > 0.0
  {
    UndiscountedIsTotal(s, |s|);
  }

  // ── Bisection ─────────────────────────────────────────────────────────────

  const TOLERANCE: real := 0.0000001
  const ROUNDS: nat := 200

  /** Where the doubling of the upper end stops. */
  function UpperEnd(net: real, s: seq<real>, hi: real): real
    requires hi >= 1.0
    decreases 128.0 - hi
  {
    if Npv(net, s, hi) > 0.0 && hi < 100.0 then UpperEnd(net, s, hi * 2.0) else hi
  }

  /** A bracket of the root: the value is positive at `lo`, and not at `hi` unless `hi` never moved. */
  predicate Bracket(net: real, s: seq<real>, lo: real, hi: real, top: real) {
    && 0.0 <= lo <= hi <= top
    && Npv(net, s, lo) > 0.0
    && (Npv(net, s, hi) <= 0.0 || hi == top)
    && (Npv(net, s, top) <= 0.0 ==> Npv(net, s, hi) <= 0.0)
  }

  /** `r` is the middle of a bracket halved `ROUNDS` times. */
  ghost predicate MiddleOfBracket(net: real, s: seq<real>, r: real, top: real) {
    exists lo, hi :: Bracket(net, s, lo, hi, top) && Halved(lo, hi, top, ROUNDS) && r == (lo + hi) / 2.0
  }

  predicate Halved(lo: real, hi: real, top: real, times: nat) {
    (hi - lo) * Pow(2.0, times) == top
  }

  method MonthlyIrr(net: real, installments: seq<real>) returns (r: real)
    ensures Degenerate(net, installments) ==> r == 0.0
    ensures !Degenerate(net, installments) ==>
              var top := UpperEnd(net, installments, 1.0);
              && top <= 128.0 && (Npv(net, installments, 128.0) <= 0.0 ==> Npv(net, installments, top) <= 0.0)
              && 0.0 <= r <= top
              && (Abs(Npv(net, installments, r)) < 0.0000001 || MiddleOfBracket(net, installments, r, top))
  {
    if net <= 0.0 || |installments| == 0 || Total(installments, |installments|) <= net {
      return 0.0;
    }
    var lo, hi := 0.0, 1.0;
    while Npv(net, installments, hi) > 0.0 && hi < 100.0
      invariant hi in {1.0, 2.0, 4.0, 8.0, 16.0, 32.0, 64.0, 128.0}
      invariant UpperEnd(net, installments, hi) == UpperEnd(net, installments, 1.0)
      decreases 128.0 - hi
    {
      hi := hi * 2.0;
    }
    ghost var top := hi;
    NpvAtZero(net, installments);
    assert Pow(2.0, 0) == 1.0;
    for i := 0 to ROUNDS
      invariant Bracket(net, installments, lo, hi, top)
      invariant Halved(lo, hi, top, i)
    {
      var mid := (lo + hi) / 2.0;
      var v := Npv(net, installments, mid);
      if Abs(v) < TOLERANCE {
        return mid;
      }
      HalvedOnce(lo, hi, top, i);
      if v > 0.0 {
        lo := mid;
      } else {
        hi := mid;
      }
    }
    r := (lo + hi) / 2.0;
  }

  lemma HalvedOnce(lo: real, hi: real, top: real, i: nat)
    requires Halved(lo, hi, top, i)
    ensures Halved((lo + hi) / 2.0, hi, top, i + 1) && Halved(lo, (lo + hi) / 2.0, top, i + 1)
  {
    var w := Pow(2.0, i);
    assert Pow(2.0, i + 1) == 2.0 * w;
    assert (hi - lo) / 2.0 * (2.0 * w) == (hi - lo) * w;
  }

  /** The answer `MonthlyIrr` promises for cash flows with a positive cost. */
  ghost predicate Located(net: real, s: seq<real>, r: real)
    requires r > -1.0
  {
    Abs(Npv(net, s, r)) < TOLERANCE || MiddleOfBracket(net, s, r, UpperEnd(net, s, 1.0))
  }

  ghost predicate Root(net: real, s: seq<real>, rate: real) {
    rate > -1.0 && Npv(net, s, rate) == 0.0
  }

  lemma TopFacts(net: real, s: seq<real>, hi: real)
    requires hi in {1.0, 2.0, 4.0, 8.0, 16.0, 32.0, 64.0, 128.0}
    ensures UpperEnd(net, s, hi) <= 128.0
    ensures Npv(net, s, UpperEnd(net, s, hi)) <= 0.0 || UpperEnd(net, s, hi) == 128.0
    decreases 128.0 - hi
  {
    if Npv(net, s, hi) > 0.0 && hi < 100.0 {
      TopFacts(net, s, hi * 2.0);
    }
  }

  /** How far the middle of the last bracket can be from a root inside it. */
  predicate WithinHalf(r: real, rate: real, top: real, times: nat) {
    Abs(r - rate) * (2.0 * Pow(2.0, times)) <= top
  }

  lemma MiddleIsClose(lo: real, hi: real, top: real, rate: real, times: nat)
    requires Halved(lo, hi, top, times) && lo <= hi
    ensures lo <= rate <= hi ==> WithinHalf((lo + hi) / 2.0, rate, top, times)
    ensures rate > hi ==> !WithinHalf((lo + hi) / 2.0, rate, top, times)
  {
    var w, half, e := Pow(2.0, times), (hi - lo) / 2.0, Abs((lo + hi) / 2.0 - rate);
    PowPositive(2.0, times);
    assert half * (2.0 * w) == (hi - lo) * w == top;
    Scale(e, half, 2.0 * w);
  }

  lemma Scale(x: real, y: real, w: real)
    requires w > 0.0
    ensures x <= y <==> x * w <= y * w
  {
    MulPositive(y - x, w);
    MulPositive(x - y, w);
    assert (y - x) * w == y * w - x * w;
  }

  /**
   * Bisection: unless it stopped early on a value below the tolerance, the answer is within
   * top / 2^201 of a root exactly when the value is not positive at 128 (12,800% a month), the
   * last upper end the doubling tries.
   */
  lemma BisectionFindsRoot(net: real, s: seq<real>, r: real, rate: real)
    requires NonNegative(s) && !Degenerate(net, s)
    requires 0.0 <= r && Located(net, s, r) && Abs(Npv(net, s, r)) >= 0.0000001
    requires Root(net, s, rate)
    ensures WithinHalf(r, rate, UpperEnd(net, s, 1.0), 200) <==> Npv(net, s, 128.0) <= 0.0
  {
    var top := UpperEnd(net, s, 1.0);
    TopFacts(net, s, 1.0);
    var lo, hi :| Bracket(net, s, lo, hi, top) && Halved(lo, hi, top, ROUNDS) && r == (lo + hi) / 2.0;
    MiddleIsClose(lo, hi, top, rate, ROUNDS);
    if rate < lo {
      NpvStrictlyDecreasing(net, s, rate, lo);
    }
    if Npv(net, s, 128.0) <= 0.0 {
      assert Npv(net, s, top) <= 0.0;
      if hi < rate {
        NpvStrictlyDecreasing(net, s, hi, rate);
      }
      assert lo <= rate <= hi;
    } else {
      PositiveBelow(net, s, top, 128.0);
      assert top == 128.0;
      PositiveBelow(net, s, hi, 128.0);
      assert hi == top;
      PositiveBelow(net, s, rate, 128.0);
      assert rate > hi;
    }
  }

  lemma PositiveBelow(net: real, s: seq<real>, low: real, high: real)
    requires NonNegative(s) && !Degenerate(net, s) && low > -1.0
    requires high > -1.0 && Npv(net, s, high) > 0.0
    ensures low <= high ==> Npv(net, s, low) > 0.0
  {
    if low < high {
      NpvStrictlyDecreasing(net, s, low, high);
    }
  }

  // ── The annual rate and the loan schedule ─────────────────────────────────

  /** Two decimals, rounding half up. */
  function RoundTo2(x: real): real {
    Round(x * 100.0) as real / 100.0
  }

  function Annual(r: real): real {
    Pow(1.0 + r, 12) - 1.0
  }

  function Eir(r: real): real {
    RoundTo2(Annual(r) * 100.0)
  }

  lemma NoCostNoRate()
    ensures Eir(0.0) == 0.0
  {
    OnePow(12);
    RoundInt(0);
  }

  /** `percent` is what twelve months' growth at `r` comes to, to the nearest hundredth. */
  predicate Yearly(r: real, percent: real) {
    && -0.005 < percent - (Pow(1.0 + r, 12) - 1.0) * 100.0 <= 0.005
    && percent * 100.0 == (percent * 100.0).Floor as real
  }

  lemma EirIsYearly(r: real)
    ensures Yearly(r, Eir(r))
  {
    RoundError(Annual(r) * 100.0 * 100.0);
  }

  method ComputeEir(net: real, installments: seq<real>) returns (percent: real)
    ensures Degenerate(net, installments) ==> percent == 0.0
    ensures !Degenerate(net, installments) ==>
              exists r :: r >= 0.0 && Located(net, installments, r) && Yearly(r, percent)
  {
    var r := MonthlyIrr(net, installments);
    NoCostNoRate();
    EirIsYearly(r);
    percent := Eir(r);
  }

  function Level(emi: real, n: nat): seq<real> {
    seq(n, i => emi)
  }

  /** Equal instalments, brought forward to the end of month k. */
  lemma {:induction false} LevelDiscounted(emi: real, n: nat, q: real, k: nat)
    requires k <= n && q > 0.0
    ensures Discounted(Level(emi, n), q, k) * Pow(q, k) == emi * Geo(q, k)
  {
    if k > 0 {
      LevelDiscounted(emi, n, q, k - 1);
      PowPositive(q, k);
      var d, w, g := Discounted(Level(emi, n), q, k - 1), Pow(q, k - 1), Geo(q, k - 1);
      var u := q * w;
      assert Pow(q, k) == u && Geo(q, k) == 1.0 + q * g;
      assert Discounted(Level(emi, n), q, k) == d + emi / u;
      OneMoreDiscounted(d, w, q, emi, g);
    }
  }

  lemma {:induction false} LevelTotal(emi: real, n: nat, k: nat)
    requires k <= n && emi > 0.0
    ensures Total(Level(emi, n), k) >= 0.0 && (k > 0 ==> Total(Level(emi, n), k) > 0.0)
  {
    if k > 0 {
      LevelTotal(emi, n, k - 1);
    }
  }

  lemma OneMoreDiscounted(d: real, w: real, q: real, emi: real, g: real)
    requires q * w > 0.0 && d * w == emi * g
    ensures (d + emi / (q * w)) * (q * w) == emi * (1.0 + q * g)
  {
    var u := q * w;
    assert emi / u * u == emi;
    assert (d + emi / u) * u == d * u + emi / u * u;
    assert d * u == q * (d * w) == q * (emi * g);
    assert emi * (1.0 + q * g) == emi + q * (emi * g);
  }

  lemma SameMultiple(x: real, y: real, w: real)
    requires w > 0.0 && x * w == y * w
    ensures x == y
  {
    assert x * w / w == x && y * w / w == y;
  }

  /**
   * The effective rate agrees with the schedule: if `emi` is the exact annuity that pays `p` off
   * in `n` months at `r`, then with no fee the value is zero at `r` and at no other rate.
   */
  lemma AnnuityRateIsTheRoot(p: real, emi: real, r: real, n: nat, rate: real)
    requires p > 0.0 && emi > 0.0 && r > 0.0 && n > 0
    requires p * Pow(1.0 + r, n) == emi * Geo(1.0 + r, n)
    requires rate > -1.0
    ensures Npv(p, Level(emi, n), rate) == 0.0 <==> rate == r
  {
    AnnuityValue(p, emi, r, n);
    LevelCosts(p, emi, r, n);
    if rate < r {
      NpvStrictlyDecreasing(p, Level(emi, n), rate, r);
    } else if rate > r {
      NpvStrictlyDecreasing(p, Level(emi, n), r, rate);
    }
  }

  lemma AnnuityValue(p: real, emi: real, r: real, n: nat)
    requires r > -1.0 && p * Pow(1.0 + r, n) == emi * Geo(1.0 + r, n)
    ensures Discounted(Level(emi, n), 1.0 + r, n) == p
  {
    LevelDiscounted(emi, n, 1.0 + r, n);
    PowPositive(1.0 + r, n);
    SameMultiple(Discounted(Level(emi, n), 1.0 + r, n), p, Pow(1.0 + r, n));
  }

  /** At a positive rate an annuity repays more than it lends. */
  lemma LevelCosts(p: real, emi: real, r: real, n: nat)
    requires p > 0.0 && emi > 0.0 && r > 0.0 && n > 0
    requires p * Pow(1.0 + r, n) == emi * Geo(1.0 + r, n)
    ensures NonNegative(Level(emi, n)) && !Degenerate(p, Level(emi, n))
  {
    AnnuityValue(p, emi, r, n);
    LevelTotal(emi, n, n);
    UndiscountedIsTotal(Level(emi, n), n);
    DiscountingHarder(Level(emi, n), 1.0, 1.0 + r, n);
  }

  /**
   * Withholding a fee moves every root strictly up, so the effective annual rate is above the
   * nominal one.
   */
  lemma FeeRaisesTheRate(p: real, emi: real, r: real, n: nat, fee: real, rate: real)
    requires p > 0.0 && emi > 0.0 && r > 0.0 && n > 0
    requires p * Pow(1.0 + r, n) == emi * Geo(1.0 + r, n)
    requires 0.0 < fee < p && Root(p - fee, Level(emi, n), rate)
    ensures rate > r && Annual(rate) > Annual(r)
  {
    AnnuityValue(p, emi, r, n);
    LevelCosts(p, emi, r, n);
    if rate < r {
      NpvStrictlyDecreasing(p, Level(emi, n), rate, r);
    }
    PowStrictlyMonotone(1.0 + r, 1.0 + rate, 12);
  }

  /**
   * And so does the computed rate: with a fee of at least the tolerance, what `MonthlyIrr` answers
   * is above the nominal rate, or within half of the last bracket of it.
   */
  lemma FeeRaisesTheComputedRate(p: real, emi: real, r: real, n: nat, fee: real, computed: real)
    requires p > 0.0 && emi > 0.0 && 0.0 < r <= 128.0 && n > 0
    requires p * Pow(1.0 + r, n) == emi * Geo(1.0 + r, n)
    requires TOLERANCE <= fee < p
    requires computed >= 0.0 && Located(p - fee, Level(emi, n), computed)
    ensures computed > r || WithinHalf(computed, r, UpperEnd(p - fee, Level(emi, n), 1.0), ROUNDS)
  {
    var s, net := Level(emi, n), p - fee;
    AnnuityValue(p, emi, r, n);
    LevelCosts(p, emi, r, n);
    if computed <= r {
      PositiveAtOrBelow(p, s, computed, r);
      var top := UpperEnd(net, s, 1.0);
      TopFacts(net, s, 1.0);
      var lo, hi :| Bracket(net, s, lo, hi, top) && Halved(lo, hi, top, ROUNDS) && computed == (lo + hi) / 2.0;
      LendingLess(p, fee, s, hi);
      if hi < r {
        PositiveAtOrBelow(p, s, hi, r);
      }
      MiddleIsClose(lo, hi, top, r, ROUNDS);
    }
  }

  lemma LendingLess(p: real, fee: real, s: seq<real>, x: real)
    requires x > -1.0
    ensures Npv(p - fee, s, x) == Npv(p, s, x) + fee
  {
  }

  lemma PositiveAtOrBelow(p: real, s: seq<real>, low: real, r: real)
    requires NonNegative(s) && !Degenerate(p, s) && low > -1.0 && low <= r && Npv(p, s, r) == 0.0
    ensures Npv(p, s, low) >= 0.0
  {
    if low < r {
      NpvStrictlyDecreasing(p, s, low, r);
    }
  }
}
