/** Exact real arithmetic shared by the loan modules: powers, geometric sums and rounding. */
module Reals {

  function Pow(q: real, n: nat): real {
    if n == 0 then 1.0 else q * Pow(q, n - 1)
  }

  /** 1 + q + ... + q^(n-1) */
  function Geo(q: real, n: nat): real {
    if n == 0 then 0.0 else 1.0 + q * Geo(q, n - 1)
  }

  function Abs(x: real): (a: real)
    ensures a >= 0.0 && (a == x || a == -x)
  {
    if x < 0.0 then -x else x
  }

  /** Round half up, as JavaScript's Math.round does. */
  function Round(x: real): int {
    (x + 0.5).Floor
  }

  lemma RoundError(x: real)
    ensures -0.5 < Round(x) as real - x <= 0.5
  {
  }

  /** The rounded value is the only integer in the half-open unit interval around x. */
  lemma RoundUnique(x: real, k: int)
    requires -0.5 < k as real - x <= 0.5
    ensures Round(x) == k
  {
  }

  lemma RoundShift(x: real, k: int)
    ensures Round(x + k as real) == Round(x) + k
  {
    RoundUnique(x + k as real, Round(x) + k);
  }

  lemma RoundInt(k: int)
    ensures Round(k as real) == k
  {
  }

  lemma {:induction false} PowPositive(q: real, n: nat)
    requires q > 0.0
    ensures Pow(q, n) > 0.0
  {
    if n > 0 {
      PowPositive(q, n - 1);
    }
  }

  lemma {:induction false} PowStrictlyMonotone(p: real, q: real, n: nat)
    requires 0.0 < p < q && n > 0
    ensures Pow(p, n) < Pow(q, n)
  {
    PowPositive(p, n - 1);
    if n == 1 {
      assert Pow(p, 0) == 1.0 && Pow(q, 0) == 1.0;
    } else {
      PowStrictlyMonotone(p, q, n - 1);
      MulMonotone(p, q, Pow(p, n - 1), Pow(q, n - 1));
    }
  }

  lemma MulPositive(x: real, y: real)
    ensures x > 0.0 && y > 0.0 ==> x * y > 0.0
    ensures x >= 0.0 && y >= 0.0 ==> x * y >= 0.0
  {
  }

  lemma MulMonotone(a: real, b: real, c: real, d: real)
    requires 0.0 < a < b && 0.0 < c <= d
    ensures a * c < b * d
  {
    MulPositive(b - a, c);
    MulPositive(b, d - c);
    var u, v := b - a, d - c;
    assert b * d == b * (c + v) == b * c + b * v;
    assert b * c == (a + u) * c == a * c + u * c;
  }

  /** The geometric sum in closed form: (q - 1)(1 + q + ... + q^(n-1)) = q^n - 1. */
  lemma {:induction false} GeoClosed(q: real, n: nat)
    ensures (q - 1.0) * Geo(q, n) == Pow(q, n) - 1.0
  {
    if n > 0 {
      GeoClosed(q, n - 1);
      var g, p := Geo(q, n - 1), Pow(q, n - 1);
      calc {
        (q - 1.0) * (1.0 + q * g);
        (q - 1.0) + q * ((q - 1.0) * g);
        (q - 1.0) + q * (p - 1.0);
        q * p - 1.0;
      }
    }
  }

  lemma {:induction false} GeoNonNegative(q: real, n: nat)
    requires q >= 0.0
    ensures Geo(q, n) >= 0.0
    ensures n > 0 ==> Geo(q, n) >= 1.0
  {
    if n > 0 {
      GeoNonNegative(q, n - 1);
      assert q * Geo(q, n - 1) >= 0.0;
    }
  }

  function Iterate<T>(f: T -> T, x: T, k: nat): T {
    if k == 0 then x else f(Iterate(f, x, k - 1))
  }
}
