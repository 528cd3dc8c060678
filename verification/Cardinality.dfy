/** How many numbers a set can hold. */
module Cardinality {

  lemma {:induction false} FitsRange(s: set<nat>, lo: nat, n: nat)
    requires forall x | x in s :: lo <= x < lo + n
    ensures |s| <= n
    decreases n
  {
    if n == 0 {
      assert s == {};
    } else {
      FitsRange(s - {lo + n - 1}, lo, n - 1);
    }
  }

  /** Numbers that lie less than `n` apart, all of them below `hi`. */
  lemma {:induction false} CloseTogether(s: set<nat>, lo: nat, hi: nat, n: nat)
    requires forall x | x in s :: lo <= x < hi
    requires forall x, y | x in s && y in s :: y - x < n
    ensures |s| <= n
    decreases hi - lo
  {
    if hi <= lo {
      assert s == {};
    } else if lo in s {
      FitsRange(s, lo, n);
    } else {
      CloseTogether(s, lo + 1, hi, n);
    }
  }

  lemma Fewer<T>(a: set<T>, b: set<T>)
    requires a <= b
    ensures |a| <= |b|
  {
    assert b == a + (b - a);
  }

  lemma {:induction false} AllBelow(s: set<nat>, n: nat)
    requires forall i: nat :: i in s <==> i < n
    ensures |s| == n
    decreases n
  {
    if n == 0 {
      assert s == {};
    } else {
      AllBelow(s - {n - 1}, n - 1);
    }
  }

  /** Moving numbers by the same amount makes no more of them. */
  lemma {:induction false} Shifted(s: set<nat>, t: set<nat>, offset: nat)
    requires forall i | i in t :: i >= offset && i - offset in s
    ensures |t| <= |s|
    decreases |t|
  {
    if t != {} {
      var x :| x in t;
      Shifted(s - {x - offset}, t - {x}, offset);
    }
  }
}
