/** Calendar dates and whole-month steps, for years from 100 on (JavaScript reads 0-99 as 1900-1999). */
module Calendar {

  /** `clock` is the time of day in milliseconds. Months count from 1. */
  datatype Date = Date(year: int, month: int, day: int, clock: int)

  predicate IsLeap(y: int) {
    y % 4 == 0 && (y % 100 != 0 || y % 400 == 0)
  }

  function DaysInMonth(y: int, m: int): int {
    if m == 2 then (if IsLeap(y) then 29 else 28)
    else if m == 4 || m == 6 || m == 9 || m == 11 then 30
    else 31
  }

  predicate ValidDate(d: Date) {
    100 <= d.year && 1 <= d.month <= 12 && 1 <= d.day <= DaysInMonth(d.year, d.month)
  }

  // ── Months as one running count ───────────────────────────────────────────

  function MonthIndex(d: Date): int {
    12 * d.year + d.month - 1
  }

  function YearOf(t: int): int {
    t / 12
  }

  function MonthOf(t: int): int {
    t % 12 + 1
  }

  function Length(t: int): (n: int)
    ensures 28 <= n <= 31
  {
    DaysInMonth(YearOf(t), MonthOf(t))
  }

  function Min(a: int, b: int): int {
    if a < b then a else b
  }

  function DateAt(t: int, day: int, clock: int): Date {
    Date(YearOf(t), MonthOf(t), day, clock)
  }

  /** The same day `months` later, or the last day of a shorter month; the time of day is kept. */
  function AddMonthsClamped(d: Date, months: int): Date {
    var t := MonthIndex(d) + months;
    DateAt(t, Min(d.day, Length(t)), d.clock)
  }

  // ── Days as one running count ─────────────────────────────────────────────

  function DaysBeforeMonth(y: int, m: int): int {
    var leap := if IsLeap(y) && m > 2 then 1 else 0;
    leap + (
      if m == 1 then 0 else if m == 2 then 31 else if m == 3 then 59 else if m == 4 then 90
      else if m == 5 then 120 else if m == 6 then 151 else if m == 7 then 181 else if m == 8 then 212
      else if m == 9 then 243 else if m == 10 then 273 else if m == 11 then 304 else 334)
  }

  function DaysBeforeYear(y: int): int {
    365 * (y - 1) + (y - 1) / 4 - (y - 1) / 100 + (y - 1) / 400
  }

  /** The number of the day a date falls on: consecutive days have consecutive numbers. */
  function DayNumber(d: Date): int {
    DaysBeforeYear(d.year) + DaysBeforeMonth(d.year, d.month) + d.day
  }

  function MonthStart(t: int): int {
    DaysBeforeYear(YearOf(t)) + DaysBeforeMonth(YearOf(t), MonthOf(t))
  }

  lemma LeapCount(y: int)
    ensures y / 4 - (y - 1) / 4 == if y % 4 == 0 then 1 else 0
    ensures y / 100 - (y - 1) / 100 == if y % 100 == 0 then 1 else 0
    ensures y / 400 - (y - 1) / 400 == if y % 400 == 0 then 1 else 0
  {
  }

  lemma YearLength(y: int)
    ensures DaysBeforeYear(y + 1) - DaysBeforeYear(y) == if IsLeap(y) then 366 else 365
  {
    LeapCount(y);
  }

  /** The next month starts as many days later as this one is long. */
  lemma MonthLength(t: int)
    ensures MonthStart(t + 1) - MonthStart(t) == Length(t)
  {
    YearLength(YearOf(t));
    if t % 12 == 11 {
      assert YearOf(t + 1) == YearOf(t) + 1 && MonthOf(t + 1) == 1;
    } else {
      assert YearOf(t + 1) == YearOf(t) && MonthOf(t + 1) == MonthOf(t) + 1;
    }
  }

  lemma DateAtMonth(t: int, day: int, clock: int)
    ensures MonthIndex(DateAt(t, day, clock)) == t
    ensures DayNumber(DateAt(t, day, clock)) == MonthStart(t) + day
  {
  }

  /** Consecutive monthly dates lie 28 to 31 days apart. */
  lemma MonthlyGap(d: Date, k: int)
    requires ValidDate(d)
    ensures 28 <= DayNumber(AddMonthsClamped(d, k + 1)) - DayNumber(AddMonthsClamped(d, k)) <= 31
  {
    var t := MonthIndex(d) + k;
    DateAtMonth(t, Min(d.day, Length(t)), d.clock);
    DateAtMonth(t + 1, Min(d.day, Length(t + 1)), d.clock);
    MonthLength(t);
  }

  lemma {:induction false} GapsAddUp(day: int -> int, j: int, k: int)
    requires j < k && forall i :: 28 <= day(i + 1) - day(i) <= 31
    ensures 28 * (k - j) <= day(k) - day(j) <= 31 * (k - j)
    decreases k - j
  {
    assert 28 <= day(k - 1 + 1) - day(k - 1) <= 31;
    if j < k - 1 {
      GapsAddUp(day, j, k - 1);
    }
  }

  /** So dates counted from one start keep their order, at any distance. */
  lemma MonthlyDatesIncrease(d: Date, j: int, k: int)
    requires ValidDate(d) && j < k
    ensures 28 * (k - j) <= DayNumber(AddMonthsClamped(d, k)) - DayNumber(AddMonthsClamped(d, j)) <= 31 * (k - j)
  {
    var day := i => DayNumber(AddMonthsClamped(d, i));
    forall i
      ensures 28 <= day(i + 1) - day(i) <= 31
    {
      MonthlyGap(d, i);
    }
    GapsAddUp(day, j, k);
  }

  /** No months: the same date. */
  lemma AddNoMonths(d: Date)
    requires ValidDate(d)
    ensures AddMonthsClamped(d, 0) == d
  {
  }

  lemma SameMonth(t: int, day: int, other: int, clock: int)
    ensures DayNumber(DateAt(t, day, clock)) <= DayNumber(DateAt(t, other, clock)) <==> day <= other
    ensures DateAt(t, day, clock) == DateAt(t, other, clock) <==> day == other
  {
  }

  lemma TwoSteps(d: Date, a: int, b: int)
    ensures var t := MonthIndex(d);
            AddMonthsClamped(AddMonthsClamped(d, a), b)
            == DateAt(t + a + b, Min(Min(d.day, Length(t + a)), Length(t + a + b)), d.clock)
  {
    var t := MonthIndex(d);
    DateAtMonth(t + a, Min(d.day, Length(t + a)), d.clock);
  }

  /**
   * Adding a then b months lands in the same month as adding a + b at once and never later in it;
   * on the same day exactly when the month passed through did not cut the day shorter than the
   * month arrived at would have, so always for a start day up to 28.
   */
  lemma AddMonthsInTwoSteps(d: Date, a: int, b: int)
    requires ValidDate(d)
    ensures var once, twice := AddMonthsClamped(d, a + b), AddMonthsClamped(AddMonthsClamped(d, a), b);
            && DayNumber(twice) <= DayNumber(once) && twice.clock == once.clock
            && (twice == once <==> Min(d.day, Length(MonthIndex(d) + a + b)) <= Length(MonthIndex(d) + a))
            && (d.day <= 28 ==> twice == once)
  {
    var t := MonthIndex(d);
    var through, arrived := Length(t + a), Length(t + a + b);
    assert AddMonthsClamped(AddMonthsClamped(d, a), b) == DateAt(t + a + b, Min(Min(d.day, through), arrived), d.clock) by {
      TwoSteps(d, a, b);
    }
    assert AddMonthsClamped(d, a + b) == DateAt(t + a + b, Min(d.day, arrived), d.clock) by {
      assert t + (a + b) == t + a + b;
    }
    SameMonth(t + a + b, Min(Min(d.day, through), arrived), Min(d.day, arrived), d.clock);
  }
}
