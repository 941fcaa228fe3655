/** Calendars as increasing sequences of month boundaries, and the Gregorian one. Day 1 is Monday, 1 January of year 1. */
module Calendar {
  ghost predicate Grows(begin: nat -> nat, k: nat) {
    begin(k) < begin(k + 1)
  }

  /** Month k holds the days after begin(k) up to begin(k + 1). */
  ghost predicate Increasing(begin: nat -> nat) {
    begin(0) == 0 && forall k: nat :: Grows(begin, k)
  }

  type Months = begin: nat -> nat | Increasing(begin) witness (k: nat) => k

  lemma {:induction false} BeginMonotone(begin: Months, a: nat, b: nat)
    requires a <= b
    ensures begin(a) <= begin(b)
    ensures a < b ==> begin(a) < begin(b)
    decreases b
  {
    if a < b {
      BeginMonotone(begin, a, b - 1);
      assert Grows(begin, b - 1);
    }
  }

  function MonthFrom(begin: Months, day: nat, k: nat): (r: nat)
    requires begin(k) < day
    ensures begin(r) < day <= begin(r + 1)
    decreases day - begin(k)
  {
    assert Grows(begin, k);
    if day <= begin(k + 1) then k else MonthFrom(begin, day, k + 1)
  }

  /** The month a day falls in, counted from January of year 1. */
  function MonthOf(begin: Months, day: nat): (r: nat)
    requires day >= 1
    ensures begin(r) < day <= begin(r + 1)
  {
    MonthFrom(begin, day, 0)
  }

  function MonthStart(begin: Months, day: nat): nat
    requires day >= 1
  {
    begin(MonthOf(begin, day)) + 1
  }

  function YearStart(begin: Months, day: nat): nat
    requires day >= 1
  {
    begin(12 * (MonthOf(begin, day) / 12)) + 1
  }

  /** Monday of the day's week. */
  function WeekStart(day: nat): (r: nat)
    requires day >= 1
    ensures r >= 1
  {
    day - (day + 6) % 7
  }

  lemma MonthUnique(begin: Months, day: nat, m: nat)
    requires begin(m) < day <= begin(m + 1)
    ensures MonthOf(begin, day) == m
  {
    var r := MonthOf(begin, day);
    if r < m {
      BeginMonotone(begin, r + 1, m);
      assert false;
    } else if m < r {
      BeginMonotone(begin, m + 1, r);
      assert false;
    }
  }

  /** The first day after m months belongs to month m. */
  lemma MonthOfBegin(begin: Months, m: nat)
    ensures MonthOf(begin, begin(m) + 1) == m
  {
    assert Grows(begin, m);
    MonthUnique(begin, begin(m) + 1, m);
  }

  lemma MonthStartBounds(begin: Months, day: nat)
    requires day >= 1
    ensures 1 <= YearStart(begin, day) <= MonthStart(begin, day) <= day
  {
    BeginMonotone(begin, 12 * (MonthOf(begin, day) / 12), MonthOf(begin, day));
  }

  lemma MonthStartMonotone(begin: Months, a: nat, b: nat)
    requires 1 <= a <= b
    ensures MonthStart(begin, a) <= MonthStart(begin, b)
    ensures YearStart(begin, a) <= YearStart(begin, b)
  {
    var m, n := MonthOf(begin, a), MonthOf(begin, b);
    if n < m {
      BeginMonotone(begin, n + 1, m);
      assert false;
    }
    BeginMonotone(begin, m, n);
    BeginMonotone(begin, 12 * (m / 12), 12 * (n / 12));
  }

  lemma MonthStartFactors(begin: Months, day: nat)
    requires day >= 1
    ensures MonthStart(begin, MonthStart(begin, day)) == MonthStart(begin, day)
    ensures YearStart(begin, MonthStart(begin, day)) == YearStart(begin, day)
    ensures YearStart(begin, YearStart(begin, day)) == YearStart(begin, day)
  {
    MonthOfBegin(begin, MonthOf(begin, day));
    MonthOfBegin(begin, 12 * (MonthOf(begin, day) / 12));
  }

  // ---- The Gregorian calendar ----

  predicate IsLeap(year: int) {
    year % 4 == 0 && (year % 100 != 0 || year % 400 == 0)
  }

  function DaysBeforeYear(year: int): int {
    var y := year - 1;
    y * 365 + y / 4 - y / 100 + y / 400
  }

  /** Days of a year before its month number k + 1. */
  function DaysBeforeMonth(leap: bool, k: nat): (d: nat)
    requires k < 12
  {
    [0, 31, 59, 90, 120, 151, 181, 212, 243, 273, 304, 334][k] + if leap && k >= 2 then 1 else 0
  }

  function GregorianBegin(m: nat): nat {
    YearNonNegative(m / 12);
    DaysBeforeYear(m / 12 + 1) + DaysBeforeMonth(IsLeap(m / 12 + 1), m % 12)
  }

  lemma YearNonNegative(y: nat)
    ensures DaysBeforeYear(y + 1) >= 0
  {
  }

  lemma YearStep(year: int)
    ensures DaysBeforeYear(year + 1) - DaysBeforeYear(year) == if IsLeap(year) then 366 else 365
  {
    StepDiv(year, 4);
    StepDiv(year, 100);
    StepDiv(year, 400);
    Multiples(year);
  }

  lemma StepDiv(y: int, d: int)
    requires d == 4 || d == 100 || d == 400
    ensures (y - 1) / d == if y % d == 0 then y / d - 1 else y / d
  {
    if d == 4 {
      assert (y - 1) / 4 == if y % 4 == 0 then y / 4 - 1 else y / 4;
    } else if d == 100 {
      assert (y - 1) / 100 == if y % 100 == 0 then y / 100 - 1 else y / 100;
    } else {
      assert (y - 1) / 400 == if y % 400 == 0 then y / 400 - 1 else y / 400;
    }
  }

  lemma Multiples(y: int)
    ensures y % 400 == 0 ==> y % 100 == 0
    ensures y % 100 == 0 ==> y % 4 == 0
  {
    MultipleOf(y / 400);
    MultipleOf(y / 100);
  }

  lemma MultipleOf(q: int)
    ensures (400 * q) % 100 == 0
    ensures (100 * q) % 4 == 0
  {
    assert (400 * q) / 100 == 4 * q;
    assert (100 * q) / 4 == 25 * q;
  }

  /** The Gregorian month boundaries increase: every month of every year has at least a day. */
  lemma GregorianIncreases()
    ensures Increasing(GregorianBegin)
  {
    assert GregorianBegin(0) == 0;
    var begin: nat -> nat := GregorianBegin;
    forall m: nat ensures Grows(begin, m) {
      MonthStep(m);
    }
  }

  lemma MonthStep(m: nat)
    ensures GregorianBegin(m) < GregorianBegin(m + 1)
  {
    var y, k := m / 12, m % 12;
    if k < 11 {
      assert (m + 1) / 12 == y && (m + 1) % 12 == k + 1;
      MonthTable(IsLeap(y + 1), k);
    } else {
      assert (m + 1) / 12 == y + 1 && (m + 1) % 12 == 0;
      YearStep(y + 1);
    }
  }

  lemma MonthTable(leap: bool, k: nat)
    requires k < 11
    ensures DaysBeforeMonth(leap, k) < DaysBeforeMonth(leap, k + 1)
  {
  }

  // ---- What the boundaries are ----

  /** The first day of a week is a Monday, at most six days back. */
  lemma WeekStartIsMonday(day: nat)
    requires day >= 1
    ensures WeekStart(day) % 7 == 1 && WeekStart(day) <= day < WeekStart(day) + 7
  {
  }

  /** The first day of a year is the first of the first of its twelve months. */
  lemma YearStartIsJanuary(begin: Months, day: nat) returns (y: nat)
    requires day >= 1
    ensures YearStart(begin, day) == begin(12 * y) + 1 && begin(12 * y) < day <= begin(12 * y + 12)
  {
    var m := MonthOf(begin, day);
    y := m / 12;
    BeginMonotone(begin, 12 * y, m);
    BeginMonotone(begin, m + 1, 12 * y + 12);
  }

  /** The days of a month, January first. */
  function MonthDays(k: nat, leap: bool): nat
    requires k < 12
  {
    if k == 1 then (if leap then 29 else 28) else if k in {3, 5, 8, 10} then 30 else 31
  }

  /** Every month of the Gregorian calendar has its length, February a day more in leap years. */
  lemma MonthLengths(m: nat)
    ensures
      var year := m / 12 + 1;
      GregorianBegin(m + 1) ==
      GregorianBegin(m) + MonthDays(m % 12, year % 4 == 0 && (year % 100 != 0 || year % 400 == 0))
  {
    var y, k := m / 12, m % 12;
    if k < 11 {
      assert (m + 1) / 12 == y && (m + 1) % 12 == k + 1;
      TableLengths(IsLeap(y + 1), k);
    } else {
      assert (m + 1) / 12 == y + 1 && (m + 1) % 12 == 0;
      YearStep(y + 1);
    }
  }

  lemma TableLengths(leap: bool, k: nat)
    requires k < 11
    ensures DaysBeforeMonth(leap, k + 1) == DaysBeforeMonth(leap, k) + MonthDays(k, leap)
  {
  }
}
