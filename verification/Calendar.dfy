/** UTC time as whole numbers: seconds and days counted from the first of
    January of year 1, in the proleptic Gregorian calendar. */
module Calendar {

  /** A time.Time: the zero time, or nanoseconds since the start of year 1. */
  datatype Time = Zero | At(ns: int)

  predicate IsLeap(y: int) { y % 4 == 0 && (y % 100 != 0 || y % 400 == 0) }

  /** The number of the first day of year y. */
  function YearStart(y: int): int {
    365 * (y - 1) + (y - 1) / 4 - (y - 1) / 100 + (y - 1) / 400
  }

  lemma YearLength(y: int)
    ensures YearStart(y + 1) - YearStart(y) == if IsLeap(y) then 366 else 365
  {
    Quotients4(y);
    Quotients100(y);
    Quotients400(y);
    LeapNesting(y);
  }

  lemma Quotients4(y: int)
    ensures y / 4 - (y - 1) / 4 == if y % 4 == 0 then 1 else 0
  {}

  lemma Quotients100(y: int)
    ensures y / 100 - (y - 1) / 100 == if y % 100 == 0 then 1 else 0
  {}

  lemma Quotients400(y: int)
    ensures y / 400 - (y - 1) / 400 == if y % 400 == 0 then 1 else 0
  {}

  lemma LeapNesting(y: int)
    ensures y % 100 == 0 ==> y % 4 == 0
    ensures y % 400 == 0 ==> y % 100 == 0
  {
    if y % 100 == 0 {
      assert y == 4 * (25 * (y / 100));
    }
    if y % 400 == 0 {
      assert y == 100 * (4 * (y / 400));
    }
  }

  lemma YearStartMonotone(y: int, z: int)
    requires y <= z
    ensures YearStart(y) <= YearStart(z)
    decreases z - y
  {
    if y < z {
      YearStartMonotone(y, z - 1);
      YearLength(z - 1);
    }
  }

  function YearFrom(d: int, y: int): (z: int)
    requires YearStart(y) <= d
    ensures YearStart(z) <= d < YearStart(z + 1)
    decreases d - YearStart(y)
  {
    YearLength(y);
    if d < YearStart(y + 1) then y else YearFrom(d, y + 1)
  }

  /** The year of day d: a 400-year cycle has 146097 days. */
  function YearOf(d: int): int {
    YearFrom(d, 400 * (d / 146097) + 1)
  }

  lemma YearBounds(d: int)
    ensures YearStart(YearOf(d)) <= d < YearStart(YearOf(d) + 1)
  {}

  lemma YearUnique(d: int, y: int)
    requires YearStart(y) <= d < YearStart(y + 1)
    ensures YearOf(d) == y
  {
    YearBounds(d);
    var z := YearOf(d);
    if z < y {
      YearStartMonotone(z + 1, y);
    } else if y < z {
      YearStartMonotone(y + 1, z);
    }
  }

  lemma YearOfMonotone(d: int, e: int)
    requires d <= e
    ensures YearOf(d) <= YearOf(e)
  {
    YearBounds(d);
    YearBounds(e);
    if YearOf(e) < YearOf(d) {
      YearStartMonotone(YearOf(e) + 1, YearOf(d));
    }
  }

  /** Days before month m of year y; month 13 is the following January. */
  function MonthOffset(y: int, m: nat): (n: nat)
    requires 1 <= m <= 13
  {
    var common :=
      if m == 1 then 0 else if m == 2 then 31 else if m == 3 then 59 else if m == 4 then 90
      else if m == 5 then 120 else if m == 6 then 151 else if m == 7 then 181 else if m == 8 then 212
      else if m == 9 then 243 else if m == 10 then 273 else if m == 11 then 304 else if m == 12 then 334 else 365;
    if m > 2 && IsLeap(y) then common + 1 else common
  }

  lemma MonthOffsetIncreases(y: int, m: nat)
    requires 1 <= m <= 12
    ensures 28 <= MonthOffset(y, m + 1) - MonthOffset(y, m) <= 31
  {}

  lemma MonthOffsetMonotone(y: int, m: nat, n: nat)
    requires 1 <= m <= n <= 13
    ensures MonthOffset(y, m) <= MonthOffset(y, n)
    decreases n - m
  {
    if m < n {
      MonthOffsetMonotone(y, m, n - 1);
      MonthOffsetIncreases(y, n - 1);
    }
  }

  function MonthFrom(y: int, k: nat, m: nat): (n: nat)
    requires 1 <= m <= 12 && MonthOffset(y, m) <= k < MonthOffset(y, 13)
    ensures 1 <= n <= 12 && MonthOffset(y, n) <= k < MonthOffset(y, n + 1)
    decreases 12 - m
  {
    if k < MonthOffset(y, m + 1) then m else MonthFrom(y, k, m + 1)
  }

  function DayOfYear(d: int): int { d - YearStart(YearOf(d)) }

  lemma DayOfYearBounds(d: int)
    ensures 0 <= DayOfYear(d) < MonthOffset(YearOf(d), 13)
  {
    YearBounds(d);
    YearLength(YearOf(d));
  }

  function MonthOf(d: int): (m: nat)
    ensures 1 <= m <= 12
  {
    DayOfYearBounds(d);
    MonthFrom(YearOf(d), DayOfYear(d), 1)
  }

  lemma MonthBounds(d: int)
    ensures MonthOffset(YearOf(d), MonthOf(d)) <= DayOfYear(d) < MonthOffset(YearOf(d), MonthOf(d) + 1)
  {
    DayOfYearBounds(d);
  }

  function DayOf(d: int): (k: nat)
    ensures 1 <= k <= 31
  {
    MonthBounds(d);
    MonthOffsetIncreases(YearOf(d), MonthOf(d));
    DayOfYear(d) - MonthOffset(YearOf(d), MonthOf(d)) + 1
  }

  /** Sunday is 0; the first day of year 1 is a Monday. */
  function WeekdayOf(d: int): (w: nat)
    ensures w < 7
  {
    (d + 1) % 7
  }

  /** The day number that time.Date gives for a year, month and day; days past
      the end of the month run on into the next one. */
  function DayNumber(y: int, m: nat, day: int): int
    requires 1 <= m <= 13
  {
    YearStart(y) + MonthOffset(y, m) + day - 1
  }

  /** Date fields and day numbers correspond one to one. */
  lemma DayNumberInverse(d: int)
    ensures DayNumber(YearOf(d), MonthOf(d), DayOf(d)) == d
  {}

  lemma FieldsOfDayNumber(y: int, m: nat, day: int)
    requires 1 <= m <= 12 && 1 <= day <= MonthOffset(y, m + 1) - MonthOffset(y, m)
    ensures YearOf(DayNumber(y, m, day)) == y
    ensures MonthOf(DayNumber(y, m, day)) == m
    ensures DayOf(DayNumber(y, m, day)) == day
  {
    var d := DayNumber(y, m, day);
    YearLength(y);
    MonthOffsetMonotone(y, m + 1, 13);
    YearUnique(d, y);
    MonthBounds(d);
    var n := MonthOf(d);
    if n < m {
      MonthOffsetMonotone(y, n + 1, m);
    } else if m < n {
      MonthOffsetMonotone(y, m + 1, n);
    }
  }

  lemma MonthThirteen(y: int)
    ensures DayNumber(y, 13, 1) == DayNumber(y + 1, 1, 1)
  {
    YearLength(y);
  }

  /** The day after the last day of month m of year y. */
  lemma FirstOfNextMonth(y: int, m: nat)
    requires 1 <= m <= 12
    ensures var d := DayNumber(y, m + 1, 1);
            && DayOf(d) == 1
            && YearOf(d) == (if m < 12 then y else y + 1)
            && MonthOf(d) == (if m < 12 then m + 1 else 1)
  {
    hide YearOf, MonthOf, DayOf, DayNumber, MonthOffset;
    if m < 12 {
      MonthOffsetIncreases(y, m + 1);
      FieldsOfDayNumber(y, m + 1, 1);
    } else {
      MonthThirteen(y);
      MonthOffsetIncreases(y + 1, 1);
      FieldsOfDayNumber(y + 1, 1, 1);
    }
  }
}
