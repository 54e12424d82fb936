/**
 The proleptic Gregorian calendar as Go's time package uses it, counted from
 1 January of year 1: day 0 is that day and month 0 that month.
 */
module Calendar {

  predicate IsLeap(year: int) {
    year % 4 == 0 && (year % 100 != 0 || year % 400 == 0)
  }

  function DaysInMonth(m: int): (days: int)
    ensures 28 <= days <= 31
  {
    var month := m % 12;
    if month == 1 then if IsLeap(m / 12 + 1) then 29 else 28
    else if month in {3, 5, 8, 10} then 30
    else 31
  }

  function MonthStart(m: int): int
    decreases if m < 0 then -m else m
  {
    if m == 0 then 0
    else if m > 0 then MonthStart(m - 1) + DaysInMonth(m - 1)
    else MonthStart(m + 1) - DaysInMonth(m)
  }

  lemma MonthLength(m: int)
    ensures MonthStart(m + 1) == MonthStart(m) + DaysInMonth(m)
  {}

  lemma {:induction false} MonthsAscend(a: int, b: int)
    requires a < b
    ensures MonthStart(a) + 28 <= MonthStart(b)
    decreases b - a
  {
    MonthLength(b - 1);
    if a == b - 1 {
    } else {
      MonthsAscend(a, b - 1);
    }
  }

  function SearchUp(m: int, day: int): (r: int)
    requires MonthStart(m) <= day
    ensures MonthStart(r) <= day < MonthStart(r + 1)
    decreases day - MonthStart(m)
  {
    MonthLength(m);
    if day < MonthStart(m + 1) then m else SearchUp(m + 1, day)
  }

  function SearchDown(m: int, day: int): (r: int)
    requires day < MonthStart(m + 1)
    ensures MonthStart(r) <= day < MonthStart(r + 1)
    decreases MonthStart(m + 1) - day
  {
    MonthLength(m);
    if MonthStart(m) <= day then m else SearchDown(m - 1, day)
  }

  /** The month a day falls in. */
  function MonthOf(day: int): (m: int)
    ensures MonthStart(m) <= day < MonthStart(m + 1)
  {
    MonthLength(0);
    if 0 <= day then SearchUp(0, day) else SearchDown(0, day)
  }

  lemma MonthOfIs(day: int, m: int)
    requires MonthStart(m) <= day < MonthStart(m + 1)
    ensures MonthOf(day) == m
  {
    var n := MonthOf(day);
    if n < m {
      if n + 1 < m { MonthsAscend(n + 1, m); }
    } else if m < n {
      if m + 1 < n { MonthsAscend(m + 1, n); }
    }
  }

  /** `time.Date`: a day of month past the month's end runs into the next month. */
  function Date(m: int, dayOfMonth: int): int {
    MonthStart(m) + dayOfMonth - 1
  }

  /** `AddDate(0, months, 0)` keeps the day of month, then normalises as `Date` does. */
  function AddMonths(day: int, months: int): int {
    var m := MonthOf(day);
    Date(m + months, day - MonthStart(m) + 1)
  }

  lemma AddMonthsOf(m: int, dayOfMonth: int, months: int)
    requires 1 <= dayOfMonth <= DaysInMonth(m)
    ensures AddMonths(Date(m, dayOfMonth), months) == Date(m + months, dayOfMonth)
  {
    MonthLength(m);
    MonthOfIs(Date(m, dayOfMonth), m);
  }

  /** Days before each month of a common year. */
  const BEFORE: seq<int> := [0, 31, 59, 90, 120, 151, 181, 212, 243, 273, 304, 334, 365]

  function LeapDay(year: int): int {
    if year % 4 == 0 && (year % 100 != 0 || year % 400 == 0) then 1 else 0
  }

  lemma MonthOfYear(y: int, k: int)
    requires 0 <= k < 12
    ensures (12 * y + k) % 12 == k && (12 * y + k) / 12 == y
  {}

  /** The months of the year after `y` years: the familiar lengths, with a leap day after February. */
  lemma {:induction false} MonthInYear(y: int, k: int)
    requires 0 <= k <= 12
    ensures MonthStart(12 * y + k) == MonthStart(12 * y) + BEFORE[k] + if k >= 2 then LeapDay(y + 1) else 0
  {
    if k == 0 {
    } else {
      MonthInYear(y, k - 1);
      MonthLength(12 * y + k - 1);
      MonthOfYear(y, k - 1);
    }
  }

  lemma LeapDaysSoFar(y: int)
    ensures (y + 1) / 4 - (y + 1) / 100 + (y + 1) / 400 == y / 4 - y / 100 + y / 400 + LeapDay(y + 1)
  {
    FourthYears(y);
    HundredthYears(y);
    FourHundredthYears(y);
  }

  lemma FourthYears(y: int)
    ensures (y + 1) / 4 == y / 4 + if (y + 1) % 4 == 0 then 1 else 0
  {}

  lemma HundredthYears(y: int)
    ensures (y + 1) / 100 == y / 100 + if (y + 1) % 100 == 0 then 1 else 0
    ensures (y + 1) % 100 == 0 ==> (y + 1) % 4 == 0
  {}

  lemma FourHundredthYears(y: int)
    ensures (y + 1) / 400 == y / 400 + if (y + 1) % 400 == 0 then 1 else 0
    ensures (y + 1) % 400 == 0 ==> (y + 1) % 100 == 0
  {}

  lemma YearLength(y: int)
    ensures MonthStart(12 * (y + 1)) == MonthStart(12 * y) + 365 + LeapDay(y + 1)
  {
    MonthInYear(y, 12);
    assert 12 * (y + 1) == 12 * y + 12;
  }

  /**
   The Gregorian rule: `y` years have 365 days each and a leap day every fourth but not
   hundredth, yet every 400th year.
   */
  lemma {:induction false} YearStart(y: int)
    ensures MonthStart(12 * y) == 365 * y + y / 4 - y / 100 + y / 400
    decreases if y < 0 then -y else y
  {
    if y == 0 {
    } else if y > 0 {
      YearStart(y - 1);
      YearLength(y - 1);
      LeapDaysSoFar(y - 1);
    } else {
      YearStart(y + 1);
      YearLength(y);
      LeapDaysSoFar(y);
    }
  }
}
