/** The proleptic Gregorian calendar of Python's `datetime.date`: dates from
    0001-01-01 to 9999-12-31, numbered consecutively from day 0 (that is,
    `toordinal() - 1`). Adding a number of days is done on day numbers. */
module Calendar {
  import opened Wrappers

  datatype Date = Date(year: int, month: int, day: int)

  const MinYear := 1
  const MaxYear := 9999

  /** Day number of 9999-12-31, the last date Python represents. */
  const MaxDayNumber := 3652058

  predicate IsLeapYear(y: int)
  {
    y % 4 == 0 && (y % 100 != 0 || y % 400 == 0)
  }

  function DaysInYear(y: int): int
  {
    if IsLeapYear(y) then 366 else 365
  }

  function DaysInMonth(y: int, m: int): (n: int)
    requires 1 <= m <= 12
    ensures 28 <= n <= 31
  {
    if m == 2 then (if IsLeapYear(y) then 29 else 28)
    else if m == 4 || m == 6 || m == 9 || m == 11 then 30
    else 31
  }

  predicate ValidDate(d: Date)
  {
    MinYear <= d.year <= MaxYear && 1 <= d.month <= 12 && 1 <= d.day <= DaysInMonth(d.year, d.month)
  }

  /** Number of days in the years 1 .. y-1. */
  function DaysBeforeYear(y: int): int
    requires y >= 1
  {
    var p := y - 1;
    365 * p + p / 4 - p / 100 + p / 400
  }

  /** Number of days in the months 1 .. m-1 of year y. */
  function DaysBeforeMonth(y: int, m: int): int
    requires 1 <= m <= 12
  {
    [0, 31, 59, 90, 120, 151, 181, 212, 243, 273, 304, 334][m - 1]
      + (if m > 2 && IsLeapYear(y) then 1 else 0)
  }

  /** Days elapsed from 0001-01-01 to d. */
  function DayNumber(d: Date): (n: int)
    requires ValidDate(d)
    ensures 0 <= DaysBeforeYear(d.year) <= n < DaysBeforeYear(d.year) + DaysInYear(d.year)
  {
    MonthWithinYear(d.year, d.month);
    DaysBeforeYear(d.year) + DaysBeforeMonth(d.year, d.month) + d.day - 1
  }

  /** Within one month, day numbers differ by the difference of the days. */
  lemma SameMonth(y: int, m: int, a: int, b: int)
    requires ValidDate(Date(y, m, a)) && ValidDate(Date(y, m, b))
    ensures DayNumber(Date(y, m, b)) == DayNumber(Date(y, m, a)) + b - a
  {
  }

  /** Strict chronological order, read off the year, month and day fields. */
  predicate Before(a: Date, b: Date)
  {
    a.year < b.year
    || (a.year == b.year && (a.month < b.month || (a.month == b.month && a.day < b.day)))
  }

  /** Moving from year y - 1 to y passes one more multiple of k exactly when k divides y. */
  lemma MultiplesStep(y: int)
    requires y >= 1
    ensures y / 4 - (y - 1) / 4 == (if y % 4 == 0 then 1 else 0)
    ensures y / 100 - (y - 1) / 100 == (if y % 100 == 0 then 1 else 0)
    ensures y / 400 - (y - 1) / 400 == (if y % 400 == 0 then 1 else 0)
  {
  }

  lemma DaysBeforeYearStep(y: int)
    requires y >= 1
    ensures DaysBeforeYear(y + 1) == DaysBeforeYear(y) + DaysInYear(y)
  {
    MultiplesStep(y);
    if y % 400 == 0 {
      assert y % 100 == 0 && y % 4 == 0;
    } else if y % 100 == 0 {
      assert y % 4 == 0;
    }
  }

  lemma {:induction false} DaysBeforeYearMonotone(a: int, b: int)
    requires 1 <= a <= b
    ensures DaysBeforeYear(a) + 365 * (b - a) <= DaysBeforeYear(b)
    decreases b - a
  {
    if a < b {
      DaysBeforeYearMonotone(a, b - 1);
      DaysBeforeYearStep(b - 1);
    }
  }

  /** A 400-year cycle has 146097 days. */
  lemma DaysBeforeCycle(q: int)
    requires q >= 0
    ensures DaysBeforeYear(400 * q + 1) == 146097 * q
  {
    var p := 400 * q;
    assert p / 4 == 100 * q;
    assert p / 100 == 4 * q;
    assert p / 400 == q;
  }

  lemma MonthStep(y: int, m: int)
    requires 1 <= m <= 12
    ensures m < 12 ==> DaysBeforeMonth(y, m + 1) == DaysBeforeMonth(y, m) + DaysInMonth(y, m)
    ensures m == 12 ==> DaysBeforeMonth(y, m) + DaysInMonth(y, m) == DaysInYear(y)
  {
  }

  lemma {:induction false} MonthMonotone(y: int, m: int, n: int)
    requires 1 <= m < n <= 12
    ensures DaysBeforeMonth(y, m) + DaysInMonth(y, m) <= DaysBeforeMonth(y, n)
    decreases n - m
  {
    MonthStep(y, m);
    if m + 1 < n {
      MonthMonotone(y, m + 1, n);
      MonthStep(y, m + 1);
    }
  }

  /** Month m of year y ends no later than the year does. */
  lemma MonthWithinYear(y: int, m: int)
    requires 1 <= m <= 12
    ensures DaysBeforeMonth(y, m) + DaysInMonth(y, m) <= DaysInYear(y)
  {
    if m < 12 {
      MonthMonotone(y, m, 12);
    }
    MonthStep(y, 12);
  }

  /** The days of year y occupy the day numbers DaysBeforeYear(y) .. DaysBeforeYear(y + 1) - 1. */
  lemma YearBracket(d: Date)
    requires ValidDate(d)
    ensures DaysBeforeYear(d.year) <= DayNumber(d) < DaysBeforeYear(d.year + 1)
  {
    DaysBeforeYearStep(d.year);
    if d.month < 12 {
      MonthMonotone(d.year, d.month, 12);
    }
    MonthStep(d.year, 12);
  }

  /** The year holding the day r days after the start of year y, and the day-of-year offset (counted from 0) within it. */
  function FindYear(y: int, r: int): (res: (int, int))
    requires y >= 1 && r >= 0
    ensures res.0 >= y && 0 <= res.1 < DaysInYear(res.0)
    ensures DaysBeforeYear(res.0) + res.1 == DaysBeforeYear(y) + r
    decreases r
  {
    if r < DaysInYear(y) then (y, r)
    else
      DaysBeforeYearStep(y);
      FindYear(y + 1, r - DaysInYear(y))
  }

  /** The date whose day-of-year offset from the start of month m is r. */
  function FindMonth(y: int, m: int, r: int): (d: Date)
    requires MinYear <= y <= MaxYear && 1 <= m <= 12
    requires 0 <= r && DaysBeforeMonth(y, m) + r < DaysInYear(y)
    ensures ValidDate(d) && d.year == y
    ensures DaysBeforeMonth(y, d.month) + d.day - 1 == DaysBeforeMonth(y, m) + r
    decreases 12 - m
  {
    MonthStep(y, m);
    if r < DaysInMonth(y, m) then Date(y, m, r + 1)
    else FindMonth(y, m + 1, r - DaysInMonth(y, m))
  }

  /** The date with day number n: the inverse of DayNumber. */
  function FromDayNumber(n: int): (d: Date)
    requires 0 <= n <= MaxDayNumber
    ensures ValidDate(d) && DayNumber(d) == n
  {
    var q := n / 146097;
    DaysBeforeCycle(q);
    var (y, r) := FindYear(400 * q + 1, n % 146097);
    assert y <= MaxYear by {
      if y > MaxYear {
        DaysBeforeYearMonotone(MaxYear + 1, y);
      }
    }
    FindMonth(y, 1, r)
  }

  /** Day numbers follow the calendar order, and distinct dates have distinct numbers. */
  lemma DayNumberOrder(a: Date, b: Date)
    requires ValidDate(a) && ValidDate(b)
    ensures Before(a, b) <==> DayNumber(a) < DayNumber(b)
    ensures a == b <==> DayNumber(a) == DayNumber(b)
  {
    if a.year < b.year {
      EarlierYear(a, b);
    } else if b.year < a.year {
      EarlierYear(b, a);
    } else if a.month < b.month {
      MonthMonotone(a.year, a.month, b.month);
    } else if b.month < a.month {
      MonthMonotone(a.year, b.month, a.month);
    }
  }

  /** Every date of an earlier year has a smaller day number. */
  lemma EarlierYear(a: Date, b: Date)
    requires ValidDate(a) && ValidDate(b) && a.year < b.year
    ensures DayNumber(a) < DayNumber(b)
  {
    YearBracket(a);
    YearBracket(b);
    DaysBeforeYearMonotone(a.year + 1, b.year);
  }

  lemma FromDayNumberOfDayNumber(d: Date)
    requires ValidDate(d)
    ensures 0 <= DayNumber(d) <= MaxDayNumber
    ensures FromDayNumber(DayNumber(d)) == d
  {
    YearBracket(d);
    if d.year < MaxYear {
      DaysBeforeYearMonotone(d.year + 1, MaxYear + 1);
    }
    DayNumberOrder(d, FromDayNumber(DayNumber(d)));
  }

  /** `date + timedelta(days=k)`: None where Python raises OverflowError. */
  function AddDays(d: Date, k: int): (r: Option<Date>)
    requires ValidDate(d)
    ensures r.Some? <==> 0 <= DayNumber(d) + k <= MaxDayNumber
    ensures r.Some? ==> ValidDate(r.value) && DayNumber(r.value) == DayNumber(d) + k
  {
    var n := DayNumber(d) + k;
    if 0 <= n <= MaxDayNumber then Some(FromDayNumber(n)) else None
  }

  /** An addition that lands on e is pinned down by day numbers alone. */
  lemma AddDaysIff(d: Date, k: int, e: Date)
    requires ValidDate(d) && ValidDate(e)
    ensures AddDays(d, k) == Some(e) <==> DayNumber(e) == DayNumber(d) + k
  {
    var r := AddDays(d, k);
    if DayNumber(e) == DayNumber(d) + k {
      FromDayNumberOfDayNumber(e);
      DayNumberOrder(r.value, e);
    }
  }

  lemma AddDaysZero(d: Date)
    requires ValidDate(d)
    ensures AddDays(d, 0) == Some(d)
  {
    AddDaysIff(d, 0, d);
  }

  /** Adding j days and then k days is adding j + k days. */
  lemma AddDaysCompose(d: Date, j: int, k: int)
    requires ValidDate(d) && AddDays(d, j).Some?
    ensures AddDays(AddDays(d, j).value, k) == AddDays(d, j + k)
  {
    var a, b := AddDays(AddDays(d, j).value, k), AddDays(d, j + k);
    if a.Some? {
      DayNumberOrder(a.value, b.value);
    }
  }

  /** Adding a positive number of days moves strictly forward in the calendar. */
  lemma AddDaysForward(d: Date, k: int)
    requires ValidDate(d) && k > 0 && AddDays(d, k).Some?
    ensures Before(d, AddDays(d, k).value)
  {
    DayNumberOrder(d, AddDays(d, k).value);
  }

  /** Ordinary addition within a month: 2024-05-01 plus 30 days. */
  lemma AddDaysWithinMonth()
    ensures AddDays(Date(2024, 5, 1), 30) == Some(Date(2024, 5, 31))
  {
    assert DayNumber(Date(2024, 5, 31)) == DayNumber(Date(2024, 5, 1)) + 30;
    AddDaysIff(Date(2024, 5, 1), 30, Date(2024, 5, 31));
  }

  /** Month rollover across February in a leap year. */
  lemma AddDaysAcrossLeapFebruary()
    ensures AddDays(Date(2024, 1, 31), 30) == Some(Date(2024, 3, 1))
  {
    assert DayNumber(Date(2024, 3, 1)) == DayNumber(Date(2024, 1, 31)) + 30;
    AddDaysIff(Date(2024, 1, 31), 30, Date(2024, 3, 1));
  }

  /** Month rollover across February in a common year. */
  lemma AddDaysAcrossCommonFebruary()
    ensures AddDays(Date(2023, 1, 31), 30) == Some(Date(2023, 3, 2))
  {
    assert DayNumber(Date(2023, 3, 2)) == DayNumber(Date(2023, 1, 31)) + 30;
    AddDaysIff(Date(2023, 1, 31), 30, Date(2023, 3, 2));
  }

  /** Year rollover with the monthly frequency. */
  lemma AddDaysAcrossYearEnd()
    ensures AddDays(Date(2023, 12, 15), 30) == Some(Date(2024, 1, 14))
  {
    assert DayNumber(Date(2024, 1, 14)) == DayNumber(Date(2023, 12, 15)) + 30;
    AddDaysIff(Date(2023, 12, 15), 30, Date(2024, 1, 14));
  }

  /** Year rollover with the quarterly frequency. */
  lemma AddQuarterAcrossYearEnd()
    ensures AddDays(Date(2024, 11, 15), 90) == Some(Date(2025, 2, 13))
  {
    assert DayNumber(Date(2025, 2, 13)) == DayNumber(Date(2024, 11, 15)) + 90;
    AddDaysIff(Date(2024, 11, 15), 90, Date(2025, 2, 13));
  }

  /** The day after 02-28: 02-29 in a leap year, 03-01 otherwise. */
  lemma EndOfFebruary(y: int)
    requires MinYear <= y <= MaxYear
    ensures AddDays(Date(y, 2, 28), 1) == Some(if IsLeapYear(y) then Date(y, 2, 29) else Date(y, 3, 1))
  {
    if IsLeapYear(y) {
      AddDaysIff(Date(y, 2, 28), 1, Date(y, 2, 29));
    } else {
      AddDaysIff(Date(y, 2, 28), 1, Date(y, 3, 1));
    }
  }

  /** The century rule: a century year is a leap year only when 400 divides
      it, so 1900-02-28 is followed by 1900-03-01 and 2000-02-28 by 2000-02-29. */
  lemma AddDaysCenturyLeapRule(y: int)
    requires MinYear <= y <= MaxYear && y % 100 == 0
    ensures y % 400 != 0 ==> AddDays(Date(y, 2, 28), 1) == Some(Date(y, 3, 1))
    ensures y % 400 == 0 ==> AddDays(Date(y, 2, 28), 1) == Some(Date(y, 2, 29))
  {
    EndOfFebruary(y);
    CenturyLeap(y);
  }

  /** A century year is a leap year exactly when 400 divides it. */
  lemma CenturyLeap(y: int)
    requires y % 100 == 0
    ensures IsLeapYear(y) <==> y % 400 == 0
  {
    var k := y / 100;
    assert y == 4 * (25 * k);
  }

  /** Past 9999-12-31 Python raises OverflowError. */
  lemma AddDaysOverflow()
    ensures AddDays(Date(9999, 12, 31), 1) == None
  {
    assert DayNumber(Date(9999, 12, 31)) == MaxDayNumber;
  }
}
