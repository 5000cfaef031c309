/** Civil dates: day overflow, day numbers and weekdays of the proleptic Gregorian calendar. */
module Calendar {

  datatype Date = Date(year: int, month: int, day: int)

  predicate IsLeapYear(year: int) {
    if year % 400 == 0 then true
    else if year % 100 == 0 then false
    else year % 4 == 0
  }

  function DaysInYear(year: int): int {
    if IsLeapYear(year) then 366 else 365
  }

  const MONTH_LENGTHS := [31, 28, 31, 30, 31, 30, 31, 31, 30, 31, 30, 31]

  function MonthLength(year: int, month: int): (n: int)
    requires 1 <= month <= 12
    ensures 28 <= n <= 31
  {
    if month == 2 && IsLeapYear(year) then 29 else MONTH_LENGTHS[month - 1]
  }

  predicate Valid(d: Date) {
    1 <= d.month <= 12 && 1 <= d.day <= MonthLength(d.year, d.month)
  }

  /** A day beyond the end of its month runs over into the following months. */
  function Normalized(year: int, month: int, day: int): (d: Date)
    requires 1 <= month <= 12 && day >= 1
    ensures Valid(d)
    decreases day
  {
    if day <= MonthLength(year, month) then Date(year, month, day)
    else if month == 12 then Normalized(year + 1, 1, day - MonthLength(year, month))
    else Normalized(year, month + 1, day - MonthLength(year, month))
  }

  function AddDays(d: Date, n: nat): Date
    requires Valid(d)
  {
    Normalized(d.year, d.month, d.day + n)
  }

  // ---------------------------------------------------------------- the number of a day

  /** Days from 1 January of year 1 to 1 January of the year. */
  function DaysBeforeYear(year: int): int {
    365 * (year - 1) + (year - 1) / 4 - (year - 1) / 100 + (year - 1) / 400
  }

  function DaysBeforeMonth(year: int, month: int): int
    requires 1 <= month <= 12
  {
    if month == 1 then 0 else DaysBeforeMonth(year, month - 1) + MonthLength(year, month - 1)
  }

  function DayNumber(d: Date): int
    requires Valid(d)
  {
    DaysBeforeYear(d.year) + DaysBeforeMonth(d.year, d.month) + d.day - 1
  }

  /** Sunday is 0; the first day of year 1 was a Monday. */
  function Weekday(d: Date): (w: int)
    requires Valid(d)
    ensures 0 <= w < 7
  {
    (DayNumber(d) + 1) % 7
  }

  /** The leap-year rule makes consecutive years meet, for all years. */
  lemma YearsMeet(year: int)
    ensures DaysBeforeYear(year + 1) == DaysBeforeYear(year) + DaysInYear(year)
  {
    Steps(year, 4);
    Steps(year, 100);
    Steps(year, 400);
    if year % 400 == 0 {
      assert year == 100 * (4 * (year / 400)) && year == 4 * (100 * (year / 400));
    } else if year % 100 == 0 {
      assert year == 4 * (25 * (year / 100));
    }
  }

  lemma Steps(year: int, n: int)
    requires n > 1
    ensures year / n == (year - 1) / n + if year % n == 0 then 1 else 0
  {
    var q, r := year / n, year % n;
    assert year == n * q + r && 0 <= r < n;
    if r == 0 {
      assert year - 1 == n * (q - 1) + (n - 1);
      QuotientIs(year - 1, n, q - 1, n - 1);
    } else {
      QuotientIs(year - 1, n, q, r - 1);
    }
  }

  lemma QuotientIs(a: int, n: int, q: int, r: int)
    requires n > 0 && a == n * q + r && 0 <= r < n
    ensures a / n == q
  {
    var k := a / n - q;
    assert a == n * (a / n) + a % n;
    assert n * k == r - a % n;
    if k != 0 {
      Multiple(n, k);
    }
  }

  lemma Multiple(n: int, k: int)
    requires n > 0 && k != 0
    ensures n * k >= n || n * k <= -n
  {
    if k > 0 {
      assert n * k >= n * 1;
    } else {
      assert n * k <= n * -1;
    }
  }

  lemma MonthsFillYear(year: int)
    ensures DaysBeforeMonth(year, 12) + MonthLength(year, 12) == DaysInYear(year)
  {
    assert DaysBeforeMonth(year, 2) == 31;
    assert DaysBeforeMonth(year, 3) == DaysInYear(year) - 306;
    assert DaysBeforeMonth(year, 5) == DaysInYear(year) - 245;
    assert DaysBeforeMonth(year, 7) == DaysInYear(year) - 184;
    assert DaysBeforeMonth(year, 9) == DaysInYear(year) - 122;
    assert DaysBeforeMonth(year, 11) == DaysInYear(year) - 61;
  }

  /** Overflowing a day keeps its number. */
  lemma {:induction false} NormalizedKeepsNumber(year: int, month: int, day: int)
    requires 1 <= month <= 12 && day >= 1
    ensures DayNumber(Normalized(year, month, day)) == DaysBeforeYear(year) + DaysBeforeMonth(year, month) + day - 1
    decreases day
  {
    if day <= MonthLength(year, month) {
    } else if month == 12 {
      NormalizedKeepsNumber(year + 1, 1, day - MonthLength(year, month));
      MonthsFillYear(year);
      YearsMeet(year);
    } else {
      NormalizedKeepsNumber(year, month + 1, day - MonthLength(year, month));
    }
  }

  /** Adding n days moves the day number by n. */
  lemma AddDaysCounts(d: Date, n: nat)
    requires Valid(d)
    ensures DayNumber(AddDays(d, n)) == DayNumber(d) + n
  {
    NormalizedKeepsNumber(d.year, d.month, d.day + n);
  }

  lemma {:induction false} MonthsInOrder(year: int, m: int, n: int)
    requires 1 <= m < n <= 12
    ensures DaysBeforeMonth(year, m) + MonthLength(year, m) <= DaysBeforeMonth(year, n)
    decreases n
  {
    if m < n - 1 {
      MonthsInOrder(year, m, n - 1);
    }
  }

  lemma InsideItsYear(d: Date)
    requires Valid(d)
    ensures DaysBeforeYear(d.year) <= DayNumber(d) < DaysBeforeYear(d.year + 1)
    ensures 0 <= DaysBeforeMonth(d.year, d.month)
  {
    if d.month > 1 {
      MonthsInOrder(d.year, 1, d.month);
    }
    if d.month < 12 {
      MonthsInOrder(d.year, d.month, 12);
    }
    MonthsFillYear(d.year);
    YearsMeet(d.year);
  }

  lemma {:induction false} YearsInOrder(y: int, z: int)
    requires y <= z
    ensures DaysBeforeYear(y) <= DaysBeforeYear(z)
    decreases z - y
  {
    if y < z {
      YearsInOrder(y, z - 1);
      YearsMeet(z - 1);
    }
  }

  /** No two dates share a number. */
  lemma NumberIdentifies(d: Date, e: Date)
    requires Valid(d) && Valid(e) && DayNumber(d) == DayNumber(e)
    ensures d == e
  {
    InsideItsYear(d);
    InsideItsYear(e);
    if d.year < e.year {
      YearsInOrder(d.year + 1, e.year);
    } else if e.year < d.year {
      YearsInOrder(e.year + 1, d.year);
    } else if d.month < e.month {
      MonthsInOrder(d.year, d.month, e.month);
    } else if e.month < d.month {
      MonthsInOrder(d.year, e.month, d.month);
    }
  }

  // ---------------------------------------------------------------- the days of one year

  function NewYear(year: int): (d: Date)
    ensures Valid(d)
  {
    Date(year, 1, 1)
  }

  lemma DayOfYear(year: int, i: nat)
    requires i < DaysInYear(year)
    ensures AddDays(NewYear(year), i).year == year
  {
    var d := AddDays(NewYear(year), i);
    AddDaysCounts(NewYear(year), i);
    InsideItsYear(d);
    YearsMeet(year);
    if d.year < year {
      YearsInOrder(d.year + 1, year);
    } else if year < d.year {
      YearsInOrder(year + 1, d.year);
    }
  }

  /** The position of a date in its year. */
  function Position(d: Date): (i: int)
    requires Valid(d)
    ensures 0 <= i < DaysInYear(d.year)
  {
    InsideItsYear(d);
    YearsMeet(d.year);
    DayNumber(d) - DaysBeforeYear(d.year)
  }

  /** Walking the year from new year's day meets every date of the year exactly once. */
  lemma WalkMeetsEveryDate(year: int, d: Date, i: nat)
    requires Valid(d) && d.year == year && i < DaysInYear(year)
    ensures AddDays(NewYear(year), i) == d <==> i == Position(d)
  {
    AddDaysCounts(NewYear(year), i);
    if i == Position(d) {
      NumberIdentifies(AddDays(NewYear(year), i), d);
    }
  }

  // ---------------------------------------------------------------- the civil calendar

  lemma PlainLengths(month: int)
    requires 1 <= month <= 12 && month != 2
    ensures MONTH_LENGTHS[month - 1] == if month == 4 || month == 6 || month == 9 || month == 11 then 30 else 31
  {
    if month <= 6 {
      assert month == 1 || month == 3 || month == 4 || month == 5 || month == 6;
    } else {
      assert month == 7 || month == 8 || month == 9 || month == 10 || month == 11 || month == 12;
    }
  }

  /** Thirty days have April, June, September and November; February has 28, or 29 in a leap
      year; the others have 31. */
  lemma MonthLengths(year: int, month: int)
    requires 1 <= month <= 12
    ensures MonthLength(year, month) ==
              if month == 2 then (if year % 4 == 0 && (year % 100 != 0 || year % 400 == 0) then 29 else 28)
              else if month == 4 || month == 6 || month == 9 || month == 11 then 30
              else 31
  {
    if month == 2 {
      LeapYearIff(year);
    } else {
      PlainLengths(month);
    }
  }

  lemma Quadruple(n: int)
    ensures (4 * n) % 4 == 0
  {
  }

  lemma LeapYearIff(year: int)
    ensures IsLeapYear(year) <==> year % 4 == 0 && (year % 100 != 0 || year % 400 == 0)
  {
    if year % 400 == 0 {
      Quadruple(100 * (year / 400));
    }
  }

  lemma FirstOf(year: int, month: int)
    requires 1 <= month <= 12
    ensures Normalized(year, month, 1) == Date(year, month, 1)
  {
  }

  /** The day after a date: the next in its month, or the first of the next month, or new
      year's day. */
  lemma NextDay(d: Date)
    requires Valid(d)
    ensures AddDays(d, 1) ==
              if d.day < MonthLength(d.year, d.month) then Date(d.year, d.month, d.day + 1)
              else if d.month < 12 then Date(d.year, d.month + 1, 1)
              else Date(d.year + 1, 1, 1)
  {
    if d.day == MonthLength(d.year, d.month) {
      if d.month < 12 {
        FirstOf(d.year, d.month + 1);
      } else {
        FirstOf(d.year + 1, 1);
      }
    }
  }

  /** Weekdays follow each other. */
  lemma NextWeekday(d: Date)
    requires Valid(d)
    ensures Weekday(AddDays(d, 1)) == (Weekday(d) + 1) % 7
  {
    AddDaysCounts(d, 1);
  }

  /** The first of January 2024 was a Monday. */
  lemma AMonday()
    ensures Weekday(Date(2024, 1, 1)) == 1
  {
    assert DaysBeforeYear(2024) == 738885;
  }
}
