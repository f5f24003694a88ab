/** The proleptic Gregorian calendar, counted in days from 1 January 1970. */
module Calendar {
  datatype Date = Date(year: int, month: int, day: int)

  predicate Leap(year: int) {
    year % 4 == 0 && (year % 100 != 0 || year % 400 == 0)
  }

  function DaysIn(year: int, month: int): (n: int)
    ensures 28 <= n <= 31
  {
    if month == 2 then (if Leap(year) then 29 else 28)
    else if month in {4, 6, 9, 11} then 30
    else 31
  }

  function Next(d: Date): Date {
    if d.day < DaysIn(d.year, d.month) then d.(day := d.day + 1)
    else if d.month < 12 then Date(d.year, d.month + 1, 1)
    else Date(d.year + 1, 1, 1)
  }

  function DateOf(n: nat): (d: Date)
    ensures 1 <= d.day <= DaysIn(d.year, d.month) && 1 <= d.month <= 12
  {
    if n == 0 then Date(1970, 1, 1) else Next(DateOf(n - 1))
  }

  /** `weekday()`: Monday is 0; the epoch was a Thursday. */
  function Weekday(n: nat): (w: nat)
    ensures w < 7
  {
    (n + 3) % 7
  }

  lemma {:induction false} DaysLater(n: nat, k: nat)
    requires k < 28
    ensures var d, e := DateOf(n), DateOf(n + k);
            || (e.day == d.day + k && e.month == d.month && e.year == d.year)
            || (e.day == d.day + k - DaysIn(d.year, d.month) && e.day <= k)
  {
    if k == 0 {
    } else {
      DaysLater(n, k - 1);
    }
  }

  /** Less than four weeks apart, the same day of the month is the same day. */
  lemma SameDayOfMonth(m: nat, n: nat)
    requires m <= n < m + 28 && DateOf(m).day == DateOf(n).day
    ensures m == n
  {
    DaysLater(m, n - m);
  }

  /** Months counted through the years. */
  function MonthIndex(d: Date): int {
    12 * d.year + d.month
  }

  lemma {:induction false} MonthsPass(m: nat, n: nat)
    requires m <= n
    ensures MonthIndex(DateOf(m)) <= MonthIndex(DateOf(n))
    decreases n
  {
    if m == n {
    } else {
      MonthsPass(m, n - 1);
    }
  }

  /** The days of the years before March of year `y`. */
  function YearDays(y: int): int {
    365 * y + y / 4 - y / 100 + y / 400
  }

  /** The days of the months before month `m`, counted from March. */
  function MonthDays(m: int): int {
    (153 * m + 2) / 5
  }

  /** The days from 1 January 1970 to a date, counting years from March so that the leap day ends one; every fourth
      year is a leap year but every hundredth, except every four-hundredth. */
  function DayNumber(d: Date): int {
    var y := if d.month <= 2 then d.year - 1 else d.year;
    var m := if d.month <= 2 then d.month + 9 else d.month - 3;
    YearDays(y) + MonthDays(m) + d.day - 719469
  }

  lemma NextFourth(y: int)
    ensures (y + 1) / 4 == y / 4 + if (y + 1) % 4 == 0 then 1 else 0
  {
  }

  lemma NextHundredth(y: int)
    ensures (y + 1) / 100 == y / 100 + if (y + 1) % 100 == 0 then 1 else 0
  {
  }

  lemma NextFourHundredth(y: int)
    ensures (y + 1) / 400 == y / 400 + if (y + 1) % 400 == 0 then 1 else 0
  {
  }

  lemma LeapYears(y: int)
    ensures y % 400 == 0 ==> y % 100 == 0
    ensures y % 100 == 0 ==> y % 4 == 0
  {
    assert y % 400 == 0 ==> y == 100 * (4 * (y / 400));
    assert y % 100 == 0 ==> y == 4 * (25 * (y / 100));
  }

  lemma LeapDay(y: int)
    ensures YearDays(y + 1) == YearDays(y) + if Leap(y + 1) then 366 else 365
  {
    NextFourth(y);
    NextHundredth(y);
    NextFourHundredth(y);
    LeapYears(y + 1);
  }

  lemma MonthLength(year: int, month: int)
    requires 1 <= month <= 12 && month != 2
    ensures var m := if month == 1 then 10 else month - 3;
            MonthDays(m + 1) == MonthDays(m) + DaysIn(year, month)
  {
    assert month in {1, 3, 4, 5, 6, 7, 8, 9, 10, 11, 12};
  }

  lemma NextDay(d: Date)
    requires 1 <= d.month <= 12 && 1 <= d.day <= DaysIn(d.year, d.month)
    ensures DayNumber(Next(d)) == DayNumber(d) + 1
  {
    if d.month == 2 {
      LeapDay(d.year - 1);
    } else {
      MonthLength(d.year, d.month);
    }
  }

  /** The date of day `n` is the one with that number. */
  lemma {:induction false} DayNumberOf(n: nat)
    ensures DayNumber(DateOf(n)) == n
  {
    if n == 0 {
    } else {
      DayNumberOf(n - 1);
      NextDay(DateOf(n - 1));
    }
  }

  /** Day 0 was a Thursday, and Monday is followed by six other days. */
  lemma WeekdaysPass(n: nat)
    ensures Weekday(0) == 3 && Weekday(n + 7) == Weekday(n)
    ensures Weekday(n + 1) == if Weekday(n) == 6 then 0 else Weekday(n) + 1
  {
  }
}
