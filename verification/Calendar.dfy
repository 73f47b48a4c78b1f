/**
 The proleptic Gregorian calendar, as Python's `date` counts it: a date is its ordinal, and
 day 1 is Monday 1 January of year 1. The year, month and day of an ordinal, and back.
 */
module Calendar {
  datatype Civil = Civil(year: int, month: int, day: int)

  predicate Leap(year: int) {
    year % 4 == 0 && (year % 100 != 0 || year % 400 == 0)
  }

  function DaysInYear(year: int): int {
    if Leap(year) then 366 else 365
  }

  function DaysInMonth(year: int, month: int): (days: int)
    requires 1 <= month <= 12
    ensures 28 <= days <= 31
  {
    if month == 2 then (if Leap(year) then 29 else 28)
    else if month in {4, 6, 9, 11} then 30
    else 31
  }

  /** Days of the years before `year`, in closed form. */
  function DaysBeforeYear(year: int): int
    requires year >= 1
  {
    var past := year - 1;
    past * 365 + past / 4 - past / 100 + past / 400
  }

  function DaysBeforeMonth(year: int, month: int): (days: int)
    requires 1 <= month <= 13
    ensures 0 <= days
    decreases month
  {
    if month == 1 then 0 else DaysBeforeMonth(year, month - 1) + DaysInMonth(year, month - 1)
  }

  predicate IsDate(c: Civil) {
    c.year >= 1 && 1 <= c.month <= 12 && 1 <= c.day <= DaysInMonth(c.year, c.month)
  }

  function Ordinal(c: Civil): int
    requires IsDate(c)
  {
    DaysBeforeYear(c.year) + DaysBeforeMonth(c.year, c.month) + c.day
  }

  /** The year of an ordinal: the first one, from `year` up, that ends on it or later. */
  function YearFrom(year: int, ordinal: int): (found: int)
    requires year >= 1 && DaysBeforeYear(year) < ordinal
    ensures found >= year && DaysBeforeYear(found) < ordinal <= DaysBeforeYear(found + 1)
    decreases ordinal - DaysBeforeYear(year)
  {
    YearLength(year);
    if ordinal <= DaysBeforeYear(year + 1) then year else YearFrom(year + 1, ordinal)
  }

  /** The month, from `month` up, that holds the `n`th day of the year. */
  function MonthFrom(year: int, month: int, n: int): (found: int)
    requires 1 <= month <= 12 && DaysBeforeMonth(year, month) < n <= DaysBeforeMonth(year, 13)
    ensures month <= found <= 12 && DaysBeforeMonth(year, found) < n <= DaysBeforeMonth(year, found + 1)
    decreases 12 - month
  {
    if n <= DaysBeforeMonth(year, month + 1) then month else MonthFrom(year, month + 1, n)
  }

  function CivilOf(ordinal: int): (c: Civil)
    requires ordinal >= 1
    ensures IsDate(c) && Ordinal(c) == ordinal
  {
    var year := YearFrom(1, ordinal);
    YearLength(year);
    MonthsFillYear(year);
    var n := ordinal - DaysBeforeYear(year);
    var month := MonthFrom(year, 1, n);
    Civil(year, month, n - DaysBeforeMonth(year, month))
  }

  /** 0 for Monday to 6 for Sunday, as `date.weekday()`. */
  function Weekday(ordinal: int): (day: int)
    ensures 0 <= day <= 6
  {
    (ordinal - 1) % 7
  }

  /** Day 1 is a Monday, and each day's weekday follows the last's: RFC 3339, appendix B gives the same. */
  lemma WeekdaysFollow(ordinal: int)
    ensures Weekday(1) == 0
    ensures Weekday(ordinal + 1) == if Weekday(ordinal) == 6 then 0 else Weekday(ordinal) + 1
    ensures Weekday(Ordinal(Civil(1970, 1, 1))) == 3 && Weekday(Ordinal(Civil(2000, 1, 1))) == 5
  {
  }

  /** The months' lengths, as in section 5.7 of RFC 3339, with its appendix C for leap years. */
  lemma MonthLengths(year: int, month: int)
    requires 1 <= month <= 12
    ensures DaysInMonth(year, month)
         == [31, if Leap(year) then 29 else 28, 31, 30, 31, 30, 31, 31, 30, 31, 30, 31][month - 1]
    ensures Leap(year) <==> year % 400 == 0 || (year % 4 == 0 && year % 100 != 0)
  {
  }

  /** The sixth day after a week's Monday is its Sunday. */
  lemma WeekEnds(day: int)
    ensures Weekday(day + (6 - Weekday(day))) == 6
  {
    var past := (day - 1) % 7;
    assert day - 1 == 7 * ((day - 1) / 7) + past;
    assert day + (6 - past) - 1 == 7 * ((day - 1) / 7) + 6;
  }

  lemma Quarters(past: int)
    ensures (past + 1) / 4 == past / 4 + if (past + 1) % 4 == 0 then 1 else 0
  {
  }

  lemma Centuries(past: int)
    ensures (past + 1) / 100 == past / 100 + if (past + 1) % 100 == 0 then 1 else 0
    ensures (past + 1) % 100 == 0 ==> (past + 1) % 4 == 0
  {
  }

  lemma FourCenturies(past: int)
    ensures (past + 1) / 400 == past / 400 + if (past + 1) % 400 == 0 then 1 else 0
    ensures (past + 1) % 400 == 0 ==> (past + 1) % 100 == 0
  {
  }

  /** The closed form grows by exactly a year's days. */
  lemma YearLength(year: int)
    requires year >= 1
    ensures DaysBeforeYear(year + 1) == DaysBeforeYear(year) + DaysInYear(year)
  {
    var past := year - 1;
    Quarters(past);
    Centuries(past);
    FourCenturies(past);
  }

  lemma MonthsFillYear(year: int)
    ensures DaysBeforeMonth(year, 13) == DaysInYear(year)
  {
    assert DaysBeforeMonth(year, 4) == DaysBeforeMonth(year, 3) + 31 == if Leap(year) then 91 else 90;
    assert DaysBeforeMonth(year, 7) == DaysBeforeMonth(year, 6) + 30 == DaysBeforeMonth(year, 4) + 91;
    assert DaysBeforeMonth(year, 10) == DaysBeforeMonth(year, 9) + 30 == DaysBeforeMonth(year, 7) + 92;
    assert DaysBeforeMonth(year, 13) == DaysBeforeMonth(year, 12) + 31 == DaysBeforeMonth(year, 10) + 92;
  }

  lemma {:induction false} YearsAscend(a: int, b: int)
    requires 1 <= a < b
    ensures DaysBeforeYear(a) + DaysInYear(a) <= DaysBeforeYear(b)
    decreases b - a
  {
    YearLength(a);
    if a + 1 < b {
      YearsAscend(a + 1, b);
    }
  }

  lemma {:induction false} MonthsAscend(year: int, a: int, b: int)
    requires 1 <= a < b <= 13
    ensures DaysBeforeMonth(year, a) + DaysInMonth(year, a) <= DaysBeforeMonth(year, b)
    decreases b
  {
    if a + 1 < b {
      MonthsAscend(year, a, b - 1);
    }
  }

  /** Within a year: the day's place is past the months before and no further than its own. */
  lemma DayOfYearBounds(c: Civil)
    requires IsDate(c)
    ensures 0 < Ordinal(c) - DaysBeforeYear(c.year) <= DaysInYear(c.year)
  {
    MonthsAscend(c.year, c.month, 13);
    MonthsFillYear(c.year);
  }

  /** Ordinals keep the calendar's order: year, then month, then day. */
  lemma OrdinalsAscend(a: Civil, b: Civil)
    requires IsDate(a) && IsDate(b)
    requires a.year < b.year || (a.year == b.year && (a.month < b.month || (a.month == b.month && a.day < b.day)))
    ensures Ordinal(a) < Ordinal(b)
  {
    if a.year < b.year {
      DayOfYearBounds(a);
      DayOfYearBounds(b);
      YearsAscend(a.year, b.year);
    } else if a.month < b.month {
      MonthsAscend(a.year, a.month, b.month);
    }
  }

  /** A year, month and day come back from their ordinal: with `CivilOf`'s contract, a bijection. */
  lemma CivilOfOrdinal(c: Civil)
    requires IsDate(c)
    ensures Ordinal(c) >= 1 && CivilOf(Ordinal(c)) == c
  {
    if c.year > 1 {
      YearsAscend(1, c.year);
    }
    DayOfYearBounds(c);
    var back := CivilOf(Ordinal(c));
    if back != c {
      if back.year < c.year || (back.year == c.year && (back.month < c.month || (back.month == c.month && back.day < c.day))) {
        OrdinalsAscend(back, c);
      } else {
        OrdinalsAscend(c, back);
      }
    }
  }

  /** The first day of the month after `c`'s: `date(y + m // 12, m % 12 + 1, 1)`. */
  function FirstOfNextMonth(c: Civil): (next: Civil)
    requires IsDate(c)
    ensures IsDate(next)
  {
    Civil(c.year + c.month / 12, c.month % 12 + 1, 1)
  }

  /** It starts the day after the last one of `c`'s month, December's included. */
  lemma NextMonthFollows(c: Civil)
    requires IsDate(c)
    ensures Ordinal(FirstOfNextMonth(c)) - 1 == Ordinal(c.(day := DaysInMonth(c.year, c.month)))
  {
    var next := FirstOfNextMonth(c);
    assert DaysBeforeMonth(next.year, 1) == 0;
    assert DaysBeforeMonth(c.year, c.month + 1) == DaysBeforeMonth(c.year, c.month) + DaysInMonth(c.year, c.month);
    if c.month == 12 {
      assert next == Civil(c.year + 1, 1, 1);
      YearLength(c.year);
      MonthsFillYear(c.year);
    } else {
      assert next == Civil(c.year, c.month + 1, 1);
    }
  }

  /** The days up to the end of the month are its days, and the next one is not. */
  lemma MonthIsAnInterval(start: int, day: int)
    requires 1 <= start <= day
    ensures var c, next := CivilOf(start), Ordinal(FirstOfNextMonth(CivilOf(start)));
            day < next <==> CivilOf(day).year == c.year && CivilOf(day).month == c.month
  {
    hide CivilOf;
    var c, e := CivilOf(start), CivilOf(day);
    var next := FirstOfNextMonth(c);
    NextMonthFollows(c);
    if e.year == c.year && e.month == c.month {
      assert e.day <= DaysInMonth(c.year, c.month);
    } else if e.year < c.year || (e.year == c.year && e.month < c.month) {
      OrdinalsAscend(e, c);
    } else if e != next {
      OrdinalsAscend(next, e);
    }
  }

  /** The day before the next month's first is the last of its month. */
  lemma MonthEnds(day: int)
    requires day >= 1
    ensures var c := CivilOf(day);
            Ordinal(FirstOfNextMonth(c)) >= 2
            && CivilOf(Ordinal(FirstOfNextMonth(c)) - 1) == Civil(c.year, c.month, DaysInMonth(c.year, c.month))
  {
    hide CivilOf, Ordinal, FirstOfNextMonth;
    var c := CivilOf(day);
    var end := Civil(c.year, c.month, DaysInMonth(c.year, c.month));
    NextMonthFollows(c);
    assert Ordinal(FirstOfNextMonth(c)) - 1 == Ordinal(end);
    CivilOfOrdinal(end);
  }
}
