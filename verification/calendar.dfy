/**
 * The proleptic Gregorian calendar of Python's `datetime` (years 1 to
 * 9999), day ordinals as `date.toordinal` counts them (1 January of year 1
 * is day 1), and naive wall-clock values encoded as a minute count.
 */
module Calendar {

  const MinYear := 1
  const MaxYear := 9999

  predicate IsLeap(y: int)
  {
    y % 4 == 0 && (y % 100 != 0 || y % 400 == 0)
  }

  function DaysInMonth(y: int, m: int): (n: int)
    requires 1 <= m <= 12
    ensures 28 <= n <= 31
  {
    if m == 2 then (if IsLeap(y) then 29 else 28)
    else if m == 4 || m == 6 || m == 9 || m == 11 then 30
    else 31
  }

  function YearLength(y: int): int
  {
    if IsLeap(y) then 366 else 365
  }

  datatype Date = Date(year: int, month: int, day: int)

  /** What `datetime.date(year, month, day)` accepts without a ValueError. */
  predicate ValidDate(d: Date)
  {
    && MinYear <= d.year <= MaxYear
    && 1 <= d.month <= 12
    && 1 <= d.day <= DaysInMonth(d.year, d.month)
  }

  /** Days in the years before `y`. */
  function DaysBeforeYear(y: int): int
    requires y >= 1
  {
    var z := y - 1;
    z * 365 + z / 4 - z / 100 + z / 400
  }

  /** Days in the months of year `y` before month `m`. */
  function DaysBeforeMonth(y: int, m: int): int
    requires 1 <= m <= 13
  {
    if m == 1 then 0 else DaysBeforeMonth(y, m - 1) + DaysInMonth(y, m - 1)
  }

  /** `date.toordinal()`. */
  function Ordinal(d: Date): int
    requires ValidDate(d)
  {
    DaysBeforeYear(d.year) + DaysBeforeMonth(d.year, d.month) + d.day
  }

  /** Calendar order: year, then month, then day. */
  predicate DateBefore(a: Date, b: Date)
  {
    a.year < b.year
    || (a.year == b.year && a.month < b.month)
    || (a.year == b.year && a.month == b.month && a.day < b.day)
  }

  /** The months of a year add up to the length of the year. */
  lemma MonthsFillYear(y: int)
    ensures DaysBeforeMonth(y, 13) == YearLength(y)
  {
    var feb := DaysInMonth(y, 2);
    assert DaysBeforeMonth(y, 1) == 0;
    assert DaysBeforeMonth(y, 2) == 31;
    assert DaysBeforeMonth(y, 3) == 31 + feb;
    assert DaysBeforeMonth(y, 4) == 62 + feb;
    assert DaysBeforeMonth(y, 5) == 92 + feb;
    assert DaysBeforeMonth(y, 6) == 123 + feb;
    assert DaysBeforeMonth(y, 7) == 153 + feb;
    assert DaysBeforeMonth(y, 8) == 184 + feb;
    assert DaysBeforeMonth(y, 9) == 215 + feb;
    assert DaysBeforeMonth(y, 10) == 245 + feb;
    assert DaysBeforeMonth(y, 11) == 276 + feb;
    assert DaysBeforeMonth(y, 12) == 306 + feb;
  }

  /** The ordinal formula steps by one year length from one year to the next. */
  lemma NextYear(y: int)
    requires y >= 1
    ensures DaysBeforeYear(y + 1) == DaysBeforeYear(y) + YearLength(y)
  {
    var z := y - 1;
    assert y / 4 == z / 4 + (if y % 4 == 0 then 1 else 0);
    assert y / 100 == z / 100 + (if y % 100 == 0 then 1 else 0);
    assert y / 400 == z / 400 + (if y % 400 == 0 then 1 else 0);
  }

  lemma {:induction false} YearsAccumulate(y1: int, y2: int)
    requires 1 <= y1 < y2
    ensures DaysBeforeYear(y1) + YearLength(y1) <= DaysBeforeYear(y2)
    decreases y2 - y1
  {
    NextYear(y1);
    if y1 + 1 < y2 {
      YearsAccumulate(y1 + 1, y2);
    }
  }

  lemma {:induction false} MonthsAccumulate(y: int, m1: int, m2: int)
    requires 1 <= m1 < m2 <= 13
    ensures DaysBeforeMonth(y, m1) + DaysInMonth(y, m1) <= DaysBeforeMonth(y, m2)
    decreases m2 - m1
  {
    if m1 + 1 < m2 {
      MonthsAccumulate(y, m1 + 1, m2);
    }
  }

  /** Ordinals follow calendar order. */
  lemma OrdinalFollowsCalendar(a: Date, b: Date)
    requires ValidDate(a) && ValidDate(b) && DateBefore(a, b)
    ensures Ordinal(a) < Ordinal(b)
  {
    if a.year < b.year {
      MonthsAccumulate(a.year, a.month, 13);
      MonthsFillYear(a.year);
      YearsAccumulate(a.year, b.year);
      if b.month > 1 {
        MonthsAccumulate(b.year, 1, b.month);
      }
    } else if a.month < b.month {
      MonthsAccumulate(a.year, a.month, b.month);
    }
  }

  /** A naive `datetime` with seconds and microseconds zero. */
  datatype Wall = Wall(date: Date, hour: int, minute: int)

  predicate ValidWall(w: Wall)
  {
    ValidDate(w.date) && 0 <= w.hour < 24 && 0 <= w.minute < 60
  }

  predicate WallBefore(a: Wall, b: Wall)
  {
    DateBefore(a.date, b.date)
    || (a.date == b.date && a.hour < b.hour)
    || (a.date == b.date && a.hour == b.hour && a.minute < b.minute)
  }

  /** Minutes from 0001-01-01 00:00 to the wall-clock value. */
  function WallMinutes(w: Wall): int
    requires ValidWall(w)
  {
    (Ordinal(w.date) - 1) * 1440 + w.hour * 60 + w.minute
  }

  /** The minute count orders wall-clock values exactly as the calendar
      does, so it is also one-to-one: comparing counts is comparing
      datetimes. */
  lemma WallMinutesOrder(a: Wall, b: Wall)
    requires ValidWall(a) && ValidWall(b)
    ensures WallBefore(a, b) <==> WallMinutes(a) < WallMinutes(b)
    ensures a == b <==> WallMinutes(a) == WallMinutes(b)
  {
    if DateBefore(a.date, b.date) {
      OrdinalFollowsCalendar(a.date, b.date);
    } else if DateBefore(b.date, a.date) {
      OrdinalFollowsCalendar(b.date, a.date);
    }
  }
}
