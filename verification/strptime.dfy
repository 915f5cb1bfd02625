/**
 * `datetime.strptime` for the two formats the bot uses, `%d.%m.%Y` and
 * `%H:%M`. Each directive is a regular expression that the whole input
 * must match; a match that leaves characters over, a field out of range
 * or a day the month does not have raises ValueError (here: None).
 *
 *   %d  3[01] | [12]\d | 0[1-9] | [1-9] | ' '[1-9]
 *   %m  1[0-2] | 0[1-9] | [1-9]
 *   %Y  \d\d\d\d
 *   %H  2[0-3] | [0-1]\d | \d
 *   %M  [0-5]\d | \d
 *
 * So a one-digit day, month, hour or minute is accepted as well as the
 * zero-padded form, and a day may also be written as a space and a digit.
 */
module Strptime {
  import opened Wrappers
  import opened Tokens
  import opened Calendar

  predicate IsDigit(c: char)
  {
    '0' <= c <= '9'
  }

  function Digit(n: nat): (c: char)
    requires n < 10
    ensures IsDigit(c)
  {
    (48 + n) as char
  }

  function DigitValue(c: char): (n: nat)
    requires IsDigit(c)
    ensures n < 10 && Digit(n) == c
  {
    (c as int) - 48
  }

  /** `"%02d" % n` */
  function Pad2(n: nat): string
    requires n < 100
  {
    [Digit(n / 10), Digit(n % 10)]
  }

  /** `"%04d" % n` */
  function Pad4(n: nat): string
    requires n < 10000
  {
    Pad2(n / 100) + Pad2(n % 100)
  }

  lemma Pad2Injective(a: nat, b: nat)
    requires a < 100 && b < 100 && Pad2(a) == Pad2(b)
    ensures a == b
  {
    assert Digit(a / 10) == Digit(b / 10) && Digit(a % 10) == Digit(b % 10);
  }

  lemma Pad4Injective(a: nat, b: nat)
    requires a < 10000 && b < 10000 && Pad4(a) == Pad4(b)
    ensures a == b
  {
    assert Pad4(a)[..2] == Pad2(a / 100) && Pad4(b)[..2] == Pad2(b / 100);
    assert Pad4(a)[2..] == Pad2(a % 100) && Pad4(b)[2..] == Pad2(b % 100);
    Pad2Injective(a / 100, b / 100);
    Pad2Injective(a % 100, b % 100);
  }

  /** `"%d" % n` */
  function Unpadded(n: nat): string
    requires n < 100
  {
    if n < 10 then [Digit(n)] else Pad2(n)
  }

  /** The spellings one of %d, %m, %H, %M accepts for the value `v` in
      `lo..hi`: zero-padded, without padding, and (only %d, `spaced`)
      a space before a single digit. */
  predicate FieldText(s: string, v: int, lo: nat, hi: nat, spaced: bool)
    requires hi < 100
  {
    && lo <= v <= hi
    && (s == Pad2(v) || s == Unpadded(v) || (spaced && v < 10 && s == [' ', Digit(v)]))
  }

  /** One of %d, %m, %H, %M matched against a whole field. */
  function ParseField(s: string, lo: nat, hi: nat, spaced: bool): (r: Option<nat>)
    requires hi < 100
    ensures r.Some? ==> FieldText(s, r.value, lo, hi, spaced)
  {
    if |s| == 1 && IsDigit(s[0]) && lo <= DigitValue(s[0]) <= hi then
      Some(DigitValue(s[0]))
    else if |s| == 2 && spaced && s[0] == ' ' && IsDigit(s[1]) && lo <= DigitValue(s[1]) <= hi then
      Some(DigitValue(s[1]))
    else if |s| == 2 && IsDigit(s[0]) && IsDigit(s[1]) then
      var v := 10 * DigitValue(s[0]) + DigitValue(s[1]);
      assert s == Pad2(v);
      if lo <= v <= hi then Some(v) else None
    else
      None
  }

  /** Every accepted spelling parses back to its value. */
  lemma ParseFieldComplete(s: string, v: nat, lo: nat, hi: nat, spaced: bool)
    requires hi < 100 && FieldText(s, v, lo, hi, spaced)
    ensures ParseField(s, lo, hi, spaced) == Some(v)
  {
    if s == Pad2(v) {
      assert DigitValue(s[0]) == v / 10 && DigitValue(s[1]) == v % 10;
    }
  }

  predicate YearText(s: string, v: nat)
  {
    v < 10000 && s == Pad4(v)
  }

  function TwoDigits(s: string): (v: nat)
    requires |s| == 2 && IsDigit(s[0]) && IsDigit(s[1])
    ensures v < 100 && Pad2(v) == s
  {
    10 * DigitValue(s[0]) + DigitValue(s[1])
  }

  /** %Y: exactly four digits. */
  function ParseYear(s: string): (r: Option<nat>)
    ensures r.Some? ==> YearText(s, r.value)
  {
    if |s| == 4 && IsDigit(s[0]) && IsDigit(s[1]) && IsDigit(s[2]) && IsDigit(s[3]) then
      var hi, lo := TwoDigits(s[..2]), TwoDigits(s[2..]);
      Split100(hi, lo);
      assert s == s[..2] + s[2..];
      Some(100 * hi + lo)
    else
      None
  }

  lemma Split100(hi: nat, lo: nat)
    requires hi < 100 && lo < 100
    ensures (100 * hi + lo) / 100 == hi && (100 * hi + lo) % 100 == lo
  {
  }

  lemma ParseYearComplete(s: string, v: nat)
    requires YearText(s, v)
    ensures ParseYear(s) == Some(v)
  {
    assert s[..2] == Pad2(v / 100) && s[2..] == Pad2(v % 100);
    assert TwoDigits(Pad2(v / 100)) == v / 100;
    assert TwoDigits(Pad2(v % 100)) == v % 100;
  }

  const DayLo := 1
  const DayHi := 31
  const MonthLo := 1
  const MonthHi := 12
  const HourHi := 23
  const MinuteHi := 59

  /** `datetime.strptime(s, "%d.%m.%Y").date()`. */
  function ParseDate(s: string): (r: Option<Date>)
    ensures r.Some? ==> ValidDate(r.value)
    ensures r.Some? ==>
      var p := Split(s, '.', 2);
      && |p| == 3
      && s == p[0] + "." + p[1] + "." + p[2]
      && FieldText(p[0], r.value.day, DayLo, DayHi, true)
      && FieldText(p[1], r.value.month, MonthLo, MonthHi, false)
      && YearText(p[2], r.value.year)
  {
    var p := Split(s, '.', 2);
    if |p| < 3 then None
    else
      JoinThree(p, '.');
      match (ParseField(p[0], DayLo, DayHi, true), ParseField(p[1], MonthLo, MonthHi, false), ParseYear(p[2]))
      case (Some(d), Some(m), Some(y)) =>
        if ValidDate(Date(y, m, d)) then Some(Date(y, m, d)) else None
      case _ => None
  }

  datatype Clock = Clock(hour: nat, minute: nat)

  /** `datetime.strptime(s, "%H:%M").time()`. */
  function ParseTime(s: string): (r: Option<Clock>)
    ensures r.Some? ==> r.value.hour <= HourHi && r.value.minute <= MinuteHi
    ensures r.Some? ==>
      var p := Split(s, ':', 1);
      && |p| == 2
      && s == p[0] + ":" + p[1]
      && FieldText(p[0], r.value.hour, 0, HourHi, false)
      && FieldText(p[1], r.value.minute, 0, MinuteHi, false)
  {
    var p := Split(s, ':', 1);
    if |p| < 2 then None
    else
      JoinStep(p, ':');
      assert p[1..] == [p[1]];
      match (ParseField(p[0], 0, HourHi, false), ParseField(p[1], 0, MinuteHi, false))
      case (Some(h), Some(m)) => Some(Clock(h, m))
      case _ => None
  }

  lemma NoSeparatorInField(s: string, v: nat, lo: nat, hi: nat, spaced: bool, sep: char)
    requires hi < 100 && FieldText(s, v, lo, hi, spaced) && !IsDigit(sep) && sep != ' '
    ensures sep !in s
  {
  }

  /** A date written with accepted spellings parses, and to exactly the
      written fields, if and only if the calendar has that day. */
  lemma ParseDateComplete(ds: string, ms: string, d: Date)
    requires FieldText(ds, d.day, DayLo, DayHi, true)
    requires FieldText(ms, d.month, MonthLo, MonthHi, false)
    requires 0 <= d.year < 10000
    ensures ParseDate(ds + "." + ms + "." + Pad4(d.year)) == if ValidDate(d) then Some(d) else None
  {
    var s := ds + "." + ms + "." + Pad4(d.year);
    var p := [ds, ms, Pad4(d.year)];
    NoSeparatorInField(ds, d.day, DayLo, DayHi, true, '.');
    NoSeparatorInField(ms, d.month, MonthLo, MonthHi, false, '.');
    JoinThree(p, '.');
    SplitUnique(s, '.', 2, p);
    ParseFieldComplete(ds, d.day, DayLo, DayHi, true);
    ParseFieldComplete(ms, d.month, MonthLo, MonthHi, false);
    ParseYearComplete(Pad4(d.year), d.year);
  }

  /** A time written with accepted spellings parses to exactly the written fields. */
  lemma ParseTimeComplete(hs: string, ms: string, c: Clock)
    requires FieldText(hs, c.hour, 0, HourHi, false)
    requires FieldText(ms, c.minute, 0, MinuteHi, false)
    ensures ParseTime(hs + ":" + ms) == Some(c)
  {
    var p := [hs, ms];
    NoSeparatorInField(hs, c.hour, 0, HourHi, false, ':');
    JoinStep(p, ':');
    assert p[1..] == [ms];
    SplitUnique(hs + ":" + ms, ':', 1, p);
    ParseFieldComplete(hs, c.hour, 0, HourHi, false);
    ParseFieldComplete(ms, c.minute, 0, MinuteHi, false);
  }

  /** The 31st of February 2024 is refused. */
  lemma NoThirtyFirstOfFebruary()
    ensures ParseDate("31.02.2024") == None
  {
    assert Pad4(2024) == "2024";
    assert "31.02.2024" == "31" + "." + "02" + "." + Pad4(2024);
    assert Pad2(31) == "31" && Pad2(2) == "02";
    ParseDateComplete("31", "02", Date(2024, 2, 31));
  }

  /** The 29th of February exists in the leap year 2024 ... */
  lemma LeapDay()
    ensures ParseDate("29.02.2024") == Some(Date(2024, 2, 29))
  {
    assert Pad4(2024) == "2024";
    assert "29.02.2024" == "29" + "." + "02" + "." + Pad4(2024);
    assert Pad2(29) == "29" && Pad2(2) == "02";
    assert IsLeap(2024) && ValidDate(Date(2024, 2, 29));
    ParseDateComplete("29", "02", Date(2024, 2, 29));
  }

  /** ... and not in 2023, whichever spelling of the month is used. */
  lemma NoLeapDay()
    ensures ParseDate("29.2.2023") == None
  {
    assert Pad4(2023) == "2023";
    assert "29.2.2023" == "29" + "." + "2" + "." + Pad4(2023);
    assert Pad2(29) == "29" && Unpadded(2) == "2";
    ParseDateComplete("29", "2", Date(2023, 2, 29));
  }

  datatype DateTimeError = BadDate | BadTime

  /** `parse_datetime`: the date is read first, so a bad date is reported
      even when the time is bad too. */
  function ParseDateTime(dateText: string, timeText: string): (r: Result<Wall, DateTimeError>)
    ensures r.Ok? ==> ValidWall(r.value)
    ensures r.Ok? <==> ParseDate(dateText).Some? && ParseTime(timeText).Some?
    ensures r.Ok? ==>
              && ParseDate(dateText) == Some(r.value.date)
              && ParseTime(timeText) == Some(Clock(r.value.hour, r.value.minute))
    ensures r == Err(BadDate) <==> ParseDate(dateText).None?
  {
    match ParseDate(dateText)
    case None => Err(BadDate)
    case Some(d) =>
      match ParseTime(timeText)
      case None => Err(BadTime)
      case Some(c) => Ok(Wall(d, c.hour, c.minute))
  }
}
