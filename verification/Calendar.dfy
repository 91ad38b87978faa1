/** The proleptic Gregorian calendar as ECMA-262 section 21.4.1 counts it, in days and milliseconds since 1970. */
module Calendar {
  datatype Civil = Civil(year: int, month: int, day: int)

  datatype Clock = Clock(hour: int, minute: int, second: int)

  predicate IsLeap(y: int) {
    y % 4 == 0 && (y % 100 != 0 || y % 400 == 0)
  }

  function DaysInMonth(y: int, m: int): int {
    if m == 2 then (if IsLeap(y) then 29 else 28)
    else if m == 4 || m == 6 || m == 9 || m == 11 then 30
    else 31
  }

  /** A date that exists. */
  predicate IsDate(c: Civil) {
    1 <= c.month <= 12 && 1 <= c.day <= DaysInMonth(c.year, c.month)
  }

  predicate IsTime(t: Clock) {
    0 <= t.hour <= 23 && 0 <= t.minute <= 59 && 0 <= t.second <= 59
  }

  // ---------------------------------------------------------------- counting days

  function DayFromYear(y: int): int {
    365 * (y - 1970) + (y - 1969) / 4 - (y - 1901) / 100 + (y - 1601) / 400
  }

  function DaysInYear(y: int): int {
    if IsLeap(y) then 366 else 365
  }

  lemma FloorStep(x: int, n: int)
    requires n > 0
    ensures (x + 1) / n - x / n == if (x + 1) % n == 0 then 1 else 0
  {
    var q := x / n;
    assert x == q * n + x % n;
    if x % n == n - 1 {
      assert x + 1 == (q + 1) * n;
      DivUnique(x + 1, n, q + 1, 0);
    } else {
      DivUnique(x + 1, n, q, x % n + 1);
    }
  }

  lemma DivUnique(x: int, n: int, q: int, r: int)
    requires n > 0 && x == q * n + r && 0 <= r < n
    ensures x / n == q && x % n == r
  {
    var d := x / n - q;
    assert x == x / n * n + x % n;
    assert d * n == r - x % n;
    if d != 0 {
      AtLeastOne(d, n);
    }
  }

  lemma AtLeastOne(d: int, n: int)
    requires n > 0 && d != 0
    ensures d * n >= n || d * n <= -n
  {
  }

  lemma ModShift(y: int, k: int, n: int)
    requires n > 0
    ensures (y - k * n) % n == y % n
  {
    DivUnique(y - k * n, n, y / n - k, y % n);
  }

  /** Passing a year counts it exactly when it is a multiple of `n`. */
  lemma CountsMultiple(y: int, k: int, n: int)
    requires n > 0
    ensures (y - k * n) / n - (y - k * n - 1) / n == if y % n == 0 then 1 else 0
  {
    FloorStep(y - k * n - 1, n);
    ModShift(y, k, n);
  }

  lemma CenturiesAreFours(y: int)
    ensures y % 400 == 0 ==> y % 100 == 0
    ensures y % 100 == 0 ==> y % 4 == 0
  {
    if y % 400 == 0 {
      DivUnique(y, 100, y / 400 * 4, 0);
    }
    if y % 100 == 0 {
      DivUnique(y, 4, y / 100 * 25, 0);
    }
  }

  lemma YearLength(y: int)
    ensures DayFromYear(y + 1) - DayFromYear(y) == DaysInYear(y)
  {
    hide IsLeap;
    CountsMultiple(y, 492, 4);
    CountsMultiple(y, 19, 100);
    CountsMultiple(y, 4, 400);
    LeapIs(y);
  }

  lemma LeapIs(y: int)
    ensures (if IsLeap(y) then 1 else 0)
      == (if y % 4 == 0 then 1 else 0) - (if y % 100 == 0 then 1 else 0) + (if y % 400 == 0 then 1 else 0)
  {
    CenturiesAreFours(y);
  }

  lemma {:induction false} YearsIncrease(a: int, b: int)
    requires a < b
    ensures DayFromYear(a) + 365 * (b - a) <= DayFromYear(b)
    decreases b - a
  {
    YearLength(b - 1);
    if a < b - 1 {
      YearsIncrease(a, b - 1);
    }
  }

  /** Searching down for the year a day lies in. */
  function YearDown(day: int, y: int): (r: int)
    requires day < DayFromYear(y + 1)
    ensures DayFromYear(r) <= day < DayFromYear(r + 1)
    decreases DayFromYear(y + 1) - day
  {
    if DayFromYear(y) <= day then y
    else
      YearLength(y);
      YearDown(day, y - 1)
  }

  function YearBound(day: int): (y: int)
    ensures day < DayFromYear(y + 1)
  {
    var y := if day >= 0 then 1970 + day / 365 else 1969;
    assert DayFromYear(1970) == 0;
    assert day < DayFromYear(y + 1) by {
      if day >= 0 {
        YearsIncrease(1970, y + 1);
      }
    }
    y
  }

  function YearOf(day: int): (y: int)
    ensures DayFromYear(y) <= day < DayFromYear(y + 1)
  {
    YearDown(day, YearBound(day))
  }

  lemma YearIs(day: int, y: int)
    requires DayFromYear(y) <= day < DayFromYear(y + 1)
    ensures YearOf(day) == y
  {
    hide DayFromYear;
    var r := YearOf(day);
    if r < y {
      if r + 1 < y {
        YearsIncrease(r + 1, y);
      }
    } else if y < r {
      if y + 1 < r {
        YearsIncrease(y + 1, r);
      }
    }
  }

  /** Days of the year before the first of month `m`; the year's length for month thirteen. */
  function DaysBefore(y: int, m: int): int
    requires 1 <= m <= 13
    decreases m
  {
    if m == 1 then 0 else DaysBefore(y, m - 1) + DaysInMonth(y, m - 1)
  }

  lemma YearIsItsMonths(y: int)
    ensures DaysBefore(y, 13) == DaysInYear(y)
  {
  }

  lemma {:induction false} MonthsIncrease(y: int, a: int, b: int)
    requires 1 <= a < b <= 13
    ensures DaysBefore(y, a) + DaysInMonth(y, a) <= DaysBefore(y, b)
    decreases b
  {
    if a + 1 < b {
      MonthsIncrease(y, a, b - 1);
    }
  }

  function MonthDown(y: int, doy: int, m: int): (r: int)
    requires 1 <= m <= 12 && 0 <= doy < DaysBefore(y, m + 1)
    ensures 1 <= r <= 12 && DaysBefore(y, r) <= doy < DaysBefore(y, r + 1)
    decreases m
  {
    if DaysBefore(y, m) <= doy then m else MonthDown(y, doy, m - 1)
  }

  function DayFromDate(c: Civil): int
    requires 1 <= c.month <= 12
  {
    DayFromYear(c.year) + DaysBefore(c.year, c.month) + c.day - 1
  }

  function CivilOf(day: int): (c: Civil)
    ensures 1 <= c.month <= 12
  {
    var y := YearOf(day);
    YearLength(y);
    YearIsItsMonths(y);
    var doy := day - DayFromYear(y);
    var m := MonthDown(y, doy, 12);
    Civil(y, m, doy - DaysBefore(y, m) + 1)
  }

  /** Every day is a date that exists, and counts back to itself. */
  lemma CivilIsDate(day: int)
    ensures IsDate(CivilOf(day)) && DayFromDate(CivilOf(day)) == day
  {
  }

  lemma CivilParts(day: int)
    ensures var c := CivilOf(day);
      && c.year == YearOf(day)
      && DaysBefore(c.year, c.month) <= day - DayFromYear(c.year) < DaysBefore(c.year, c.month + 1)
      && day == DayFromDate(c)
  {
  }

  lemma DateIsInItsMonth(c: Civil)
    requires IsDate(c)
    ensures DayFromYear(c.year) <= DayFromDate(c) < DayFromYear(c.year + 1)
    ensures DaysBefore(c.year, c.month) <= DayFromDate(c) - DayFromYear(c.year) < DaysBefore(c.year, c.month + 1)
  {
    hide DayFromYear, DaysInMonth, IsLeap;
    YearLength(c.year);
    YearIsItsMonths(c.year);
    assert DaysBefore(c.year, c.month + 1) == DaysBefore(c.year, c.month) + DaysInMonth(c.year, c.month);
    if c.month < 12 {
      MonthsIncrease(c.year, c.month, 13);
    }
    MonthsStart(c.year, c.month);
  }

  /** Counting a date and reading it back gives the date, exactly when it exists. */
  lemma ReadBackIff(c: Civil)
    requires 1 <= c.month <= 12 && c.day >= 1
    ensures CivilOf(DayFromDate(c)) == c <==> IsDate(c)
  {
    hide DayFromYear, DaysBefore, CivilOf, YearOf;
    var day := DayFromDate(c);
    CivilIsDate(day);
    if IsDate(c) {
      DateIsInItsMonth(c);
      YearIs(day, c.year);
      CivilParts(day);
      MonthIs(c.year, day - DayFromYear(c.year), CivilOf(day).month, c.month);
    }
  }

  lemma {:induction false} MonthsStart(y: int, m: int)
    requires 1 <= m <= 13
    ensures DaysBefore(y, m) >= 0
    decreases m
  {
  }

  lemma MonthIs(y: int, doy: int, a: int, b: int)
    requires 1 <= a <= 12 && 1 <= b <= 12
    requires DaysBefore(y, a) <= doy < DaysBefore(y, a + 1) && DaysBefore(y, b) <= doy < DaysBefore(y, b + 1)
    ensures a == b
  {
    if a < b {
      MonthsIncrease(y, a, b);
    } else if b < a {
      MonthsIncrease(y, b, a);
    }
  }

  // ---------------------------------------------------------------- instants

  const MS_PER_DAY := 86_400_000
  const DHAKA_OFFSET_MS := 6 * 60 * 60_000

  datatype Fields = Fields(date: Civil, time: Clock)

  function MsOfTime(t: Clock): int {
    t.hour * 3_600_000 + t.minute * 60_000 + t.second * 1000
  }

  function TimeOfMs(ms: int): Clock
    requires 0 <= ms < MS_PER_DAY
  {
    Clock(ms / 3_600_000, ms / 60_000 % 60, ms / 1000 % 60)
  }

  lemma TimeReadsBack(t: Clock, rest: int)
    requires IsTime(t) && 0 <= rest < 1000
    ensures 0 <= MsOfTime(t) + rest < MS_PER_DAY && TimeOfMs(MsOfTime(t) + rest) == t
  {
    var ms := MsOfTime(t) + rest;
    DivUnique(ms, 3_600_000, t.hour, t.minute * 60_000 + t.second * 1000 + rest);
    DivUnique(ms, 60_000, t.hour * 60 + t.minute, t.second * 1000 + rest);
    DivUnique(t.hour * 60 + t.minute, 60, t.hour, t.minute);
    DivUnique(ms, 1000, t.hour * 3600 + t.minute * 60 + t.second, rest);
    DivUnique(t.hour * 3600 + t.minute * 60 + t.second, 60, t.hour * 60 + t.minute, t.second);
  }

  /** `Date.UTC` reads a year from 0 to 99 as a year of the twentieth century (section 21.4.3.4). */
  function FullYear(y: int): int {
    if 0 <= y <= 99 then 1900 + y else y
  }

  /** The instant `Date.UTC` gives for Dhaka-local fields, shifted to UTC. */
  function InstantOf(f: Fields): int
    requires 1 <= f.date.month <= 12
  {
    DayFromDate(f.date.(year := FullYear(f.date.year))) * MS_PER_DAY + MsOfTime(f.time) - DHAKA_OFFSET_MS
  }

  /** The Dhaka-local fields of an instant. */
  function DhakaComponents(ms: int): Fields {
    var local := ms + DHAKA_OFFSET_MS;
    Fields(CivilOf(local / MS_PER_DAY), TimeOfMs(local % MS_PER_DAY))
  }

  lemma ComponentsOf(f: Fields)
    requires 1 <= f.date.month <= 12 && IsTime(f.time)
    ensures DhakaComponents(InstantOf(f))
      == Fields(CivilOf(DayFromDate(f.date.(year := FullYear(f.date.year)))), f.time)
  {
    hide CivilOf, DayFromDate, TimeOfMs, MsOfTime;
    var day := DayFromDate(f.date.(year := FullYear(f.date.year)));
    TimeReadsBack(f.time, 0);
    DivUnique(InstantOf(f) + DHAKA_OFFSET_MS, MS_PER_DAY, day, MsOfTime(f.time));
  }

  /** Fields read back from their instant exactly when they name a date that exists, from the year 100 on. */
  lemma FieldsReadBackIff(f: Fields)
    requires 1 <= f.date.month <= 12 && f.date.day >= 1 && f.date.year >= 0 && IsTime(f.time)
    ensures DhakaComponents(InstantOf(f)) == f <==> IsDate(f.date) && f.date.year >= 100
  {
    hide CivilOf, DayFromDate, IsDate, DhakaComponents, InstantOf;
    var full := f.date.(year := FullYear(f.date.year));
    ComponentsOf(f);
    ReadBackIff(full);
    if f.date.year < 100 {
      CivilNotTwoDigits(full, f.date);
    }
  }

  lemma CivilNotTwoDigits(full: Civil, date: Civil)
    requires full == date.(year := date.year + 1900) && 0 <= date.year <= 99
    requires 1 <= date.month <= 12 && 1 <= date.day
    ensures CivilOf(DayFromDate(full)) != date
  {
    var back := CivilOf(DayFromDate(full));
    CivilIsDate(DayFromDate(full));
    if back == date {
      YearsIncrease(date.year, full.year);
      YearIsItsMonths(date.year);
      MonthsIncrease(date.year, date.month, 13);
      MonthsStart(full.year, full.month);
      assert false;
    }
  }

  lemma TimeWritesBack(ms: int)
    requires 0 <= ms < MS_PER_DAY && ms % 1000 == 0
    ensures MsOfTime(TimeOfMs(ms)) == ms && IsTime(TimeOfMs(ms))
  {
    var s := ms / 1000;
    var m := s / 60;
    assert ms == 1000 * s && s == 60 * m + s % 60 && m == 60 * (m / 60) + m % 60;
    DivUnique(ms, 60_000, m, s % 60 * 1000);
    DivUnique(ms, 3_600_000, m / 60, m % 60 * 60_000 + s % 60 * 1000);
  }

  /** And an instant on a whole second reads back from its fields, when its year has more than two digits. */
  lemma InstantReadsBack(ms: int)
    requires ms % 1000 == 0 && DhakaComponents(ms).date.year >= 100
    ensures InstantOf(DhakaComponents(ms)) == ms && IsDate(DhakaComponents(ms).date) && IsTime(DhakaComponents(ms).time)
  {
    hide CivilOf, DayFromDate, TimeOfMs, MsOfTime, IsDate, IsTime;
    var local := ms + DHAKA_OFFSET_MS;
    CivilIsDate(local / MS_PER_DAY);
    var t := local % MS_PER_DAY;
    assert local == local / MS_PER_DAY * MS_PER_DAY + t;
    assert t % 1000 == 0;
    TimeWritesBack(t);
  }

  /** The months have their usual lengths, February by the Gregorian rule. */
  lemma MonthLengths(y: int, m: int)
    requires 1 <= m <= 12
    ensures var leap := y % 400 == 0 || (y % 4 == 0 && y % 100 != 0);
      var next := if m == 12 then Civil(y + 1, 1, 1) else Civil(y, m + 1, 1);
      DayFromDate(next) - DayFromDate(Civil(y, m, 1))
        == [31, if leap then 29 else 28, 31, 30, 31, 30, 31, 31, 30, 31, 30, 31][m - 1]
  {
    hide DayFromYear;
    CenturiesAreFours(y);
    YearLength(y);
    YearIsItsMonths(y);
  }

  /** 27 July 2026, 10:15 in Dhaka, is 04:15 universal time. */
  lemma KnownInstant()
    ensures InstantOf(Fields(Civil(2026, 7, 27), Clock(10, 15, 0))) == 1_785_125_700_000
  {
    assert DaysBefore(2026, 2) == 31 && DaysBefore(2026, 3) == 59 && DaysBefore(2026, 4) == 90;
    assert DaysBefore(2026, 5) == 120 && DaysBefore(2026, 6) == 151 && DaysBefore(2026, 7) == 181;
  }
}
