/** Week and date arithmetic of the week plan. An instant is a JavaScript time value:
    integer milliseconds since 1970-01-01T00:00:00Z. The local time zone is taken to
    be UTC, so the local calendar date of an instant is its UTC date. Days are numbered
    from 1970-01-01 (day 0, a Thursday); the proleptic Gregorian calendar is used for
    every year, as JavaScript's Date does. */
module Calendar {
  import opened Strings

  const MsPerDay: int := 86_400_000
  /** `7 * 24 * 60 * 60 * 1000`, the step of the previous/next week buttons. */
  const MsPerWeek: int := 7 * MsPerDay

  /** The day holding instant `t` (floor division, also before 1970). */
  function DayNumber(t: int): int {
    t / MsPerDay
  }

  /** `getDay()`: 0 for Sunday up to 6 for Saturday. */
  function JsDay(day: int): (r: int)
    ensures 0 <= r < 7
  {
    (day + 4) % 7
  }

  /** `(getDay() + 6) % 7`: 0 for Monday up to 6 for Sunday. */
  function MondayIndex(day: int): (r: int)
    ensures 0 <= r < 7
    ensures r == (day + 3) % 7
  {
    (JsDay(day) + 6) % 7
  }

  predicate IsMonday(day: int) {
    MondayIndex(day) == 0
  }

  /** Two Mondays are a whole number of weeks apart. */
  lemma MondaysWeeksApart(a: int, b: int)
    requires IsMonday(a) && IsMonday(b)
    ensures (a - b) % 7 == 0
  {
    var qa, qb := (a + 3) / 7, (b + 3) / 7;
    assert a + 3 == 7 * qa;
    assert b + 3 == 7 * qb;
    assert a - b == 7 * (qa - qb);
  }

  /** Only one Monday lies in any stretch of seven days. */
  lemma MondayUnique(a: int, b: int, d: int)
    requires IsMonday(a) && IsMonday(b)
    requires a <= d < a + 7 && b <= d < b + 7
    ensures a == b
  {
    MondaysWeeksApart(a, b);
  }

  /** The Monday of the Monday-to-Sunday week holding `day`. */
  function MondayOf(day: int): (r: int)
    ensures IsMonday(r) && r <= day < r + 7
  {
    day - MondayIndex(day)
  }

  /** `startOfWeek`: the Monday at midnight of the week holding `t`. */
  function StartOfWeek(t: int): (r: int)
    ensures r % MsPerDay == 0 && IsMonday(DayNumber(r))
    ensures r <= t < r + MsPerWeek
  {
    var m := MondayOf(DayNumber(t));
    assert DayNumber(m * MsPerDay) == m;
    m * MsPerDay
  }

  /** Reference definition: `t1` and `t2` fall in the same Monday-to-Sunday week. */
  ghost predicate SameWeek(t1: int, t2: int) {
    exists m :: IsMonday(m) && m * MsPerDay <= t1 < (m + 7) * MsPerDay && m * MsPerDay <= t2 < (m + 7) * MsPerDay
  }

  /** The start of the week is the midnight of the one Monday whose week holds `t`. */
  lemma StartOfWeekIsMonday(t: int, m: int)
    requires IsMonday(m) && m * MsPerDay <= t < (m + 7) * MsPerDay
    ensures StartOfWeek(t) == m * MsPerDay
  {
    var d := DayNumber(t);
    assert m <= d < m + 7;
    MondayUnique(m, MondayOf(d), d);
  }

  /** Two instants have the same start of week exactly when they lie in the same week. */
  lemma StartOfWeekSameWeek(t1: int, t2: int)
    ensures StartOfWeek(t1) == StartOfWeek(t2) <==> SameWeek(t1, t2)
  {
    if StartOfWeek(t1) == StartOfWeek(t2) {
      var m := DayNumber(StartOfWeek(t1));
      assert StartOfWeek(t1) == m * MsPerDay;
      assert IsMonday(m) && m * MsPerDay <= t1 < (m + 7) * MsPerDay && m * MsPerDay <= t2 < (m + 7) * MsPerDay;
    }
    if SameWeek(t1, t2) {
      var m :| IsMonday(m) && m * MsPerDay <= t1 < (m + 7) * MsPerDay && m * MsPerDay <= t2 < (m + 7) * MsPerDay;
      StartOfWeekIsMonday(t1, m);
      StartOfWeekIsMonday(t2, m);
    }
  }

  /** `startOfWeek` is idempotent. */
  lemma StartOfWeekIdempotent(t: int)
    ensures StartOfWeek(StartOfWeek(t)) == StartOfWeek(t)
  {
    var r := StartOfWeek(t);
    var m := DayNumber(r);
    assert r == m * MsPerDay;
    StartOfWeekIsMonday(r, m);
  }

  /** The next-week button moves the start of the week seven days on. */
  lemma StartOfNextWeek(t: int)
    ensures StartOfWeek(t + MsPerWeek) == StartOfWeek(t) + MsPerWeek
  {
    var d := DayNumber(t);
    assert DayNumber(t + MsPerWeek) == d + 7;
    assert MondayIndex(d + 7) == MondayIndex(d);
  }

  /** The previous-week button moves the start of the week seven days back. */
  lemma StartOfPrevWeek(t: int)
    ensures StartOfWeek(t - MsPerWeek) == StartOfWeek(t) - MsPerWeek
  {
    var d := DayNumber(t);
    assert DayNumber(t - MsPerWeek) == d - 7;
    assert MondayIndex(d - 7) == MondayIndex(d);
  }

  // ----- the civil calendar

  predicate IsLeapYear(y: int) {
    y % 4 == 0 && (y % 100 != 0 || y % 400 == 0)
  }

  function DaysInYear(y: int): int {
    if IsLeapYear(y) then 366 else 365
  }

  /** The number of leap years in 1 .. y - 1 (negative for y < 1, with floor division). */
  function LeapYearsBefore(y: int): int {
    (y - 1) / 4 - (y - 1) / 100 + (y - 1) / 400
  }

  /** The day number of 1 January of year `y`. */
  function YearStart(y: int): int {
    365 * (y - 1970) + LeapYearsBefore(y) - LeapYearsBefore(1970)
  }

  lemma FloorStep4(y: int)
    ensures y / 4 - (y - 1) / 4 == (if y % 4 == 0 then 1 else 0)
  {
  }

  lemma FloorStep100(y: int)
    ensures y / 100 - (y - 1) / 100 == (if y % 100 == 0 then 1 else 0)
  {
  }

  lemma FloorStep400(y: int)
    ensures y / 400 - (y - 1) / 400 == (if y % 400 == 0 then 1 else 0)
  {
  }

  lemma DivisorChain(y: int)
    ensures y % 400 == 0 ==> y % 100 == 0
    ensures y % 100 == 0 ==> y % 4 == 0
  {
    if y % 400 == 0 {
      MultipleOf100(y, 4 * (y / 400));
    }
    if y % 100 == 0 {
      MultipleOf4(y, 25 * (y / 100));
    }
  }

  lemma MultipleOf100(y: int, e: int)
    requires y == 100 * e
    ensures y % 100 == 0
  {
  }

  lemma MultipleOf4(y: int, e: int)
    requires y == 4 * e
    ensures y % 4 == 0
  {
  }

  /** Each year is as long as `DaysInYear` says. */
  lemma YearStartStep(y: int)
    ensures YearStart(y + 1) == YearStart(y) + DaysInYear(y)
  {
    FloorStep4(y);
    FloorStep100(y);
    FloorStep400(y);
    DivisorChain(y);
    assert LeapYearsBefore(y + 1) - LeapYearsBefore(y) == (if IsLeapYear(y) then 1 else 0);
  }

  lemma {:induction false} YearStartMonotone(a: int, b: int)
    requires a < b
    ensures YearStart(a + 1) <= YearStart(b)
    decreases b - a
  {
    YearStartStep(a);
    if a + 1 < b {
      YearStartStep(a + 1);
      YearStartMonotone(a + 1, b);
    }
  }

  /** The year holding day `n`. */
  function YearOf(n: int): (r: int)
    ensures YearStart(r) <= n < YearStart(r + 1)
  {
    var d := Civil(n);
    YearStartStep(d.year);
    DaysBeforeMonthMonotone(d.month, 13, IsLeapYear(d.year));
    d.year
  }

  /** A day lies in exactly one year. */
  lemma YearOfUnique(y: int, n: int)
    requires YearStart(y) <= n < YearStart(y + 1)
    ensures YearOf(n) == y
  {
    var r := YearOf(n);
    if r < y {
      YearStartMonotone(r, y);
    } else if y < r {
      YearStartMonotone(y, r);
    }
  }

  /** Days of the year before the first of month `m`; month 13 stands for the year's end. */
  function DaysBeforeMonth(m: int, leap: bool): int
    requires 1 <= m <= 13
  {
    [0, 31, 59, 90, 120, 151, 181, 212, 243, 273, 304, 334, 365][m - 1] + (if leap && m > 2 then 1 else 0)
  }

  function DaysInMonth(m: int, leap: bool): int
    requires 1 <= m <= 12
  {
    DaysBeforeMonth(m + 1, leap) - DaysBeforeMonth(m, leap)
  }

  lemma {:induction false} DaysBeforeMonthMonotone(a: int, b: int, leap: bool)
    requires 1 <= a < b <= 13
    ensures DaysBeforeMonth(a + 1, leap) <= DaysBeforeMonth(b, leap)
    decreases b - a
  {
    if a + 1 < b {
      DaysBeforeMonthMonotone(a + 1, b, leap);
    }
  }

  /** The month holding day-of-year `doy`, searched from month `m`. */
  function MonthFrom(m: int, doy: int, leap: bool): (r: int)
    requires 1 <= m <= 12 && DaysBeforeMonth(m, leap) <= doy < DaysBeforeMonth(13, leap)
    ensures m <= r <= 12 && DaysBeforeMonth(r, leap) <= doy < DaysBeforeMonth(r + 1, leap)
    decreases 12 - m
  {
    if doy < DaysBeforeMonth(m + 1, leap) then m else MonthFrom(m + 1, doy, leap)
  }

  lemma MonthUnique(m: int, doy: int, leap: bool)
    requires 1 <= m <= 12 && DaysBeforeMonth(m, leap) <= doy < DaysBeforeMonth(m + 1, leap)
    ensures MonthFrom(1, doy, leap) == m
  {
    DaysBeforeMonthMonotone(m, 13, leap);
    var r := MonthFrom(1, doy, leap);
    if r < m {
      DaysBeforeMonthMonotone(r, m, leap);
    } else if m < r {
      DaysBeforeMonthMonotone(m, r, leap);
    }
  }

  /** A calendar date: year, month 1..12 and day of the month from 1. */
  datatype Date = Date(year: int, month: nat, day: nat)

  predicate ValidDate(d: Date) {
    1 <= d.month <= 12 && 1 <= d.day <= DaysInMonth(d.month, IsLeapYear(d.year))
  }

  /** The day number of a date. */
  function DaysFromDate(d: Date): int
    requires ValidDate(d)
  {
    YearStart(d.year) + DaysBeforeMonth(d.month, IsLeapYear(d.year)) + d.day - 1
  }

  /** The date of day `n` of year `y`. */
  function DateInYear(y: int, n: int): (r: Date)
    requires YearStart(y) <= n < YearStart(y + 1)
    ensures ValidDate(r) && DaysFromDate(r) == n && r.year == y
  {
    var leap := IsLeapYear(y);
    var doy := n - YearStart(y);
    YearStartStep(y);
    var m := MonthFrom(1, doy, leap);
    Date(y, m, doy - DaysBeforeMonth(m, leap) + 1)
  }

  /** The date of day `n`, its year searched from year `y`. */
  function CivilFrom(y: int, n: int): (r: Date)
    ensures ValidDate(r) && DaysFromDate(r) == n
    decreases if n < YearStart(y) then YearStart(y) - n else 0, if n < YearStart(y) then 0 else n - YearStart(y)
  {
    YearStartStep(y - 1);
    YearStartStep(y);
    if n < YearStart(y) then CivilFrom(y - 1, n)
    else if n >= YearStart(y + 1) then CivilFrom(y + 1, n)
    else DateInYear(y, n)
  }

  /** The date of day number `n` (`getFullYear`, `getMonth() + 1`, `getDate()`);
      it is the valid date whose day number is `n`. */
  function Civil(n: int): (r: Date)
    ensures ValidDate(r) && DaysFromDate(r) == n
  {
    CivilFrom(1970, n)
  }

  /** Every valid date is the date of its own day number. */
  lemma CivilOfDate(d: Date)
    requires ValidDate(d)
    ensures Civil(DaysFromDate(d)) == d
  {
    var n := DaysFromDate(d);
    var c := Civil(n);
    DateBounds(d);
    DateBounds(c);
    YearOfUnique(d.year, n);
    YearOfUnique(c.year, n);
    MonthUnique(d.month, n - YearStart(d.year), IsLeapYear(d.year));
    MonthUnique(c.month, n - YearStart(d.year), IsLeapYear(d.year));
  }

  /** A valid date lies in its year, and in its month of that year. */
  lemma DateBounds(d: Date)
    requires ValidDate(d)
    ensures YearStart(d.year) <= DaysFromDate(d) < YearStart(d.year + 1)
    ensures var doy := DaysFromDate(d) - YearStart(d.year);
      DaysBeforeMonth(d.month, IsLeapYear(d.year)) <= doy < DaysBeforeMonth(d.month + 1, IsLeapYear(d.year))
  {
    DaysBeforeMonthMonotone(d.month, 13, IsLeapYear(d.year));
    YearStartStep(d.year);
  }

  /** Different days have different dates. */
  lemma CivilInjective(a: int, b: int)
    requires Civil(a) == Civil(b)
    ensures a == b
  {
  }

  // ----- text forms

  /** The year field of `toISOString()`: four digits for years 0..9999, otherwise a
      sign and six digits. */
  function IsoYear(y: int): (r: string)
    ensures 0 <= y <= 9999 ==> |r| == 4
    ensures |r| >= 4
  {
    if 0 <= y <= 9999 then Decimal(y, 4)
    else (if y < 0 then "-" else "+") + Decimal(if y < 0 then -y else y, 6)
  }

  /** The date part of `toISOString()`: `YYYY-MM-DD`. */
  function IsoDate(d: Date): (r: string)
    ensures |r| >= 10
  {
    IsoYear(d.year) + "-" + Decimal(d.month, 2) + "-" + Decimal(d.day, 2)
  }

  /** The time part of `toISOString()`, `THH:mm:ss.sssZ`, for the milliseconds `ms`
      since midnight. */
  function IsoTime(ms: nat): string {
    "T" + Decimal(ms / 3_600_000, 2) + ":" + Decimal(ms / 60_000 % 60, 2) + ":" + Decimal(ms / 1000 % 60, 2)
    + "." + Decimal(ms % 1000, 3) + "Z"
  }

  /** `toISOString()`: `YYYY-MM-DDTHH:mm:ss.sssZ`. */
  function IsoString(t: int): (r: string)
    ensures |r| >= 10
  {
    IsoDate(Civil(DayNumber(t))) + IsoTime(t % MsPerDay)
  }

  /** The first `n` characters of `a + b` are those of `a` when `a` has `n`. */
  lemma TakeOfAppend(a: string, b: string, n: nat)
    requires n <= |a|
    ensures (a + b)[..n] == a[..n]
  {
  }

  const WeekKeyPrefix: string := "extensions.zotero.zoteroplan.week."

  /** `weekKey`: the storage key of the week holding `t`,
      `extensions.zotero.zoteroplan.week.` followed by `toISOString().slice(0, 10)` of its start. */
  function WeekKey(t: int): (r: string)
    ensures |r| == |WeekKeyPrefix| + 10 && r[..|WeekKeyPrefix|] == WeekKeyPrefix
  {
    var date := IsoString(StartOfWeek(t))[..10];
    assert (WeekKeyPrefix + date)[..|WeekKeyPrefix|] == WeekKeyPrefix;
    WeekKeyPrefix + date
  }

  /** The year of the Monday that starts the week of `t`. */
  function WeekStartYear(t: int): int {
    Civil(DayNumber(StartOfWeek(t))).year
  }

  /** For a week key in years 0..9999 the ten characters taken are exactly the date. */
  lemma IsoDatePart(t: int)
    requires 0 <= Civil(DayNumber(t)).year <= 9999
    ensures IsoString(t)[..10] == Decimal(Civil(DayNumber(t)).year, 4) + "-" + Decimal(Civil(DayNumber(t)).month, 2) + "-" + Decimal(Civil(DayNumber(t)).day, 2)
  {
    var d := Civil(DayNumber(t));
    assert d.month < Pow10(2) && d.day < Pow10(2) by {
      assert Pow10(2) == 100;
    }
    TakeOfAppend(IsoDate(d), IsoTime(t % MsPerDay), 10);
    assert IsoDate(d)[..10] == IsoDate(d);
  }

  /** Two instants share a week key exactly when they share a week, as long as their
      weeks start in years 0..9999. */
  lemma WeekKeySameWeek(t1: int, t2: int)
    requires 0 <= WeekStartYear(t1) <= 9999 && 0 <= WeekStartYear(t2) <= 9999
    ensures WeekKey(t1) == WeekKey(t2) <==> StartOfWeek(t1) == StartOfWeek(t2)
  {
    if WeekKey(t1) == WeekKey(t2) {
      WeekKeyDate(t1);
      WeekKeyDate(t2);
      DatePartInjective(StartOfWeek(t1), StartOfWeek(t2));
      CivilInjective(DayNumber(StartOfWeek(t1)), DayNumber(StartOfWeek(t2)));
      MidnightsApart(StartOfWeek(t1), StartOfWeek(t2));
    }
  }

  /** The key is the prefix followed by the ten characters taken. */
  lemma WeekKeyDate(t: int)
    ensures WeekKey(t)[|WeekKeyPrefix|..] == IsoString(StartOfWeek(t))[..10]
  {
  }

  /** Two instants of years 0..9999 with the same date part fall on the same date. */
  lemma DatePartInjective(s1: int, s2: int)
    requires 0 <= Civil(DayNumber(s1)).year <= 9999 && 0 <= Civil(DayNumber(s2)).year <= 9999
    requires IsoString(s1)[..10] == IsoString(s2)[..10]
    ensures Civil(DayNumber(s1)) == Civil(DayNumber(s2))
  {
    var d1, d2 := Civil(DayNumber(s1)), Civil(DayNumber(s2));
    IsoDatePart(s1);
    IsoDatePart(s2);
    DateTextInjective(d1, d2);
  }

  /** `YYYY-MM-DD` determines the date, for years 0..9999. */
  lemma DateTextInjective(d1: Date, d2: Date)
    requires 0 <= d1.year <= 9999 && 0 <= d2.year <= 9999 && d1.month < 100 && d2.month < 100 && d1.day < 100 && d2.day < 100
    requires Decimal(d1.year, 4) + "-" + Decimal(d1.month, 2) + "-" + Decimal(d1.day, 2)
          == Decimal(d2.year, 4) + "-" + Decimal(d2.month, 2) + "-" + Decimal(d2.day, 2)
    ensures d1 == d2
  {
    assert Pow10(4) == 10000 && Pow10(2) == 100;
    DateFields(Decimal(d1.year, 4), Decimal(d1.month, 2), Decimal(d1.day, 2));
    DateFields(Decimal(d2.year, 4), Decimal(d2.month, 2), Decimal(d2.day, 2));
    DecimalInjective(d1.year, d2.year, 4);
    DecimalInjective(d1.month, d2.month, 2);
    DecimalInjective(d1.day, d2.day, 2);
  }

  /** The fields of `YYYY-MM-DD` sit at fixed places. */
  lemma DateFields(y: string, m: string, d: string)
    requires |y| == 4 && |m| == 2 && |d| == 2
    ensures (y + "-" + m + "-" + d)[..4] == y
    ensures (y + "-" + m + "-" + d)[5..7] == m
    ensures (y + "-" + m + "-" + d)[8..10] == d
  {
  }

  /** Two midnights on the same day are the same instant. */
  lemma MidnightsApart(a: int, b: int)
    requires a % MsPerDay == 0 && b % MsPerDay == 0 && DayNumber(a) == DayNumber(b)
    ensures a == b
  {
  }

  /** For years 10000 .. 999999 the ten characters taken end with the month. */
  lemma IsoMonthPart(t: int)
    requires 9999 < Civil(DayNumber(t)).year < 1_000_000
    ensures IsoString(t)[..10] == IsoYear(Civil(DayNumber(t)).year) + "-" + Decimal(Civil(DayNumber(t)).month, 2)
  {
    var d := Civil(DayNumber(t));
    assert Pow10(6) == 1_000_000 && Pow10(2) == 100;
    var p := IsoYear(d.year) + "-" + Decimal(d.month, 2);
    assert |p| == 10;
    TakeOfAppend(IsoDate(d), IsoTime(t % MsPerDay), 10);
    TakeOfAppend(p + "-", Decimal(d.day, 2), 10);
    TakeOfAppend(p, "-", 10);
    assert p[..10] == p;
  }

  lemma DayOfMidnight(n: int)
    ensures DayNumber(n * MsPerDay) == n
  {
  }

  /** The key of a week that starts on Monday `n`. */
  lemma WeekKeyOfMonday(n: int, t: int)
    requires IsMonday(n) && n * MsPerDay <= t < (n + 7) * MsPerDay
    ensures WeekKey(t) == WeekKeyPrefix + IsoString(n * MsPerDay)[..10]
  {
    StartOfWeekIsMonday(t, n);
  }

  lemma KeyOfLateMonday(d: Date)
    requires ValidDate(d) && 9999 < d.year < 1_000_000 && IsMonday(DaysFromDate(d))
    ensures WeekKey(DaysFromDate(d) * MsPerDay) == WeekKeyPrefix + IsoYear(d.year) + "-" + Decimal(d.month, 2)
  {
    var n := DaysFromDate(d);
    WeekKeyOfMonday(n, n * MsPerDay);
    DayOfMidnight(n);
    CivilOfDate(d);
    IsoMonthPart(n * MsPerDay);
  }

  /** Outside years 0..9999 the year takes seven characters, so the ten characters
      kept end with the month: the first two Mondays of January 10000 (the 3rd and
      the 10th) are different weeks that share one key. */
  lemma WeekKeyCollidesInYear10000()
    ensures var mon := DaysFromDate(Date(10000, 1, 3)) * MsPerDay;
      StartOfWeek(mon) != StartOfWeek(mon + MsPerWeek) && WeekKey(mon) == WeekKey(mon + MsPerWeek)
  {
    var d1, d2 := Date(10000, 1, 3), Date(10000, 1, 10);
    var n1 := DaysFromDate(d1);
    assert n1 == 2932899 && DaysFromDate(d2) == n1 + 7;
    assert IsMonday(n1) && IsMonday(n1 + 7);
    assert (n1 + 7) * MsPerDay == n1 * MsPerDay + MsPerWeek;
    StartOfWeekIsMonday(n1 * MsPerDay, n1);
    StartOfWeekIsMonday(n1 * MsPerDay + MsPerWeek, n1 + 7);
    KeyOfLateMonday(d1);
    KeyOfLateMonday(d2);
  }

  /** `M/D` with the month counted from 1 and neither part padded. */
  function MonthDayLabel(day: int): string {
    var d := Civil(day);
    NatToString(d.month) + "/" + NatToString(d.day)
  }

  /** `r` is the label of a week whose Monday `m` holds `t` in its seven days. */
  predicate LabelOfWeek(t: int, r: string, m: int) {
    IsMonday(m) && m <= DayNumber(t) <= m + 6 && r == MonthDayLabel(m) + " ~ " + MonthDayLabel(m + 6)
  }

  /** `fmtRange`: `M/D ~ M/D` for the Monday and the Sunday of the week holding `t`. */
  function FmtRange(t: int): (r: string)
    ensures exists m :: LabelOfWeek(t, r, m)
  {
    var monday := DayNumber(StartOfWeek(t));
    assert StartOfWeek(t) == monday * MsPerDay;
    var r := MonthDayLabel(monday) + " ~ " + MonthDayLabel(monday + 6);
    assert LabelOfWeek(t, r, monday);
    r
  }

  /** Dates of one week share their week key and their range label. */
  lemma SameWeekSameLabels(t1: int, t2: int)
    requires SameWeek(t1, t2)
    ensures WeekKey(t1) == WeekKey(t2) && FmtRange(t1) == FmtRange(t2)
  {
    StartOfWeekSameWeek(t1, t2);
  }

  /** The range label runs from the Monday of the week holding `t` to the Sunday six
      days later. */
  lemma FmtRangeOfWeek(t: int, m: int)
    requires IsMonday(m) && m <= DayNumber(t) <= m + 6
    ensures FmtRange(t) == MonthDayLabel(m) + " ~ " + MonthDayLabel(m + 6)
  {
    StartOfWeekDay(t, m);
    FmtRangeFromMonday(t, m);
  }

  /** The start of the week holding `t` is its Monday `m`, as a day number. */
  lemma StartOfWeekDay(t: int, m: int)
    requires IsMonday(m) && m <= DayNumber(t) <= m + 6
    ensures DayNumber(StartOfWeek(t)) == m
  {
    MondayUnique(m, MondayOf(DayNumber(t)), DayNumber(t));
  }

  lemma FmtRangeFromMonday(t: int, m: int)
    requires DayNumber(StartOfWeek(t)) == m
    ensures FmtRange(t) == MonthDayLabel(m) + " ~ " + MonthDayLabel(m + 6)
  {
    SameWeekLabel(DayNumber(StartOfWeek(t)), m);
  }

  lemma SameWeekLabel(a: int, b: int)
    requires a == b
    ensures MonthDayLabel(a) + " ~ " + MonthDayLabel(a + 6) == MonthDayLabel(b) + " ~ " + MonthDayLabel(b + 6)
  {
  }

  // ----- ISO 8601 week numbers

  /** The year `Date.UTC` counts in: it reads a year 0..99 as 1900 + year. */
  function UtcYear(y: int): int {
    if 0 <= y <= 99 then 1900 + y else y
  }

  /** `Date.UTC(y, m - 1, d)` as a day number: day `d` counted on from the first of
      month `m` of year `UtcYear(y)` (a day past the month's end runs on into the
      next month). */
  function UtcDay(y: int, m: int, d: int): int
    requires 1 <= m <= 12
  {
    var u := UtcYear(y);
    YearStart(u) + DaysBeforeMonth(m, IsLeapYear(u)) + d - 1
  }

  /** Outside years 0..99 `Date.UTC` gives the day number of the date. */
  lemma UtcDayOfDate(d: Date)
    requires ValidDate(d) && !(0 <= d.year <= 99)
    ensures UtcDay(d.year, d.month, d.day) == DaysFromDate(d)
  {
  }

  /** `getWeekNumber`: move to the Thursday of the week (`+ 4 - (getUTCDay() || 7)`),
      then `ceil(((thursday - 1 January of its year) / 86400000 + 1) / 7)`. */
  function WeekNumber(t: int): (r: int)
    ensures !(0 <= Civil(DayNumber(t)).year <= 99) ==> r == WeekNumberOfUtcDay(DayNumber(t))
  {
    WeekNumberOfDay(DayNumber(t))
  }

  /** `getWeekNumber` of the date of day `day`: both instants are built with
      `Date.UTC`, so a year 0..99 is read as 1900 + year. */
  function WeekNumberOfDay(day: int): (r: int)
    ensures !(0 <= Civil(day).year <= 99) ==> r == WeekNumberOfUtcDay(day)
  {
    var date := UtcDateOfDay(day);
    UtcDateOfPlainDay(day);
    WeekNumberOfUtcDay(date)
  }

  /** `new Date(Date.UTC(d.getFullYear(), d.getMonth(), d.getDate()))` for day `day`. */
  function UtcDateOfDay(day: int): int {
    var d := Civil(day);
    UtcDay(d.year, d.month, d.day)
  }

  /** The rest of `getWeekNumber`, from the day `date` built with `Date.UTC`. */
  function WeekNumberOfUtcDay(date: int): int {
    var wd := JsDay(date);
    var thursday := date + 4 - (if wd == 0 then 7 else wd);
    var yearStart := UtcDay(YearOf(thursday), 1, 1);
    // ceil(x / 7) of the integer x, with floor division
    ((thursday - yearStart + 1) + 6) / 7
  }

  /** The ISO week-numbering year of a day: the year of the Thursday of its week
      (sections 2.2.10 and 4.1.4 of ISO 8601:2004). */
  function IsoWeekYear(day: int): int {
    YearOf(MondayOf(day) + 3)
  }

  /** Reference ISO 8601 week number: week 1 is the week holding 4 January of the
      week-numbering year, and weeks count on from there. */
  function IsoWeek(day: int): (r: int)
    ensures 1 <= r <= 53
  {
    var y := IsoWeekYear(day);
    var week1 := MondayOf(YearStart(y) + 3);
    YearLength(y);
    WeekOneCount(MondayOf(day), week1, YearStart(y), YearStart(y + 1));
    (MondayOf(day) - week1) / 7 + 1
  }

  /** The source's Thursday is the Thursday of the Monday-to-Sunday week. */
  lemma ThursdayOfWeek(day: int)
    ensures day + 4 - (if JsDay(day) == 0 then 7 else JsDay(day)) == MondayOf(day) + 3
  {
  }

  /** `getWeekNumber` is the ISO 8601 week number, and lies in 1..53, when neither
      the date nor its week-numbering year is in years 0..99. */
  lemma WeekNumberIsIso(t: int)
    requires !(0 <= Civil(DayNumber(t)).year <= 99) && !(0 <= IsoWeekYear(DayNumber(t)) <= 99)
    ensures WeekNumber(t) == IsoWeek(DayNumber(t))
    ensures 1 <= WeekNumber(t) <= 53
  {
    WeekNumberOfDayIsIso(DayNumber(t));
  }

  lemma WeekNumberOfDayIsIso(day: int)
    requires !(0 <= Civil(day).year <= 99) && !(0 <= IsoWeekYear(day) <= 99)
    ensures WeekNumberOfDay(day) == IsoWeek(day)
    ensures 1 <= WeekNumberOfDay(day) <= 53
  {
    WeekNumberOfUtcDayIsIso(day);
  }

  /** From a day built with `Date.UTC` outside years 0..99, the rest of
      `getWeekNumber` gives the ISO 8601 week number. */
  lemma WeekNumberOfUtcDayIsIso(day: int)
    requires !(0 <= IsoWeekYear(day) <= 99)
    ensures WeekNumberOfUtcDay(day) == IsoWeek(day)
    ensures 1 <= WeekNumberOfUtcDay(day) <= 53
  {
    WeekNumberOfUtcDayBounds(day);
    WeekNumberOfMonday(day);
    IsoWeekFromYearStart(day);
  }

  lemma WeekNumberOfUtcDayBounds(day: int)
    requires !(0 <= IsoWeekYear(day) <= 99)
    ensures 1 <= WeekNumberOfUtcDay(day) <= 53
  {
    var m := MondayOf(day);
    var y := IsoWeekYear(day);
    var j := YearStart(y);
    WeekNumberOfMonday(day);
    YearLength(y);
    WeekOneCount(m, MondayOf(j + 3), j, YearStart(y + 1));
  }

  /** The reference count equals counting weeks from 1 January of the week-numbering
      year, as the source does. */
  lemma IsoWeekFromYearStart(day: int)
    ensures IsoWeek(day) == (MondayOf(day) + 3 - YearStart(IsoWeekYear(day)) + 1 + 6) / 7
  {
    var m := MondayOf(day);
    var y := IsoWeekYear(day);
    var j := YearStart(y);
    IsoWeekOfMonday(day);
    YearLength(y);
    WeekOneCount(m, MondayOf(j + 3), j, YearStart(y + 1));
  }

  /** Counting weeks from 1 January `j` and counting Mondays from the Monday `w1` of
      the week holding 4 January agree for a Monday `m` whose Thursday lies in the
      year starting at `j` (the next starts at `next`). */
  lemma WeekOneCount(m: int, w1: int, j: int, next: int)
    requires IsMonday(m) && IsMonday(w1) && w1 <= j + 3 < w1 + 7
    requires j <= m + 3 < next <= j + 366
    ensures (m + 3 - j + 1 + 6) / 7 == (m - w1) / 7 + 1
    ensures 1 <= (m + 3 - j + 1 + 6) / 7 <= 53
  {
    MondaysWeeksApart(m, w1);
    WeeksFromWeekOne(m, w1, j);
  }

  /** The reference count, in terms of the Monday of the week and the Monday of week 1. */
  lemma IsoWeekOfMonday(day: int)
    ensures IsoWeek(day) == (MondayOf(day) - MondayOf(YearStart(IsoWeekYear(day)) + 3)) / 7 + 1
  {
  }

  /** The source's count, in terms of the Monday of the week and the start of the
      year holding its Thursday. */
  lemma WeekNumberOfMonday(day: int)
    requires !(0 <= IsoWeekYear(day) <= 99)
    ensures WeekNumberOfUtcDay(day) == (MondayOf(day) + 3 - YearStart(IsoWeekYear(day)) + 1 + 6) / 7
  {
    ThursdayOfWeek(day);
    SameYear(day + 4 - (if JsDay(day) == 0 then 7 else JsDay(day)), MondayOf(day) + 3);
  }

  /** Outside years 0..99 the day built with `Date.UTC` is the day itself. */
  lemma UtcDateOfPlainDay(day: int)
    ensures !(0 <= Civil(day).year <= 99) ==> UtcDateOfDay(day) == day
  {
    if !(0 <= Civil(day).year <= 99) {
      UtcDayOfDate(Civil(day));
    }
  }

  lemma SameYear(a: int, b: int)
    requires a == b
    ensures YearOf(a) == YearOf(b)
  {
  }

  /** A year has 365 or 366 days. */
  lemma YearLength(y: int)
    ensures YearStart(y) + 365 <= YearStart(y + 1) <= YearStart(y) + 366
  {
    YearStartStep(y);
  }

  lemma WeeksFromWeekOne(m: int, w1: int, j: int)
    requires (m - w1) % 7 == 0 && w1 <= j + 3 < w1 + 7
    requires 0 <= m + 3 - j < 366
    ensures (m - w1) / 7 == (m + 3 - j) / 7
    ensures 1 <= (m + 3 - j + 1 + 6) / 7 <= 53
  {
    var q := (m - w1) / 7;
    assert m - w1 == 7 * q;
  }

  /** The source's week number of the instant at midnight of date `d`, outside years
      0..99, from the day number `n` of `d`. */
  lemma WeekNumberOfDate(d: Date, n: int)
    requires ValidDate(d) && !(0 <= d.year <= 99) && n == DaysFromDate(d)
    ensures WeekNumber(n * MsPerDay) == WeekNumberOfUtcDay(n)
  {
    assert DayNumber(n * MsPerDay) == n;
    CivilOfDate(d);
  }

  /** Day 18628 is 1 January 2021, a Friday, which lies in week 53 of 2020. */
  lemma WeekNumberOf2021January1(n: int)
    requires n == 18628
    ensures n == DaysFromDate(Date(2021, 1, 1)) && WeekNumber(n * MsPerDay) == 53
  {
    WeekNumberOfDate(Date(2021, 1, 1), n);
    UtcWeekOf2021January1(n);
  }

  lemma UtcWeekOf2021January1(n: int)
    requires n == 18628
    ensures WeekNumberOfUtcDay(n) == 53
  {
    assert JsDay(n) == 5;
    YearOfUnique(2020, n - 1);
    SameYear(n + 4 - 5, n - 1);
    assert UtcDay(2020, 1, 1) == 18262;
  }

  /** Day 18995 is Monday 3 January 2022, which starts week 1 of 2022. */
  lemma WeekNumberOf2022January3(n: int)
    requires n == 18995
    ensures n == DaysFromDate(Date(2022, 1, 3)) && WeekNumber(n * MsPerDay) == 1
  {
    WeekNumberOfDate(Date(2022, 1, 3), n);
    UtcWeekOf2022January3(n);
  }

  lemma UtcWeekOf2022January3(n: int)
    requires n == 18995
    ensures WeekNumberOfUtcDay(n) == 1
  {
    assert JsDay(n) == 1;
    YearOfUnique(2022, n + 3);
    SameYear(n + 4 - 1, n + 3);
    assert UtcDay(2022, 1, 1) == 18993;
  }

  /** Day -683003 is 1 January of year 100, a Friday. `Date.UTC` puts the Thursday
      before it in 1999, so the source's week number is -99085, while the ISO week is
      53 (of year 99). */
  lemma WeekNumberOfYear100January1(n: int)
    requires n == -683003
    ensures n == DaysFromDate(Date(100, 1, 1))
    ensures WeekNumber(n * MsPerDay) == -99085 && IsoWeek(n) == 53
  {
    WeekNumberOfDate(Date(100, 1, 1), n);
    UtcWeekOfYear100January1(n);
    IsoWeekOfYear100January1(n);
  }

  lemma UtcWeekOfYear100January1(n: int)
    requires n == -683003
    ensures WeekNumberOfUtcDay(n) == -99085
  {
    assert JsDay(n) == 5;
    YearOfUnique(99, n - 1);
    SameYear(n + 4 - 5, n - 1);
    assert UtcDay(99, 1, 1) == YearStart(1999) == 10592;
  }

  lemma IsoWeekOfYear100January1(n: int)
    requires n == -683003
    ensures IsoWeek(n) == 53
  {
    assert MondayIndex(n) == 4;
    assert YearStart(99) == -683368 && YearStart(100) == n;
    YearOfUnique(99, n - 1);
    SameYear(MondayOf(n) + 3, n - 1);
    assert MondayIndex(-683365) == 6;
    SameMonday(YearStart(IsoWeekYear(n)) + 3, -683365);
  }

  lemma SameMonday(a: int, b: int)
    requires a == b
    ensures MondayOf(a) == MondayOf(b)
  {
  }
}
