/** KST calendar windows (`SmsQuotaService`). Instants are milliseconds since the epoch;
    civil dates follow section 21.4.1 of ECMA-262 with a fixed offset of nine hours. */
module Calendar {

  const MS_PER_DAY := 24 * 60 * 60 * 1000
  const KST_OFFSET_MS := 9 * 60 * 60 * 1000

  // ------------------------------------------------------- years and months

  /** The day number of the first day of a year. */
  function DayFromYear(y: int): int {
    365 * (y - 1970) + (y - 1969) / 4 - (y - 1901) / 100 + (y - 1601) / 400
  }

  predicate IsLeap(y: int) {
    y % 4 == 0 && (y % 100 != 0 || y % 400 == 0)
  }

  function DaysInYear(y: int): int {
    if IsLeap(y) then 366 else 365
  }

  lemma QuotientStep(a: int, n: int)
    requires n > 0
    ensures (a + 1) / n == a / n + (if (a + 1) % n == 0 then 1 else 0)
  {
    var q, r := a / n, a % n;
    assert a == q * n + r;
    if r == n - 1 {
      assert a + 1 == (q + 1) * n;
      QuotientIs(a + 1, n, q + 1, 0);
    } else {
      QuotientIs(a + 1, n, q, r + 1);
    }
  }

  lemma QuotientIs(a: int, n: int, q: int, r: int)
    requires n > 0 && a == q * n + r && 0 <= r < n
    ensures a / n == q && a % n == r
  {
    var d := q - a / n;
    assert d * n == a % n - r;
    MultipleIsLarge(d, n);
  }

  lemma MultipleIsLarge(d: int, n: int)
    requires n > 0
    ensures d >= 1 ==> d * n >= n
    ensures d <= -1 ==> d * n <= -n
  {}

  /** The closed form counts exactly one leap day per leap year. */
  lemma YearLength(y: int)
    ensures DayFromYear(y + 1) - DayFromYear(y) == DaysInYear(y)
  {
    QuotientStep(y - 1969, 4);
    QuotientStep(y - 1901, 100);
    QuotientStep(y - 1601, 400);
    assert (y - 1968) % 4 == 0 <==> y % 4 == 0;
    assert (y - 1900) % 100 == 0 <==> y % 100 == 0;
    assert (y - 1600) % 400 == 0 <==> y % 400 == 0;
  }

  lemma {:induction false} YearsIncrease(y: int, z: int)
    requires y < z
    ensures DayFromYear(y + 1) <= DayFromYear(z)
    decreases z - y
  {
    hide DayFromYear;
    YearLength(z - 1);
    if y < z - 1 { YearsIncrease(y, z - 1); }
  }

  /** The days of a year before its month `m`, counted from 0. */
  function DaysBefore(leap: bool, m: nat): (n: nat)
    requires m <= 12
  {
    var l := if leap then 1 else 0;
    match m
    case 0 => 0 case 1 => 31 case 2 => 59 + l case 3 => 90 + l
    case 4 => 120 + l case 5 => 151 + l case 6 => 181 + l case 7 => 212 + l
    case 8 => 243 + l case 9 => 273 + l case 10 => 304 + l case 11 => 334 + l
    case 12 => 365 + l
  }

  function DaysInMonth(y: int, m: nat): (n: nat)
    requires m < 12
    ensures 28 <= n <= 31
  {
    DaysBefore(IsLeap(y), m + 1) - DaysBefore(IsLeap(y), m)
  }

  function MonthOfDayInYear(leap: bool, r: nat): (m: nat)
    requires r < (if leap then 366 else 365)
    ensures m < 12 && DaysBefore(leap, m) <= r < DaysBefore(leap, m + 1)
  {
    if r < DaysBefore(leap, 1) then 0 else if r < DaysBefore(leap, 2) then 1
    else if r < DaysBefore(leap, 3) then 2 else if r < DaysBefore(leap, 4) then 3
    else if r < DaysBefore(leap, 5) then 4 else if r < DaysBefore(leap, 6) then 5
    else if r < DaysBefore(leap, 7) then 6 else if r < DaysBefore(leap, 8) then 7
    else if r < DaysBefore(leap, 9) then 8 else if r < DaysBefore(leap, 10) then 9
    else if r < DaysBefore(leap, 11) then 10 else 11
  }

  /** The largest year that starts no later than a day. */
  function YearUp(day: int, y: int): (r: int)
    requires DayFromYear(y) <= day
    ensures DayFromYear(r) <= day < DayFromYear(r + 1)
    decreases day - DayFromYear(y)
  {
    YearLength(y);
    if DayFromYear(y + 1) <= day then YearUp(day, y + 1) else y
  }

  function YearDown(day: int, y: int): (r: int)
    ensures DayFromYear(r) <= day < DayFromYear(r + 1)
    decreases DayFromYear(y) - day
  {
    YearLength(y - 1);
    if DayFromYear(y) <= day then YearUp(day, y) else YearDown(day, y - 1)
  }

  function YearFromDay(day: int): (y: int)
    ensures DayFromYear(y) <= day < DayFromYear(y + 1)
  {
    YearDown(day, 1970)
  }

  // ------------------------------------------------------------- civil dates

  /** A civil date; months are counted from 0, days from 1. */
  datatype Civil = Civil(year: int, month: nat, day: nat)

  predicate ValidCivil(c: Civil) {
    c.month < 12 && 1 <= c.day <= DaysInMonth(c.year, c.month)
  }

  function CivilFromDay(day: int): (c: Civil)
    ensures ValidCivil(c)
  {
    var y := YearFromDay(day);
    YearLength(y);
    var r := day - DayFromYear(y);
    var m := MonthOfDayInYear(IsLeap(y), r);
    Civil(y, m, r - DaysBefore(IsLeap(y), m) + 1)
  }

  /** The first day of month `m` of year `y`; month 12 is the January after. */
  function MonthStart(y: int, m: nat): int
    requires m <= 12
  {
    DayFromYear(y) + DaysBefore(IsLeap(y), m)
  }

  /** Civil dates and day numbers correspond one to one. */
  lemma CivilIsInverse(day: int, c: Civil)
    requires ValidCivil(c)
    ensures CivilFromDay(day) == c <==> MonthStart(c.year, c.month) + c.day - 1 == day
  {
    hide DayFromYear, YearFromDay, MonthOfDayInYear, DaysBefore;
    var y := YearFromDay(day);
    var leap := IsLeap(c.year);
    if MonthStart(c.year, c.month) + c.day - 1 == day {
      MonthsInYear(leap, c.month);
      YearLength(c.year);
      assert DayFromYear(c.year) <= day < DayFromYear(c.year + 1);
      if y < c.year { YearsIncrease(y, c.year); }
      if c.year < y { YearsIncrease(c.year, y); }
      assert y == c.year;
      MonthIsUnique(leap, day - DayFromYear(y), c.month, MonthOfDayInYear(leap, day - DayFromYear(y)));
    }
  }

  lemma {:induction false} MonthsIncrease(leap: bool, m: nat, n: nat)
    requires m < n <= 12
    ensures DaysBefore(leap, m + 1) <= DaysBefore(leap, n)
  {
    if m + 1 < n { MonthsIncrease(leap, m, n - 1); }
  }

  lemma MonthsInYear(leap: bool, m: nat)
    requires m < 12
    ensures 0 <= DaysBefore(leap, m) < DaysBefore(leap, m + 1) <= if leap then 366 else 365
  {}

  lemma MonthIsUnique(leap: bool, r: int, m: nat, n: nat)
    requires m < 12 && n < 12
    requires DaysBefore(leap, m) <= r < DaysBefore(leap, m + 1)
    requires DaysBefore(leap, n) <= r < DaysBefore(leap, n + 1)
    ensures m == n
  {
    if m < n { MonthsIncrease(leap, m, n); }
    if n < m { MonthsIncrease(leap, n, m); }
  }

  // ----------------------------------------------------------------- windows

  function KstDay(t: int): int {
    (t + KST_OFFSET_MS) / MS_PER_DAY
  }

  function KstDate(t: int): Civil {
    CivilFromDay(KstDay(t))
  }

  /** Two instants fall in the same KST civil month. */
  predicate SameKstMonth(t: int, u: int) {
    KstDate(t).year == KstDate(u).year && KstDate(t).month == KstDate(u).month
  }

  /** A half-open interval of instants. */
  datatype Window = Window(start: int, end: int) {
    predicate Has(t: int) {
      start <= t < end
    }
  }

  /** The year the formatter prints: years before 1 are printed as years of their era. */
  function PrintedYear(y: int): int {
    if y > 0 then y else 1 - y
  }

  /** `Date.UTC` reads years 0 to 99 as 1900 to 1999. */
  function FullYear(n: int): int {
    if 0 <= n <= 99 then 1900 + n else n
  }

  /** `Date.UTC(year, month, 1 + days, -9)`. */
  function UtcMinusNine(year: int, month: nat, days: nat): int
    requires month < 12
  {
    (MonthStart(FullYear(year), month) + days) * MS_PER_DAY - KST_OFFSET_MS
  }

  function GetKstMonthWindow(t: int): Window {
    var date := KstDate(t);
    var year := PrintedYear(date.year);
    var start := UtcMinusNine(year, date.month, 0);
    var end := if date.month == 11 then UtcMinusNine(year + 1, 0, 0) else UtcMinusNine(year, date.month + 1, 0);
    Window(start, end)
  }

  function GetKstDayWindow(t: int): Window {
    var date := KstDate(t);
    var start := UtcMinusNine(PrintedYear(date.year), date.month, date.day - 1);
    Window(start, start + MS_PER_DAY)
  }

  /** The instants of a KST civil month. */
  function MonthInterval(y: int, m: nat): Window
    requires m < 12
  {
    Window(MonthStart(y, m) * MS_PER_DAY - KST_OFFSET_MS, MonthStart(y, m + 1) * MS_PER_DAY - KST_OFFSET_MS)
  }

  lemma DayBounds(t: int, day: int)
    ensures KstDay(t) >= day <==> t >= day * MS_PER_DAY - KST_OFFSET_MS
  {}

  /** The interval of a civil month holds exactly the instants whose KST date is in that month. */
  lemma MonthIntervalIs(y: int, m: nat, t: int)
    requires m < 12
    ensures MonthInterval(y, m).Has(t) <==> KstDate(t).year == y && KstDate(t).month == m
  {
    var d := KstDay(t);
    DayBounds(t, MonthStart(y, m));
    DayBounds(t, MonthStart(y, m + 1));
    assert MonthInterval(y, m).Has(t) <==> MonthStart(y, m) <= d < MonthStart(y, m + 1);
    var date := KstDate(t);
    CivilIsInverse(d, date);
    if MonthStart(y, m) <= d < MonthStart(y, m + 1) {
      CivilIsInverse(d, Civil(y, m, d - MonthStart(y, m) + 1));
    }
  }

  lemma YearTurn(y: int)
    ensures MonthStart(y, 12) == MonthStart(y + 1, 0) == DayFromYear(y + 1)
  {
    YearLength(y);
  }

  /** For years from 100 on the computed window is the interval of the instant's own month. */
  lemma WindowIsInterval(t: int)
    requires KstDate(t).year >= 100
    ensures GetKstMonthWindow(t) == MonthInterval(KstDate(t).year, KstDate(t).month)
  {
    hide DayFromYear, DaysBefore, IsLeap, CivilFromDay;
    YearTurn(KstDate(t).year);
  }

  /** The count of days starts on 1 January 1970, and the year 2000 has a leap day. */
  lemma DaysAreAnchored()
    ensures CivilFromDay(0) == Civil(1970, 0, 1)
    ensures CivilFromDay(11016) == Civil(2000, 1, 29)
  {
    hide CivilFromDay;
    CivilIsInverse(0, Civil(1970, 0, 1));
    CivilIsInverse(11016, Civil(2000, 1, 29));
  }

  /** The year whose month a window covers: for years from 1 to 99 one of the 20th century, and
      for earlier ones the year of their era, which is again read so. */
  function CoveredYear(year: int): int {
    if year >= 100 then year
    else if year >= 1 then 1900 + year
    else if year >= -98 then 1901 - year
    else 1 - year
  }

  lemma WindowStartsWith(t: int)
    ensures var date := KstDate(t);
            && GetKstMonthWindow(t).start == MonthInterval(CoveredYear(date.year), date.month).start
            && GetKstDayWindow(t).start
               == MonthInterval(CoveredYear(date.year), date.month).start + (date.day - 1) * MS_PER_DAY
  {
    hide MonthStart, CivilFromDay;
  }

  /** A month window contains its own instant exactly when the KST year is at least 100:
      earlier years are printed or read as other years. */
  lemma WindowContainsInstant(t: int)
    ensures GetKstMonthWindow(t).Has(t) <==> KstDate(t).year >= 100
  {
    hide DayFromYear, DaysBefore, IsLeap, CivilFromDay, MonthStart;
    var date := KstDate(t);
    MonthIntervalIs(date.year, date.month, t);
    if date.year >= 100 {
      WindowIsInterval(t);
    } else {
      var y := FullYear(PrintedYear(date.year));
      assert y > 99;
      MonthIntervalIs(y, date.month, t);
      YearTurn(y);
      EarlyYearEnd(PrintedYear(date.year), date.month);
    }
  }

  /** Whatever early year is printed, the window starts with the month that is read and ends no later than it. */
  lemma EarlyYearEnd(year: int, month: nat)
    requires year >= 1 && month < 12
    ensures (if month == 11 then UtcMinusNine(year + 1, 0, 0) else UtcMinusNine(year, month + 1, 0))
         <= MonthStart(FullYear(year), month + 1) * MS_PER_DAY - KST_OFFSET_MS
  {
    YearTurn(FullYear(year));
    if month == 11 && year == 99 { YearsIncrease(100, 2000); YearsIncrease(99, 100); }
  }

  /** Windows are equal exactly for instants of the same KST civil month, and otherwise disjoint. */
  lemma WindowsPartition(t: int, u: int)
    requires KstDate(t).year >= 100 && KstDate(u).year >= 100
    ensures GetKstMonthWindow(t) == GetKstMonthWindow(u) <==> SameKstMonth(t, u)
    ensures GetKstMonthWindow(t).Has(u) <==> SameKstMonth(t, u)
    ensures !SameKstMonth(t, u) ==>
              GetKstMonthWindow(t).end <= GetKstMonthWindow(u).start
                || GetKstMonthWindow(u).end <= GetKstMonthWindow(t).start
  {
    hide DayFromYear, DaysBefore, IsLeap, CivilFromDay, MonthStart;
    WindowIsInterval(t);
    WindowIsInterval(u);
    MonthIntervalIs(KstDate(t).year, KstDate(t).month, u);
    MonthIntervalIs(KstDate(t).year, KstDate(t).month, t);
    MonthIntervalIs(KstDate(u).year, KstDate(u).month, u);
    MonthIntervalIs(KstDate(u).year, KstDate(u).month, t);
    if !SameKstMonth(t, u) {
      IntervalsApart(KstDate(t), KstDate(u));
    }
  }

  lemma IntervalsApart(c: Civil, d: Civil)
    requires c.month < 12 && d.month < 12 && (c.year, c.month) != (d.year, d.month)
    ensures MonthInterval(c.year, c.month).end <= MonthInterval(d.year, d.month).start
         || MonthInterval(d.year, d.month).end <= MonthInterval(c.year, c.month).start
  {
    hide MonthStart;
    if c.year < d.year || (c.year == d.year && c.month < d.month) {
      MonthsOrdered(c, d);
    } else {
      MonthsOrdered(d, c);
    }
  }

  lemma MonthsOrdered(c: Civil, d: Civil)
    requires c.month < 12 && d.month < 12
    requires c.year < d.year || (c.year == d.year && c.month < d.month)
    ensures MonthStart(c.year, c.month + 1) <= MonthStart(d.year, d.month)
  {
    hide DayFromYear, DaysBefore, IsLeap;
    if c.year == d.year {
      MonthsIncrease(IsLeap(c.year), c.month, d.month);
    } else {
      YearsIncrease(c.year, d.year);
      YearTurn(c.year);
      if c.month < 11 { MonthsIncrease(IsLeap(c.year), c.month, 12); }
    }
  }

  /** Consecutive windows abut: the end of a window is the first instant of the next month's window. */
  lemma WindowsAbut(t: int)
    requires KstDate(t).year >= 100
    ensures var end := GetKstMonthWindow(t).end;
            && KstDate(end).day == 1
            && KstDate(end).year >= 100
            && GetKstMonthWindow(end).start == end
            && SameKstMonth(end - 1, t)
  {
    hide DayFromYear, DaysBefore, IsLeap, CivilFromDay, MonthStart;
    WindowIsInterval(t);
    var date := KstDate(t);
    var end := GetKstMonthWindow(t).end;
    DayBounds(end, MonthStart(date.year, date.month + 1));
    DayBounds(end, MonthStart(date.year, date.month + 1) + 1);
    var next := if date.month == 11 then Civil(date.year + 1, 0, 1) else Civil(date.year, date.month + 1, 1);
    YearTurn(date.year);
    CivilIsInverse(KstDay(end), next);
    WindowIsInterval(end);
    MonthIntervalIs(date.year, date.month, end - 1);
    IntervalNotEmpty(date.year, date.month);
    FirstDayIsStart(next);
  }

  lemma FirstDayIsStart(c: Civil)
    requires c.month < 12
    ensures ValidCivil(Civil(c.year, c.month, 1))
  {}

  lemma IntervalNotEmpty(y: int, m: nat)
    requires m < 12
    ensures MonthInterval(y, m).start + 28 * MS_PER_DAY <= MonthInterval(y, m).end
  {
    assert DaysInMonth(y, m) >= 28;
  }

  /** Day windows tile the month window: the window of the instant's day is the matching
      piece of its month, the pieces are consecutive, and the last one ends with the month. */
  lemma DayWindowsTileMonth(t: int)
    requires KstDate(t).year >= 100
    ensures var month, day, date := GetKstMonthWindow(t), GetKstDayWindow(t), KstDate(t);
            && day == Window(month.start + (date.day - 1) * MS_PER_DAY, month.start + date.day * MS_PER_DAY)
            && day.Has(t)
            && month.start <= day.start && day.end <= month.end
            && month.end == month.start + DaysInMonth(date.year, date.month) * MS_PER_DAY
  {
    hide DayFromYear, DaysBefore, IsLeap, CivilFromDay;
    WindowIsInterval(t);
    var d, date := KstDay(t), KstDate(t);
    CivilIsInverse(d, date);
    DayBounds(t, d);
    DayBounds(t, d + 1);
    assert DaysInMonth(date.year, date.month)
      == MonthStart(date.year, date.month + 1) - MonthStart(date.year, date.month);
  }

  /** Two instants share a day window exactly when they have the same KST date. */
  lemma DayWindowsPartition(t: int, u: int)
    requires KstDate(t).year >= 100 && KstDate(u).year >= 100
    ensures GetKstDayWindow(t).Has(u) <==> KstDate(t) == KstDate(u)
  {
    hide DayFromYear, DaysBefore, IsLeap, CivilFromDay;
    CivilIsInverse(KstDay(t), KstDate(t));
    CivilIsInverse(KstDay(u), KstDate(u));
    DayBounds(u, KstDay(t));
    DayBounds(u, KstDay(t) + 1);
  }
}
