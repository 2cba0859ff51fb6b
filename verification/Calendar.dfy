/** The proleptic Gregorian calendar behind stored times: the date and clock of a count of seconds
    since 0000-01-01 00:00:00, and back. */
module Calendar {
  const DAY: nat := 86_400

  predicate IsLeap(y: nat) { y % 4 == 0 && (y % 100 != 0 || y % 400 == 0) }

  function DaysIn(y: nat): nat { if IsLeap(y) then 366 else 365 }

  function MonthDays(m: nat, leap: bool): nat {
    if m == 2 then (if leap then 29 else 28)
    else if m == 4 || m == 6 || m == 9 || m == 11 then 30 else 31
  }

  /** The year holding the n-th day of a stretch that starts with year y, and the day in it. */
  function YearOf(n: nat, y: nat): (nat, nat) {
    if n < DaysIn(y) then (y, n) else YearOf(n - DaysIn(y), y + 1)
  }

  function MonthOf(n: nat, m: nat, leap: bool): (nat, nat)
    requires 1 <= m <= 12
    decreases 12 - m
  {
    if m == 12 || n < MonthDays(m, leap) then (m, n) else MonthOf(n - MonthDays(m, leap), m + 1, leap)
  }

  function MonthInYear(n: nat, leap: bool): (nat, nat) { MonthOf(n, 1, leap) }

  function DateOf(day: nat): seq<nat> {
    var (year, dayOfYear) := YearOf(day, 0);
    var (month, dayOfMonth) := MonthInYear(dayOfYear, IsLeap(year));
    [year, month, dayOfMonth + 1]
  }

  function ClockOf(second: nat): seq<nat> { [second / 3600, second % 3600 / 60, second % 60] }

  /** Year, month, day, hour, minute and second of a count of seconds. */
  function Fields(seconds: nat): seq<nat> { DateOf(seconds / DAY) + ClockOf(seconds % DAY) }

  function DaysBefore(y: nat): nat {
    if y == 0 then 0 else DaysBefore(y - 1) + DaysIn(y - 1)
  }

  function MonthsBefore(m: nat, leap: bool): nat
    requires 1 <= m <= 12
  {
    if m == 1 then 0 else MonthsBefore(m - 1, leap) + MonthDays(m - 1, leap)
  }

  predicate IsDate(f: seq<nat>) {
    && |f| == 6 && 1 <= f[1] <= 12 && 1 <= f[2] <= MonthDays(f[1], IsLeap(f[0]))
    && f[3] < 24 && f[4] < 60 && f[5] < 60
  }

  /** The calendar read the other way: the days before a date. */
  function DayNumber(f: seq<nat>): nat
    requires IsDate(f)
  {
    DaysBefore(f[0]) + MonthsBefore(f[1], IsLeap(f[0])) + f[2] - 1
  }

  function SecondsTo(f: seq<nat>): nat
    requires IsDate(f)
  {
    DayNumber(f) * DAY + f[3] * 3600 + f[4] * 60 + f[5]
  }

  lemma {:induction false} YearOfDay(n: nat, y: nat)
    ensures var (z, r) := YearOf(n, y);
      r < DaysIn(z) && DaysBefore(z) + r == DaysBefore(y) + n
  {
    if n >= DaysIn(y) { YearOfDay(n - DaysIn(y), y + 1); }
  }

  lemma {:induction false} MonthOfDay(n: nat, m: nat, leap: bool)
    requires 1 <= m <= 12 && MonthsBefore(m, leap) + n < MonthsBefore(12, leap) + 31
    ensures var (z, r) := MonthOf(n, m, leap);
      1 <= z <= 12 && r < MonthDays(z, leap) && MonthsBefore(z, leap) + r == MonthsBefore(m, leap) + n
    decreases 12 - m
  {
    if m != 12 && n >= MonthDays(m, leap) {
      assert MonthsBefore(m + 1, leap) == MonthsBefore(m, leap) + MonthDays(m, leap);
      MonthOfDay(n - MonthDays(m, leap), m + 1, leap);
    }
  }

  lemma MonthsOfYear(leap: bool)
    ensures MonthsBefore(12, leap) + 31 == if leap then 366 else 365
  {
    assert MonthsBefore(2, leap) == 31;
    assert MonthsBefore(3, leap) == 31 + MonthDays(2, leap);
    assert MonthsBefore(5, leap) == MonthsBefore(3, leap) + 61;
    assert MonthsBefore(7, leap) == MonthsBefore(5, leap) + 61;
    assert MonthsBefore(9, leap) == MonthsBefore(7, leap) + 62;
    assert MonthsBefore(11, leap) == MonthsBefore(9, leap) + 61;
  }

  lemma MonthRoundTrip(n: nat, leap: bool)
    requires n < if leap then 366 else 365
    ensures var (z, r) := MonthInYear(n, leap);
      1 <= z <= 12 && r < MonthDays(z, leap) && MonthsBefore(z, leap) + r == n
  {
    MonthsOfYear(leap);
    hide MonthOf, MonthDays;
    MonthOfDay(n, 1, leap);
  }

  lemma DateRoundTrip(day: nat)
    ensures var f := DateOf(day) + [0, 0, 0];
      IsDate(f) && DayNumber(f) == day
  {
    var (year, dayOfYear) := YearOf(day, 0);
    YearOfDay(day, 0);
    assert dayOfYear < (if IsLeap(year) then 366 else 365) && DaysBefore(0) == 0;
    hide YearOf, IsLeap, DaysBefore, MonthInYear, MonthsBefore, MonthDays;
    MonthRoundTrip(dayOfYear, IsLeap(year));
    var (month, dayOfMonth) := MonthInYear(dayOfYear, IsLeap(year));
    assert DateOf(day) == [year, month, dayOfMonth + 1];
  }

  /** The days of a year before each month, as in any almanac. */
  lemma MonthTable(leap: bool)
    ensures var extra := if leap then 1 else 0;
      && MonthsBefore(1, leap) == 0 && MonthsBefore(2, leap) == 31 && MonthsBefore(3, leap) == 59 + extra
      && MonthsBefore(4, leap) == 90 + extra && MonthsBefore(5, leap) == 120 + extra
      && MonthsBefore(6, leap) == 151 + extra && MonthsBefore(7, leap) == 181 + extra
      && MonthsBefore(8, leap) == 212 + extra && MonthsBefore(9, leap) == 243 + extra
      && MonthsBefore(10, leap) == 273 + extra && MonthsBefore(11, leap) == 304 + extra
      && MonthsBefore(12, leap) == 334 + extra
  {
  }

  /** Fields is a real date, and the one that many seconds away. */
  lemma FieldsRoundTrip(seconds: nat)
    ensures IsDate(Fields(seconds)) && SecondsTo(Fields(seconds)) == seconds
  {
    var f := Fields(seconds);
    DateRoundTrip(seconds / DAY);
    assert f[..3] == DateOf(seconds / DAY);
    hide DateOf, ClockOf, MonthDays, IsLeap, DaysBefore, MonthsBefore;
  }

  lemma {:induction false} DaysBeforeGrows(y: nat, z: nat)
    requires y < z
    ensures DaysBefore(y) + DaysIn(y) <= DaysBefore(z)
    decreases z
  {
    if y < z - 1 { DaysBeforeGrows(y, z - 1); }
  }

  lemma {:induction false} MonthsBeforeGrows(m: nat, n: nat, leap: bool)
    requires 1 <= m < n <= 12
    ensures MonthsBefore(m, leap) + MonthDays(m, leap) <= MonthsBefore(n, leap)
    decreases n
  {
    if m < n - 1 { MonthsBeforeGrows(m, n - 1, leap); }
  }

  lemma DayOfYear(m: nat, d: nat, leap: bool)
    requires 1 <= m <= 12 && 1 <= d <= MonthDays(m, leap)
    ensures MonthsBefore(m, leap) + d <= if leap then 366 else 365
  {
    MonthsOfYear(leap);
    if m < 12 { MonthsBeforeGrows(m, 12, leap); }
  }

  predicate LexLess(f: seq<nat>, g: seq<nat>)
    requires |f| == |g|
  {
    f != [] && (f[0] < g[0] || (f[0] == g[0] && LexLess(f[1..], g[1..])))
  }

  ghost predicate FirstLess(f: seq<nat>, g: seq<nat>, i: nat)
    requires |f| == |g|
  {
    i < |f| && f[i] < g[i] && f[..i] == g[..i]
  }

  /** Fields in order differ first at some position, and there the first is smaller. */
  lemma {:induction false} LexLessAt(f: seq<nat>, g: seq<nat>) returns (i: nat)
    requires |f| == |g| && LexLess(f, g)
    ensures FirstLess(f, g, i)
  {
    if f[0] < g[0] { return 0; }
    var j := LexLessAt(f[1..], g[1..]);
    assert f[..j + 1] == [f[0]] + f[1..][..j] && g[..j + 1] == [g[0]] + g[1..][..j];
    return j + 1;
  }

  lemma {:induction false} LexTotal(f: seq<nat>, g: seq<nat>)
    requires |f| == |g|
    ensures f == g || LexLess(f, g) || LexLess(g, f)
  {
    if f != [] {
      LexTotal(f[1..], g[1..]);
      if f[1..] == g[1..] { assert f == [f[0]] + f[1..] && g == [g[0]] + g[1..]; }
    }
  }

  /** A later date is more seconds away. */
  lemma DatesGrow(f: seq<nat>, g: seq<nat>)
    requires IsDate(f) && IsDate(g) && LexLess(f, g)
    ensures SecondsTo(f) < SecondsTo(g)
  {
    var i := LexLessAt(f, g);
    assert forall j :: 0 <= j < i ==> f[j] == f[..i][j] == g[..i][j] == g[j];
    DayOfYear(f[1], f[2], IsLeap(f[0]));
    if i == 0 { DaysBeforeGrows(f[0], g[0]); }
    if i == 1 { MonthsBeforeGrows(f[1], g[1], IsLeap(f[0])); }
    assert DayNumber(f) < DayNumber(g) || (DayNumber(f) == DayNumber(g) && i >= 3);
  }

  /** The leap years before y, counted without walking through them. */
  function LeapsBefore(y: nat): int { (y + 3) / 4 - (y + 99) / 100 + (y + 399) / 400 }

  lemma LeapStep(y: nat)
    ensures LeapsBefore(y + 1) == LeapsBefore(y) + if IsLeap(y) then 1 else 0
  {
    CenturyStep(y);
    FourCenturyStep(y);
    CenturiesAreQuads(y);
  }

  lemma CenturiesAreQuads(y: nat)
    ensures y % 100 == 0 ==> y % 4 == 0
    ensures y % 400 == 0 ==> y % 100 == 0
  {
    if y % 100 == 0 { assert y == 4 * (25 * (y / 100)); }
    if y % 400 == 0 { assert y == 100 * (4 * (y / 400)); }
  }

  lemma CenturyStep(y: nat)
    ensures (y + 100) / 100 - (y + 99) / 100 == if y % 100 == 0 then 1 else 0
  {
    var q, r := y / 100, y % 100;
    assert y == 100 * q + r;
    assert (y + 99) / 100 == if r == 0 then q else q + 1;
  }

  lemma FourCenturyStep(y: nat)
    ensures (y + 400) / 400 - (y + 399) / 400 == if y % 400 == 0 then 1 else 0
  {
    var q, r := y / 400, y % 400;
    assert y == 400 * q + r;
    assert (y + 399) / 400 == if r == 0 then q else q + 1;
  }

  lemma {:induction false} DaysBeforeClosed(y: nat)
    ensures DaysBefore(y) == 365 * y + LeapsBefore(y)
  {
    if y != 0 {
      LeapStep(y - 1);
      DaysBeforeClosed(y - 1);
      hide LeapsBefore, IsLeap;
    }
  }

  /** A date that many seconds away is the one written. */
  lemma FieldsOf(f: seq<nat>)
    requires IsDate(f)
    ensures Fields(SecondsTo(f)) == f
  {
    var g := Fields(SecondsTo(f));
    FieldsRoundTrip(SecondsTo(f));
    hide Fields, SecondsTo, LexLess, IsDate;
    LexTotal(f, g);
    if LexLess(f, g) { DatesGrow(f, g); }
    if LexLess(g, f) { DatesGrow(g, f); }
  }

  lemma YearField(seconds: nat)
    ensures Fields(seconds)[0] == DateOf(seconds / DAY)[0]
  {
    hide YearOf, MonthInYear;
  }

  lemma YearOfDate(day: nat, y: nat)
    ensures DateOf(day)[0] < y <==> day < DaysBefore(y)
  {
    var (year, r) := YearOf(day, 0);
    YearOfDay(day, 0);
    if year < y { DaysBeforeGrows(year, y); }
    if year > y { DaysBeforeGrows(y, year); }
  }
}
