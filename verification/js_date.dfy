/**
 * The slice of JavaScript's Date arithmetic that the pages rely on, with a
 * date represented by its day number: the number of whole days since
 * 1970-01-01 (negative before it), unbounded where a JavaScript Date stops
 * at 10^8 days either side.  For a year outside 0..99 the constructor
 * `new Date(y, m, d)` is `MakeDay`, which normalises an out-of-range month
 * or day exactly as the ECMAScript MakeDay operation does (month 12 is
 * January of the next year, day 0 is the last day of the previous month);
 * the constructor's reading of a year 0..99 as 1900 + y is not modelled.
 * The getters
 * getFullYear/getMonth/getDate/getDay are `GetFullYear`, `GetMonth`,
 * `GetDate` and `GetDay`; setDate and setMonth are `SetDate` and `SetMonth`.
 */
module JsDate {

  /** Milliseconds in one day, as `1000 * 60 * 60 * 24` in the pages. */
  const MsPerDay: int := 86_400_000

  /** A civil date: year, month index 0..11 (as getMonth), day of month from 1. */
  datatype Civil = Civil(year: int, month: int, day: int)

  predicate IsLeapYear(y: int) {
    (y % 4 == 0 && y % 100 != 0) || y % 400 == 0
  }

  function DaysInYear(y: int): int {
    if IsLeapYear(y) then 366 else 365
  }

  /** Gregorian length of month m (0 = January) of year y. */
  function DaysInMonth(y: int, m: int): (n: int)
    requires 0 <= m < 12
    ensures 28 <= n <= 31
  {
    if m == 1 then (if IsLeapYear(y) then 29 else 28)
    else if m == 3 || m == 5 || m == 8 || m == 10 then 30
    else 31
  }

  /** Days in the months before month m of year y (m = 12 gives the whole year). */
  function DaysBeforeMonth(y: int, m: int): (n: int)
    requires 0 <= m <= 12
    ensures 0 <= n
  {
    (if m == 0 then 0 else if m == 1 then 31 else if m == 2 then 59 else if m == 3 then 90
     else if m == 4 then 120 else if m == 5 then 151 else if m == 6 then 181 else if m == 7 then 212
     else if m == 8 then 243 else if m == 9 then 273 else if m == 10 then 304 else if m == 11 then 334
     else 365)
      + (if m >= 2 && IsLeapYear(y) then 1 else 0)
  }

  /** Day number of January 1 of year y (ECMAScript DayFromYear; `/` by a positive constant floors). */
  function DayFromYear(y: int): int {
    365 * (y - 1970) + (y - 1969) / 4 - (y - 1901) / 100 + (y - 1601) / 400
  }

  ghost predicate ValidCivil(c: Civil) {
    0 <= c.month < 12 && 1 <= c.day <= DaysInMonth(c.year, c.month)
  }

  /** `new Date(y, m, d)` as a day number; any month and day are normalised. */
  function MakeDay(y: int, m: int, d: int): int {
    var ym := y + m / 12;
    var mn := m % 12;
    DayFromYear(ym) + DaysBeforeMonth(ym, mn) + d - 1
  }

  /** getDay(): 0 = Sunday .. 6 = Saturday; 1970-01-01 was a Thursday. */
  function GetDay(t: int): (w: int)
    ensures 0 <= w < 7
  {
    (t + 4) % 7
  }

  // ----- year and month structure -------------------------------------------

  lemma {:induction false} DaysBeforeMonthStep(y: int, m: int)
    requires 0 <= m < 12
    ensures DaysBeforeMonth(y, m + 1) == DaysBeforeMonth(y, m) + DaysInMonth(y, m)
  {
  }

  lemma {:induction false} DaysBeforeYearEnd(y: int)
    ensures DaysBeforeMonth(y, 12) == DaysInYear(y)
  {
  }

  lemma {:induction false} Floor4Step(y: int)
    ensures (y - 1968) / 4 - (y - 1969) / 4 == (if y % 4 == 0 then 1 else 0)
  {
    assert (y - 1968) % 4 == 0 <==> y % 4 == 0;
  }

  lemma {:induction false} Floor100Step(y: int)
    ensures (y - 1900) / 100 - (y - 1901) / 100 == (if y % 100 == 0 then 1 else 0)
  {
    assert (y - 1900) % 100 == 0 <==> y % 100 == 0;
  }

  lemma {:induction false} Floor400Step(y: int)
    ensures (y - 1600) / 400 - (y - 1601) / 400 == (if y % 400 == 0 then 1 else 0)
  {
    assert (y - 1600) % 400 == 0 <==> y % 400 == 0;
  }

  /** Consecutive years start DaysInYear apart. */
  lemma {:induction false} DayFromYearStep(y: int)
    ensures DayFromYear(y + 1) == DayFromYear(y) + DaysInYear(y)
  {
    Floor4Step(y);
    Floor100Step(y);
    Floor400Step(y);
    LeapDivisors(y);
    var leap := (y - 1968) / 4 - (y - 1969) / 4 - ((y - 1900) / 100 - (y - 1901) / 100)
                + ((y - 1600) / 400 - (y - 1601) / 400);
    assert DaysInYear(y) == 365 + leap;
    assert DayFromYear(y + 1) == 365 * (y - 1969) + (y - 1968) / 4 - (y - 1900) / 100 + (y - 1600) / 400;
  }

  /** A multiple of 400 is a multiple of 100, and a multiple of 100 a multiple of 4. */
  lemma {:induction false} LeapDivisors(y: int)
    ensures y % 400 == 0 ==> y % 100 == 0
    ensures y % 100 == 0 ==> y % 4 == 0
  {
    if y % 400 == 0 {
      var q := y / 400;
      assert y / 100 == 4 * q;
    }
    if y % 100 == 0 {
      var q := y / 100;
      assert y / 4 == 25 * q;
    }
  }

  /** Year starts are strictly increasing. */
  lemma {:induction false} DayFromYearMonotone(a: int, b: int)
    requires a < b
    ensures DayFromYear(a + 1) <= DayFromYear(b)
    decreases b - a
  {
    if a + 1 < b {
      DayFromYearMonotone(a, b - 1);
      DayFromYearStep(b - 1);
    }
  }

  /** Day t lies in year y. */
  predicate InYear(y: int, t: int) {
    DayFromYear(y) <= t < DayFromYear(y + 1)
  }

  /** How far day t lies outside year y; 0 when it lies inside. */
  function YearDistance(t: int, y: int): nat {
    if t < DayFromYear(y) then DayFromYear(y) - t
    else if t >= DayFromYear(y + 1) then t - DayFromYear(y + 1) + 1
    else 0
  }

  /** Walks from year y towards the year that contains day t, then places t in that year. */
  function CivilFrom(t: int, y: int): (c: Civil)
    ensures ValidCivil(c)
    ensures MakeDay(c.year, c.month, c.day) == t
    decreases YearDistance(t, y)
  {
    DayFromYearStep(y - 1);
    DayFromYearStep(y);
    DayFromYearStep(y + 1);
    if t < DayFromYear(y) then CivilFrom(t, y - 1)
    else if t >= DayFromYear(y + 1) then CivilFrom(t, y + 1)
    else CivilInYear(t, y)
  }

  lemma {:induction false} YearUnique(t: int, a: int, b: int)
    requires InYear(a, t) && InYear(b, t)
    ensures a == b
  {
    if a < b { DayFromYearMonotone(a, b); }
    if b < a { DayFromYearMonotone(b, a); }
  }

  /** Walks through the months of year y to the one containing offset r. */
  function MonthSearch(y: int, r: int, m: int): (k: int)
    requires 0 <= m < 12
    requires DaysBeforeMonth(y, m) <= r < DaysBeforeMonth(y, 12)
    ensures m <= k < 12
    ensures DaysBeforeMonth(y, k) <= r < DaysBeforeMonth(y, k + 1)
    decreases 12 - m
  {
    DaysBeforeMonthStep(y, m);
    if r < DaysBeforeMonth(y, m + 1) then m else MonthSearch(y, r, m + 1)
  }

  lemma {:induction false} DaysBeforeMonthMonotone(y: int, a: int, b: int)
    requires 0 <= a < b <= 12
    ensures DaysBeforeMonth(y, a + 1) <= DaysBeforeMonth(y, b)
    decreases b - a
  {
    if a + 1 < b {
      DaysBeforeMonthMonotone(y, a, b - 1);
      DaysBeforeMonthStep(y, b - 1);
    }
  }

  lemma {:induction false} MonthUnique(y: int, r: int, a: int, b: int)
    requires 0 <= a < 12 && 0 <= b < 12
    requires InMonth(y, a, r) && InMonth(y, b, r)
    ensures a == b
  {
    if a < b { DaysBeforeMonthMonotone(y, a, b); }
    if b < a { DaysBeforeMonthMonotone(y, b, a); }
  }

  // ----- the getters ----------------------------------------------------------

  /** The month and day of day t, which lies in year y. */
  function CivilInYear(t: int, y: int): (c: Civil)
    requires InYear(y, t)
    ensures ValidCivil(c)
    ensures MakeDay(c.year, c.month, c.day) == t
  {
    var r := t - DayFromYear(y);
    DayFromYearStep(y);
    DaysBeforeYearEnd(y);
    var m := MonthSearch(y, r, 0);
    DaysBeforeMonthStep(y, m);
    MakeDayInRange(y, m, r - DaysBeforeMonth(y, m) + 1);
    Civil(y, m, r - DaysBeforeMonth(y, m) + 1)
  }

  /** The civil date of day t (getFullYear, getMonth, getDate together). */
  function ToCivil(t: int): (c: Civil)
    ensures ValidCivil(c)
    ensures MakeDay(c.year, c.month, c.day) == t
  {
    CivilFrom(t, 1970)
  }

  function GetFullYear(t: int): int { ToCivil(t).year }
  function GetMonth(t: int): int { ToCivil(t).month }
  function GetDate(t: int): int { ToCivil(t).day }

  /** `date.setDate(d)`: same year and month, day of month d (normalised). */
  function SetDate(t: int, d: int): int {
    MakeDay(GetFullYear(t), GetMonth(t), d)
  }

  /** `date.setMonth(m)`: same year and day of month, month m (normalised). */
  function SetMonth(t: int, m: int): int {
    MakeDay(GetFullYear(t), m, GetDate(t))
  }

  /** For an in-range month, MakeDay needs no normalisation. */
  lemma {:induction false} MakeDayInRange(y: int, m: int, d: int)
    requires 0 <= m < 12
    ensures MakeDay(y, m, d) == DayFromYear(y) + DaysBeforeMonth(y, m) + d - 1
  {
    assert m / 12 == 0 && m % 12 == m;
  }

  /** Day offset r within year y (0 = January 1) lies in month m: the month's range of offsets. */
  predicate InMonth(y: int, m: int, r: int)
    requires 0 <= m < 12
  {
    DaysBeforeMonth(y, m) <= r < DaysBeforeMonth(y, m + 1)
  }

  /** A valid civil date lies inside its year and inside its month of that year. */
  lemma {:induction false} CivilPlacement(c: Civil)
    requires ValidCivil(c)
    ensures MakeDay(c.year, c.month, c.day) == DayFromYear(c.year) + DaysBeforeMonth(c.year, c.month) + c.day - 1
    ensures InYear(c.year, MakeDay(c.year, c.month, c.day))
    ensures InMonth(c.year, c.month, MakeDay(c.year, c.month, c.day) - DayFromYear(c.year))
  {
    MakeDayInRange(c.year, c.month, c.day);
    DaysBeforeMonthStep(c.year, c.month);
    DaysBeforeYearEnd(c.year);
    DayFromYearStep(c.year);
    if c.month < 11 { DaysBeforeMonthMonotone(c.year, c.month, 12); }
  }

  /** Two valid civil dates on the same day lie in the same year. */
  lemma {:induction false} CivilSameYear(a: Civil, b: Civil)
    requires ValidCivil(a) && ValidCivil(b)
    requires MakeDay(a.year, a.month, a.day) == MakeDay(b.year, b.month, b.day)
    ensures a.year == b.year
  {
    CivilPlacement(a);
    CivilPlacement(b);
    YearUnique(MakeDay(a.year, a.month, a.day), a.year, b.year);
  }

  /** Different valid civil dates are different days. */
  lemma {:induction false} CivilInjective(a: Civil, b: Civil)
    requires ValidCivil(a) && ValidCivil(b)
    requires MakeDay(a.year, a.month, a.day) == MakeDay(b.year, b.month, b.day)
    ensures a == b
  {
    CivilSameYear(a, b);
    CivilPlacement(a);
    CivilPlacement(b);
    var t := MakeDay(a.year, a.month, a.day);
    MonthUnique(a.year, t - DayFromYear(a.year), a.month, b.month);
  }

  /** A valid civil date survives the trip to a day number and back. */
  lemma {:induction false} CivilRoundTrip(c: Civil)
    requires ValidCivil(c)
    ensures ToCivil(MakeDay(c.year, c.month, c.day)) == c
  {
    CivilInjective(c, ToCivil(MakeDay(c.year, c.month, c.day)));
  }

  /** `new Date(y, m + 1, 0)` is the last day of month m, so its getDate() is the month's length. */
  lemma {:induction false} DayZeroOfNextMonth(y: int, m: int)
    requires 0 <= m < 12
    ensures MakeDay(y, m + 1, 0) == MakeDay(y, m, DaysInMonth(y, m))
    ensures ToCivil(MakeDay(y, m + 1, 0)) == Civil(y, m, DaysInMonth(y, m))
  {
    MakeDayInRange(y, m, DaysInMonth(y, m));
    DaysBeforeMonthStep(y, m);
    if m == 11 {
      assert (m + 1) / 12 == 1 && (m + 1) % 12 == 0;
      DayFromYearStep(y);
      DaysBeforeYearEnd(y);
    } else {
      MakeDayInRange(y, m + 1, 0);
    }
    CivilRoundTrip(Civil(y, m, DaysInMonth(y, m)));
  }

  /** `t.setDate(t.getDate() + k)` moves t by exactly k days, across month and year ends. */
  lemma {:induction false} SetDateShift(t: int, k: int)
    ensures SetDate(t, GetDate(t) + k) == t + k
  {
    var c := ToCivil(t);
    MakeDayInRange(c.year, c.month, c.day);
    MakeDayInRange(c.year, c.month, c.day + k);
  }

  /** Every month of year y ends no later than the start of year y + 1. */
  lemma {:induction false} MonthEndsInYear(y: int, m: int)
    requires 0 <= m < 12
    ensures MakeDay(y, m, 1) + DaysInMonth(y, m) <= DayFromYear(y + 1)
  {
    MakeDayInRange(y, m, 1);
    DaysBeforeMonthStep(y, m);
    if m < 11 { DaysBeforeMonthMonotone(y, m, 12); }
    DaysBeforeYearEnd(y);
    DayFromYearStep(y);
  }

  /** Within one year, a month ends before any later month begins. */
  lemma {:induction false} MonthOrderSameYear(y: int, m1: int, m2: int)
    requires 0 <= m1 < m2 < 12
    ensures MakeDay(y, m1, 1) + DaysInMonth(y, m1) <= MakeDay(y, m2, 1)
  {
    MakeDayInRange(y, m1, 1);
    MakeDayInRange(y, m2, 1);
    DaysBeforeMonthStep(y, m1);
    if m1 + 1 < m2 { DaysBeforeMonthMonotone(y, m1, m2); }
  }

  /** Every month of a year ends before any month of a later year begins. */
  lemma {:induction false} MonthOrderLaterYear(y1: int, m1: int, y2: int, m2: int)
    requires 0 <= m1 < 12 && 0 <= m2 < 12 && y1 < y2
    ensures MakeDay(y1, m1, 1) + DaysInMonth(y1, m1) <= MakeDay(y2, m2, 1)
  {
    MonthEndsInYear(y1, m1);
    if y1 + 1 < y2 { DayFromYearMonotone(y1, y2); }
    MakeDayInRange(y2, m2, 1);
  }

  /** Months in order: month (y1, m1) ends before month (y2, m2) begins when it comes first. */
  lemma {:induction false} MonthOrder(y1: int, m1: int, y2: int, m2: int)
    requires 0 <= m1 < 12 && 0 <= m2 < 12
    requires 12 * y1 + m1 < 12 * y2 + m2
    ensures MakeDay(y1, m1, 1) + DaysInMonth(y1, m1) <= MakeDay(y2, m2, 1)
  {
    if y1 == y2 {
      MonthOrderSameYear(y1, m1, m2);
    } else {
      MonthOrderLaterYear(y1, m1, y2, m2);
    }
  }

  /** Day t falls on or after the first day of month (y, m) exactly when its month is not earlier. */
  lemma {:induction false} MonthLowerBound(y: int, m: int, t: int)
    requires 0 <= m < 12
    ensures MakeDay(y, m, 1) <= t <==> 12 * y + m <= 12 * ToCivil(t).year + ToCivil(t).month
  {
    var c := ToCivil(t);
    CivilPlacement(c);
    MakeDayInRange(c.year, c.month, 1);
    DaysBeforeMonthStep(c.year, c.month);
    var k := 12 * c.year + c.month;
    if k < 12 * y + m { MonthOrder(c.year, c.month, y, m); }
    if k > 12 * y + m { MonthOrder(y, m, c.year, c.month); }
    if k == 12 * y + m { assert c.year == y && c.month == m; }
  }

  /** Day t falls on or before the last day of month (y, m) exactly when its month is not later. */
  lemma {:induction false} MonthUpperBound(y: int, m: int, t: int)
    requires 0 <= m < 12
    ensures t <= MakeDay(y, m, DaysInMonth(y, m)) <==> 12 * ToCivil(t).year + ToCivil(t).month <= 12 * y + m
  {
    var c := ToCivil(t);
    CivilPlacement(c);
    MakeDayInRange(c.year, c.month, 1);
    MakeDayInRange(y, m, 1);
    MakeDayInRange(y, m, DaysInMonth(y, m));
    DaysBeforeMonthStep(c.year, c.month);
    var k := 12 * c.year + c.month;
    if k > 12 * y + m { MonthOrder(y, m, c.year, c.month); }
    if k < 12 * y + m { MonthOrder(c.year, c.month, y, m); }
    if k == 12 * y + m { assert c.year == y && c.month == m; }
  }

  /**
   * `copy.setDate(copy.getDate() + k)` on a copy of date t, as the pages step through
   * days: the result is exactly k days later, across month and year ends.
   */
  method AddDays(t: int, k: int) returns (r: int)
    ensures r == t + k
  {
    r := SetDate(t, GetDate(t) + k);
    SetDateShift(t, k);
  }

  /** The first and last day of month m lie DaysInMonth - 1 days apart. */
  lemma {:induction false} MonthSpan(y: int, m: int)
    requires 0 <= m < 12
    ensures MakeDay(y, m + 1, 0) - MakeDay(y, m, 1) + 1 == DaysInMonth(y, m)
  {
    DayZeroOfNextMonth(y, m);
  }
}
