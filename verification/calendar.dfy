/**
 * The calendar page: the month grid of the displayed month with each day's
 * status (and the holiday's name in the current language), the month
 * navigation buttons, the month's work/weekend/holiday counts, and the list
 * of the next three holidays.
 */
module Calendar {
  import opened JsDate
  import opened AppData
  import MonthGrid
  import Home

  /** A day's status on this page: the home page's kind, plus the holiday's name. */
  datatype CalendarStatus = CalendarStatus(kind: Home.DayStatus, name: Option<string>)

  /** `isRTL ? holiday.name : holiday.nameEn`. */
  function HolidayName(language: string, h: Holiday): string {
    if language == "ar" then h.name else h.nameEn
  }

  /**
   * `getDayStatus(date)`: weekend first, then the first listed holiday on that date
   * (named in the page's language), else work.
   */
  function GetDayStatus(weekendDays: seq<Weekday>, holidays: seq<Holiday>, language: string, date: int): (r: CalendarStatus)
    ensures r.kind == Home.GetDayStatus(weekendDays, holidays, date)
    ensures r.name.Some? <==> r.kind == Home.OfficialHoliday
    ensures r.name.Some? ==>
              exists i :: (0 <= i < |holidays| && holidays[i].date == date
                           && r.name.value == HolidayName(language, holidays[i])
                           && forall j :: 0 <= j < i ==> holidays[j].date != date)
  {
    if IsWeekendDay(weekendDays, date) then CalendarStatus(Home.Weekend, None)
    else
      var holiday := FindHoliday(holidays, date);
      if holiday.Some? then CalendarStatus(Home.OfficialHoliday, Some(HolidayName(language, holiday.value)))
      else CalendarStatus(Home.Work, None)
  }

  /** `generateCalendarDays()` for the displayed month. */
  method GenerateCalendarDays(s: AppSettings, holidays: seq<Holiday>, language: string, currentDate: int, today: int)
    returns (days: seq<Option<MonthGrid.Cell<CalendarStatus>>>)
    ensures MonthGrid.IsMonthGrid(days, GetFullYear(currentDate), GetMonth(currentDate), today,
                                  (d: int) => GetDayStatus(s.weekendDays, holidays, language, d))
  {
    days := MonthGrid.Build(GetFullYear(currentDate), GetMonth(currentDate), today,
                            (d: int) => GetDayStatus(s.weekendDays, holidays, language, d));
  }

  // ----- month navigation ---------------------------------------------------------

  datatype Direction = Prev | Next

  function Step(d: Direction): int {
    match d
    case Prev => -1
    case Next => 1
  }

  /** The month index 12 * year + month of a day, so that stepping a month is adding 1. */
  function MonthIndex(t: int): int {
    12 * GetFullYear(t) + GetMonth(t)
  }

  /**
   * `navigateMonth` as written: `setMonth(getMonth() ± 1)` keeps the day of the
   * month, which JavaScript carries into the following month when the target
   * month is shorter.
   */
  function NavigateMonthAsWritten(t: int, d: Direction): int {
    SetMonth(t, GetMonth(t) + Step(d))
  }

  /** The month navigation the page means: the first day of the previous or next month. */
  function NavigateMonth(t: int, d: Direction): int {
    MakeDay(GetFullYear(t), GetMonth(t) + Step(d), 1)
  }

  /** MakeDay on an out-of-range month is MakeDay on the carried year and month. */
  lemma {:induction false} MakeDayCarry(y: int, m: int, day: int)
    ensures 0 <= m % 12 < 12
    ensures MakeDay(y, m, day) == MakeDay(y + m / 12, m % 12, day)
    ensures 12 * (y + m / 12) + m % 12 == 12 * y + m
  {
  }

  /** The corrected navigation moves exactly one month, to its first day. */
  lemma {:induction false} NavigateMonthMoves(t: int, d: Direction)
    ensures MonthIndex(NavigateMonth(t, d)) == MonthIndex(t) + Step(d)
    ensures GetDate(NavigateMonth(t, d)) == 1
  {
    var (y2, m2) := TargetMonth(t, d);
    TargetDay(t, d, 1);
    CivilRoundTrip(Civil(y2, m2, 1));
  }

  /** Day `day` of the month one step from t's month, written with the carried year and month. */
  lemma {:induction false} TargetDay(t: int, d: Direction, day: int)
    ensures MakeDay(GetFullYear(t), GetMonth(t) + Step(d), day)
            == MakeDay(TargetMonth(t, d).0, TargetMonth(t, d).1, day)
  {
    MakeDayCarry(GetFullYear(t), GetMonth(t) + Step(d), day);
  }

  /** Day `day` (at least 1) of month m stays in month m exactly when the month has that many days. */
  lemma {:induction false} StaysInMonth(y: int, m: int, day: int)
    requires 0 <= m < 12 && 1 <= day
    ensures 12 * GetFullYear(MakeDay(y, m, day)) + GetMonth(MakeDay(y, m, day)) == 12 * y + m
        <==> day <= DaysInMonth(y, m)
  {
    if day <= DaysInMonth(y, m) {
      CivilRoundTrip(Civil(y, m, day));
    } else {
      MakeDayInRange(y, m, day);
      MakeDayInRange(y, m, DaysInMonth(y, m));
      MonthUpperBound(y, m, MakeDay(y, m, day));
    }
  }

  /** The year and month one step from the month of t. */
  function TargetMonth(t: int, d: Direction): (r: (int, int))
    ensures 0 <= r.1 < 12
    ensures 12 * r.0 + r.1 == MonthIndex(t) + Step(d)
  {
    var m := GetMonth(t) + Step(d);
    (GetFullYear(t) + m / 12, m % 12)
  }

  /** As written, navigation moves one month exactly when the day of the month exists there. */
  lemma {:induction false} NavigateAsWrittenWhenDayFits(t: int, d: Direction)
    ensures (MonthIndex(NavigateMonthAsWritten(t, d)) == MonthIndex(t) + Step(d))
            == (GetDate(t) <= DaysInMonth(TargetMonth(t, d).0, TargetMonth(t, d).1))
  {
    var (y2, m2) := TargetMonth(t, d);
    TargetDay(t, d, GetDate(t));
    StaysInMonth(y2, m2, GetDate(t));
  }

  /** The month index determines the year and the month. */
  lemma {:induction false} MonthIndexParts(t: int, y: int, m: int)
    requires 0 <= m < 12 && MonthIndex(t) == 12 * y + m
    ensures GetFullYear(t) == y && GetMonth(t) == m
  {
    var c := ToCivil(t);
    assert 0 <= c.month < 12;
  }

  /**
   * In every year the next button pressed on 31 January lands in March, skipping
   * February, while the corrected navigation lands in February.
   */
  lemma {:induction false} NextSkipsFebruary(y: int)
    ensures GetMonth(NavigateMonthAsWritten(MakeDay(y, 0, 31), Next)) == 2
    ensures GetMonth(NavigateMonth(MakeDay(y, 0, 31), Next)) == 1
  {
    var t := MakeDay(y, 0, 31);
    CivilRoundTrip(Civil(y, 0, 31));
    assert NavigateMonthAsWritten(t, Next) == MakeDay(y, 1, 31);
    var feb := DaysInMonth(y, 1);
    MonthOverflow(y, 1, 31);
    CivilRoundTrip(Civil(y, 2, 31 - feb));
    NavigateMonthMoves(t, Next);
    assert MonthIndex(t) == 12 * y;
    MonthIndexParts(NavigateMonth(t, Next), y, 1);
  }

  /** A day past the end of month m is that many days into month m + 1 (no year change). */
  lemma {:induction false} MonthOverflow(y: int, m: int, day: int)
    requires 0 <= m < 11 && DaysInMonth(y, m) < day
    ensures MakeDay(y, m, day) == MakeDay(y, m + 1, day - DaysInMonth(y, m))
  {
    MakeDayInRange(y, m, day);
    MakeDayInRange(y, m + 1, day - DaysInMonth(y, m));
    DaysBeforeMonthStep(y, m);
  }

  // ----- the month's counts ---------------------------------------------------------

  datatype MonthStats = MonthStats(workDays: nat, weekends: nat, holidays: nat)

  /** `calendarDays.filter(day => day && day.status.type === k).length`. */
  function CountKind(days: seq<Option<MonthGrid.Cell<CalendarStatus>>>, k: Home.DayStatus): nat {
    if days == [] then 0
    else CountKind(days[..|days| - 1], k)
         + if days[|days| - 1].Some? && days[|days| - 1].value.info.kind == k then 1 else 0
  }

  /** `getMonthStats()`. */
  function GetMonthStats(days: seq<Option<MonthGrid.Cell<CalendarStatus>>>): MonthStats {
    MonthStats(CountKind(days, Home.Work), CountKind(days, Home.Weekend), CountKind(days, Home.OfficialHoliday))
  }

  lemma {:induction false} CountKindsSum(days: seq<Option<MonthGrid.Cell<CalendarStatus>>>)
    ensures CountKind(days, Home.Work) + CountKind(days, Home.Weekend) + CountKind(days, Home.OfficialHoliday)
            == MonthGrid.CountDays(days)
  {
    if days != [] {
      CountKindsSum(days[..|days| - 1]);
    }
  }

  /** Every day of the displayed month is counted once: the three counts add up to the month's length. */
  lemma {:induction false} MonthStatsTotal(days: seq<Option<MonthGrid.Cell<CalendarStatus>>>, y: int, m: int, today: int,
                        infoOf: int -> CalendarStatus)
    requires MonthGrid.IsMonthGrid(days, y, m, today, infoOf)
    ensures var st := GetMonthStats(days);
            st.workDays + st.weekends + st.holidays == DaysInMonth(y, m)
  {
    CountKindsSum(days);
    MonthGrid.GridHasEveryDayOnce(days, y, m, today, infoOf);
  }

  // ----- upcoming holidays ----------------------------------------------------------

  /** `new Date(holiday.date) >= new Date()`: the holiday's midnight is not before now (in ms). */
  predicate NotPast(h: Holiday, nowMs: int) {
    h.date * MsPerDay >= nowMs
  }

  /** `.filter(...)`. */
  function FilterNotPast(holidays: seq<Holiday>, nowMs: int): seq<Holiday> {
    if holidays == [] then []
    else FilterNotPast(holidays[..|holidays| - 1], nowMs)
         + if NotPast(holidays[|holidays| - 1], nowMs) then [holidays[|holidays| - 1]] else []
  }

  /** Holidays listed as upcoming. */
  const UpcomingCount: int := 3

  /** `.filter(...).slice(0, 3)`. */
  function UpcomingHolidays(holidays: seq<Holiday>, nowMs: int): seq<Holiday> {
    var f := FilterNotPast(holidays, nowMs);
    if |f| <= UpcomingCount then f else f[..UpcomingCount]
  }

  lemma {:induction false} FilterNotPastFacts(holidays: seq<Holiday>, nowMs: int)
    ensures forall h :: h in FilterNotPast(holidays, nowMs) <==> h in holidays && NotPast(h, nowMs)
  {
    if holidays != [] {
      FilterNotPastFacts(holidays[..|holidays| - 1], nowMs);
      assert holidays == holidays[..|holidays| - 1] + [holidays[|holidays| - 1]];
    }
  }

  /** A single holiday is kept exactly when it is not past. */
  lemma {:induction false} FilterNotPastSingle(h: Holiday, nowMs: int)
    ensures FilterNotPast([h], nowMs) == if NotPast(h, nowMs) then [h] else []
  {
  }

  /**
   * The filter keeps the list's order: filtering a concatenation is concatenating the
   * filtered parts.
   */
  lemma {:induction false} FilterNotPastAppend(a: seq<Holiday>, b: seq<Holiday>, nowMs: int)
    ensures FilterNotPast(a + b, nowMs) == FilterNotPast(a, nowMs) + FilterNotPast(b, nowMs)
    decreases |b|
  {
    if b == [] {
      assert a + b == a;
    } else {
      var b' := b[..|b| - 1];
      FilterNotPastAppend(a, b', nowMs);
      assert (a + b)[..|a + b| - 1] == a + b';
    }
  }

  /**
   * At most three holidays are listed, all from the table and none past; they come first
   * among the holidays that are not past, and with fewer than three every such holiday is listed.
   */
  lemma {:induction false} UpcomingFacts(holidays: seq<Holiday>, nowMs: int)
    ensures var u := UpcomingHolidays(holidays, nowMs);
            && |u| <= UpcomingCount
            && (forall h :: h in u ==> h in holidays && NotPast(h, nowMs))
            && u == FilterNotPast(holidays, nowMs)[..|u|]
            && (|u| < UpcomingCount ==> forall h :: h in holidays && NotPast(h, nowMs) ==> h in u)
  {
    FilterNotPastFacts(holidays, nowMs);
  }

  /**
   * The listed holidays are the first ones not past in the list's order: when the first k
   * holidays of the list already hold as many not past, the listed ones are exactly those.
   */
  lemma {:induction false} UpcomingInListOrder(holidays: seq<Holiday>, nowMs: int, k: int)
    requires 0 <= k <= |holidays|
    requires |UpcomingHolidays(holidays, nowMs)| <= |FilterNotPast(holidays[..k], nowMs)|
    ensures var u := UpcomingHolidays(holidays, nowMs);
            u == FilterNotPast(holidays[..k], nowMs)[..|u|]
  {
    assert holidays == holidays[..k] + holidays[k..];
    FilterNotPastAppend(holidays[..k], holidays[k..], nowMs);
  }

  /** `Math.ceil((date.getTime() - new Date().getTime()) / 86400000)`: days left, rounded up. */
  function DaysLeft(h: Holiday, nowMs: int): int {
    -((nowMs - h.date * MsPerDay) / MsPerDay)
  }

  /**
   * The counter is the number of calendar days from today to the holiday, whatever the
   * time of day; a holiday still listed never shows a negative count.
   */
  lemma {:induction false} DaysLeftCounts(h: Holiday, nowMs: int)
    ensures DaysLeft(h, nowMs) == h.date - nowMs / MsPerDay
    ensures NotPast(h, nowMs) ==> DaysLeft(h, nowMs) >= 0
  {
    var today, r := nowMs / MsPerDay, nowMs % MsPerDay;
    var k := today - h.date;
    assert nowMs - h.date * MsPerDay == k * MsPerDay + r;
    assert (k * MsPerDay + r) / MsPerDay == k;
  }
}
