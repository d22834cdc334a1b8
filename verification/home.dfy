/**
 * The home page: today's status, the "are work settings configured" test
 * that decides whether the status, the mini calendar and the legend are
 * shown, and the mini calendar itself (a month grid of which only the first
 * 14 cells are drawn, followed by an ellipsis when the grid is longer).
 *
 * Unlike the statistics page, the home page tries the weekend before the
 * holiday table and knows nothing of shift leave.
 */
module Home {
  import opened JsDate
  import opened AppData
  import MonthGrid
  import Charts

  /** `status.type`. */
  datatype DayStatus = Work | Weekend | OfficialHoliday

  /** `getDayStatus(date)`: a configured weekend day first, then a listed holiday, else work. */
  function GetDayStatus(weekendDays: seq<Weekday>, holidays: seq<Holiday>, date: int): (r: DayStatus)
    ensures r == Weekend <==> IsWeekendDay(weekendDays, date)
    ensures r == OfficialHoliday <==> !IsWeekendDay(weekendDays, date) && IsListedHoliday(holidays, date)
  {
    if IsWeekendDay(weekendDays, date) then Weekend
    else if IsListedHoliday(holidays, date) then OfficialHoliday
    else Work
  }

  /** JavaScript truthiness of the three settings fields `hasWorkSettings` tests. */
  predicate StringTruthy(s: string) { s != "" }
  /** An array is an object, and every object is truthy, even an empty array. */
  predicate ArrayTruthy(a: seq<Weekday>) { true }
  /** The stored work system is 'official' or 'shift', both non-empty strings. */
  predicate WorkSystemTruthy(w: WorkSystem) { true }

  /**
   * `hasWorkSettings`: only an empty country makes it false; an empty
   * weekend list still counts as configured.
   */
  predicate HasWorkSettings(s: AppSettings)
    ensures HasWorkSettings(s) <==> s.country != ""
  {
    StringTruthy(s.country) && ArrayTruthy(s.weekendDays) && WorkSystemTruthy(s.workSystem)
  }

  /** The status badge shown for today, or nothing without work settings. */
  function TodayBadge(s: AppSettings, holidays: seq<Holiday>, today: int): (r: Option<DayStatus>)
    ensures r.Some? <==> s.country != ""
    ensures r.Some? ==> r.value == GetDayStatus(s.weekendDays, holidays, today)
  {
    if HasWorkSettings(s) then Some(GetDayStatus(s.weekendDays, holidays, today)) else None
  }

  /** `generateCalendarDays()` for the month of currentDate. */
  method GenerateCalendarDays(s: AppSettings, holidays: seq<Holiday>, currentDate: int, today: int)
    returns (days: seq<Option<MonthGrid.Cell<DayStatus>>>)
    ensures MonthGrid.IsMonthGrid(days, GetFullYear(currentDate), GetMonth(currentDate), today,
                                  (d: int) => GetDayStatus(s.weekendDays, holidays, d))
  {
    days := MonthGrid.Build(GetFullYear(currentDate), GetMonth(currentDate), today,
                            (d: int) => GetDayStatus(s.weekendDays, holidays, d));
  }

  /** Cells the mini calendar draws. */
  const PreviewCells: int := 14

  /** `calendarDays.slice(0, 14)`. */
  function Preview<T>(days: seq<T>): (r: seq<T>)
    ensures |r| == if |days| < PreviewCells then |days| else PreviewCells
    ensures r == days[..|r|]
  {
    if |days| <= PreviewCells then days else days[..PreviewCells]
  }

  /** `calendarDays.length > 14`: whether the ellipsis is shown. */
  predicate ShowsEllipsis<T>(days: seq<T>) {
    |days| > PreviewCells
  }

  /**
   * On a month grid the ellipsis is always shown and the mini calendar draws
   * exactly the days 1 .. 14 - startingDayOfWeek, between 8 and 14 of them.
   */
  lemma {:induction false} PreviewOfMonth<T>(days: seq<Option<MonthGrid.Cell<T>>>, y: int, m: int, today: int, infoOf: int -> T)
    requires MonthGrid.IsMonthGrid(days, y, m, today, infoOf)
    ensures ShowsEllipsis(days)
    ensures MonthGrid.CountDays(Preview(days)) == PreviewCells - MonthGrid.StartingDayOfWeek(y, m)
    ensures 8 <= MonthGrid.CountDays(Preview(days))
    ensures forall i :: 0 <= i < |Preview(days)| && Preview(days)[i].Some? ==>
              1 <= Preview(days)[i].value.day <= PreviewCells - MonthGrid.StartingDayOfWeek(y, m)
  {
    var p := Preview(days);
    var s := MonthGrid.StartingDayOfWeek(y, m);
    assert |p| == PreviewCells;
    MonthGrid.CountDaysSplit(p, s);
  }

  /**
   * The home page and the statistics page classify a day alike except that a listed
   * holiday on a weekend day is a weekend here and a holiday there, and that a shift
   * leave day is a work day here.
   */
  lemma {:induction false} AgreesWithCharts(cfg: Charts.StatsConfig, date: int)
    ensures var h := GetDayStatus(cfg.weekendDays, cfg.holidays, date);
            var c := Charts.Classify(cfg, date);
            && (h == OfficialHoliday <==> c == Charts.HolidayDay && !IsWeekendDay(cfg.weekendDays, date))
            && (h == Weekend && c == Charts.HolidayDay <==> IsWeekendDay(cfg.weekendDays, date) && IsListedHoliday(cfg.holidays, date))
            && (h == Weekend && c != Charts.HolidayDay <==> c == Charts.WeekendDay)
            && (h == Work <==> c == Charts.WorkDay || c == Charts.VacationDay)
  {
  }
}
