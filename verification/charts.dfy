/**
 * The statistics page: the month, quarter or year around "now", a day-by-day
 * walk over it that puts every day in exactly one of four counters (holiday,
 * weekend, personal leave, work, tried in that order), the pie-chart rows
 * with a positive count, and the quarter number of the period label.
 *
 * Days are day numbers; `now` is the day number of the current date.
 */
module Charts {
  import opened JsDate
  import opened AppData
  import ShiftSystem

  /** The record stored under 'shiftSettings' that this page reads. */
  datatype ShiftSettings = ShiftSettings(startDate: int, workDays: int, vacationDays: int)

  /** Everything the classification reads: the app settings it uses, the shift record and the holiday table. */
  datatype StatsConfig = StatsConfig(
    weekendDays: seq<Weekday>,
    workSystem: WorkSystem,
    shift: Option<ShiftSettings>,
    holidays: seq<Holiday>)

  datatype Period = Month | Quarter | Year

  /** The counter a day goes to. */
  datatype DayKind = WorkDay | WeekendDay | HolidayDay | VacationDay

  datatype WorkStats = WorkStats(workDays: nat, weekendDays: nat, holidayDays: nat, vacationDays: nat)

  /** `totalDays`. */
  function Total(s: WorkStats): nat {
    s.workDays + s.weekendDays + s.holidayDays + s.vacationDays
  }

  // ----- the shift cycle as this page computes it -------------------------------

  function Abs(x: int): nat { if x < 0 then -x else x }

  /**
   * JavaScript's `a % b`: the remainder of division truncated toward zero,
   * which takes the sign of a (Dafny's `%` is Euclidean and never negative).
   */
  function TruncRem(a: int, b: int): (r: int)
    requires b != 0
    ensures Abs(r) < Abs(b)
    ensures a >= 0 ==> r >= 0
    ensures a <= 0 ==> r <= 0
  {
    if a >= 0 then a % Abs(b) else -((-a) % Abs(b))
  }

  /**
   * `isVacationDay`: only under the shift system with a stored shift record;
   * the cycle is counted from the record's start date, vacation days follow
   * the work days, and a cycle of length 0 (remainder NaN) is never vacation.
   */
  predicate IsVacationDay(cfg: StatsConfig, date: int) {
    if cfg.shift.None? || cfg.workSystem != Shift then false
    else
      var s := cfg.shift.value;
      var daysDiff := date - s.startDate;
      var cycleLength := s.workDays + s.vacationDays;
      cycleLength != 0 && TruncRem(daysDiff, cycleLength) >= s.workDays
  }

  /** The if/else-if chain of the counting loop: holiday, then weekend, then vacation, else work. */
  function Classify(cfg: StatsConfig, date: int): (k: DayKind)
    ensures IsListedHoliday(cfg.holidays, date) ==> k == HolidayDay
    ensures k == HolidayDay ==> IsListedHoliday(cfg.holidays, date)
    ensures k == WeekendDay <==> !IsListedHoliday(cfg.holidays, date) && IsWeekendDay(cfg.weekendDays, date)
    ensures k == VacationDay <==>
              !IsListedHoliday(cfg.holidays, date) && !IsWeekendDay(cfg.weekendDays, date) && IsVacationDay(cfg, date)
    ensures k == VacationDay ==> cfg.workSystem == Shift && cfg.shift.Some?
    ensures k == WorkDay <==>
              !IsListedHoliday(cfg.holidays, date) && !IsWeekendDay(cfg.weekendDays, date) && !IsVacationDay(cfg, date)
  {
    if IsListedHoliday(cfg.holidays, date) then HolidayDay
    else if IsWeekendDay(cfg.weekendDays, date) then WeekendDay
    else if IsVacationDay(cfg, date) then VacationDay
    else WorkDay
  }

  function Count(s: WorkStats, k: DayKind): WorkStats {
    match k
    case WorkDay => s.(workDays := s.workDays + 1)
    case WeekendDay => s.(weekendDays := s.weekendDays + 1)
    case HolidayDay => s.(holidayDays := s.holidayDays + 1)
    case VacationDay => s.(vacationDays := s.vacationDays + 1)
  }

  /** Reference definition: the counters after classifying the n days from start. */
  function Tally(cfg: StatsConfig, start: int, n: nat): WorkStats {
    if n == 0 then WorkStats(0, 0, 0, 0)
    else Count(Tally(cfg, start, n - 1), Classify(cfg, start + n - 1))
  }

  // ----- the period window --------------------------------------------------------

  /** `Math.floor(month / 3)`: the 0-based quarter of a month. */
  function QuarterOf(month: int): (q: int)
    requires 0 <= month < 12
    ensures 0 <= q < 4
    ensures 3 * q <= month < 3 * q + 3
  {
    month / 3
  }

  /** The quarter number in the period label: 1..4, the quarter holding the month. */
  function QuarterLabel(month: int): (n: int)
    requires 0 <= month < 12
    ensures 1 <= n <= 4
    ensures 3 * (n - 1) <= month < 3 * n
  {
    QuarterOf(month) + 1
  }

  /** An inclusive range of days. */
  datatype Range = Range(first: int, last: int)

  /** Number of days in a range; none when it is empty. */
  function Size(r: Range): nat {
    if r.first <= r.last then r.last - r.first + 1 else 0
  }

  /** The `switch (period)`: the first and last day of the period holding month m of year y. */
  function PeriodRange(period: Period, y: int, m: int): Range
    requires 0 <= m < 12
  {
    match period
    case Month => Range(MakeDay(y, m, 1), MakeDay(y, m + 1, 0))
    case Quarter =>
      var quarter := QuarterOf(m);
      Range(MakeDay(y, quarter * 3, 1), MakeDay(y, quarter * 3 + 3, 0))
    case Year => Range(MakeDay(y, 0, 1), MakeDay(y, 11, 31))
  }

  /** `startDate` and `endDate` of the selected period around now. */
  function Window(period: Period, now: int): Range {
    PeriodRange(period, GetFullYear(now), GetMonth(now))
  }

  /** First and last month of the period holding month m. */
  function FirstMonth(period: Period, m: int): (r: int)
    requires 0 <= m < 12
    ensures 0 <= r <= m
  {
    match period
    case Month => m
    case Quarter => 3 * QuarterOf(m)
    case Year => 0
  }

  function LastMonth(period: Period, m: int): (r: int)
    requires 0 <= m < 12
    ensures m <= r < 12
  {
    match period
    case Month => m
    case Quarter => 3 * QuarterOf(m) + 2
    case Year => 11
  }

  /** Whether month dm of year dy lies in the same month, quarter or year as month m of year y. */
  predicate SamePeriod(period: Period, y: int, m: int, dy: int, dm: int) {
    match period
    case Month => dy == y && dm == m
    case Quarter => dy == y && dm / 3 == m / 3
    case Year => dy == y
  }

  /** Whether day t lies in the same month, quarter or year as now. */
  predicate InPeriod(period: Period, now: int, t: int) {
    SamePeriod(period, GetFullYear(now), GetMonth(now), GetFullYear(t), GetMonth(t))
  }

  /** Sharing the period is lying between its first and last month, counted in months. */
  lemma {:induction false} SamePeriodByMonths(period: Period, y: int, m: int, dy: int, dm: int)
    requires 0 <= m < 12 && 0 <= dm < 12
    ensures SamePeriod(period, y, m, dy, dm)
        <==> 12 * y + FirstMonth(period, m) <= 12 * dy + dm <= 12 * y + LastMonth(period, m)
  {
  }

  /** Months first..last of year y, as a range of days. */
  function Months(y: int, first: int, last: int): Range {
    Range(MakeDay(y, first, 1), MakeDay(y, last + 1, 0))
  }

  /** The months first..last of year y hold exactly the days whose month lies between them. */
  lemma {:induction false} MonthsContain(y: int, first: int, last: int, t: int)
    requires 0 <= first <= last < 12
    ensures Months(y, first, last).first <= t <= Months(y, first, last).last
        <==> 12 * y + first <= 12 * ToCivil(t).year + ToCivil(t).month <= 12 * y + last
  {
    MonthLowerBound(y, first, t);
    MonthUpperBound(y, last, t);
    DayZeroOfNextMonth(y, last);
  }

  /** The months first..last of year y span the days before month last + 1 less those before first. */
  lemma {:induction false} MonthsLength(y: int, first: int, last: int)
    requires 0 <= first <= last < 12
    ensures Months(y, first, last).last - Months(y, first, last).first + 1
        == DaysBeforeMonth(y, last + 1) - DaysBeforeMonth(y, first)
  {
    DayZeroOfNextMonth(y, last);
    MakeDayInRange(y, first, 1);
    MakeDayInRange(y, last, DaysInMonth(y, last));
    DaysBeforeMonthStep(y, last);
  }

  /** `new Date(y, 11, 31)` is `new Date(y, 12, 0)`: December has 31 days. */
  lemma {:induction false} YearEnd(y: int)
    ensures MakeDay(y, 11, 31) == MakeDay(y, 12, 0)
  {
    MakeDayInRange(y, 11, 31);
    DaysBeforeMonthStep(y, 11);
    DaysBeforeYearEnd(y);
    DayFromYearStep(y);
  }

  /** Each period is the run of whole months from its first to its last month. */
  lemma {:induction false} PeriodMonths(period: Period, y: int, m: int)
    requires 0 <= m < 12
    ensures PeriodRange(period, y, m) == Months(y, FirstMonth(period, m), LastMonth(period, m))
  {
    if period == Year {
      YearEnd(y);
    }
  }

  /** The window holds exactly the days of the current month, quarter or year. */
  lemma {:induction false} WindowIsPeriod(period: Period, now: int, t: int)
    ensures Window(period, now).first <= t <= Window(period, now).last <==> InPeriod(period, now, t)
  {
    var c := ToCivil(now);
    var d := ToCivil(t);
    PeriodMonths(period, c.year, c.month);
    MonthsContain(c.year, FirstMonth(period, c.month), LastMonth(period, c.month), t);
    SamePeriodByMonths(period, c.year, c.month, d.year, d.month);
  }

  /** Length of the period: the month's, the three months' or the year's number of days. */
  lemma {:induction false} PeriodLength(period: Period, y: int, m: int)
    requires 0 <= m < 12
    ensures var w := PeriodRange(period, y, m);
            var q := QuarterOf(m);
            w.last - w.first + 1 == match period
              case Month => DaysInMonth(y, m)
              case Quarter => DaysInMonth(y, 3 * q) + DaysInMonth(y, 3 * q + 1) + DaysInMonth(y, 3 * q + 2)
              case Year => DaysInYear(y)
    ensures Size(PeriodRange(period, y, m)) >= 28
  {
    var first, last := FirstMonth(period, m), LastMonth(period, m);
    PeriodMonths(period, y, m);
    MonthsLength(y, first, last);
    DaysBeforeMonthStep(y, first);
    if period == Quarter {
      DaysBeforeMonthStep(y, first + 1);
      DaysBeforeMonthStep(y, first + 2);
    } else if period == Year {
      DaysBeforeYearEnd(y);
    }
  }

  // ----- the counting loop ------------------------------------------------------------

  /** The `while (currentDate <= endDate)` loop over an arbitrary range of days. */
  method CountDays(cfg: StatsConfig, startDate: int, endDate: int) returns (stats: WorkStats)
    ensures stats == Tally(cfg, startDate, Size(Range(startDate, endDate)))
    ensures Total(stats) == Size(Range(startDate, endDate))
  {
    var workDays, weekendDays, holidayDays, vacationDays := 0, 0, 0, 0;
    var currentDate := startDate;
    while currentDate <= endDate
      invariant startDate <= currentDate
      invariant startDate <= endDate ==> currentDate <= endDate + 1
      invariant startDate > endDate ==> currentDate == startDate
      invariant WorkStats(workDays, weekendDays, holidayDays, vacationDays) == Tally(cfg, startDate, currentDate - startDate)
      decreases endDate - currentDate
    {
      if IsListedHoliday(cfg.holidays, currentDate) {
        holidayDays := holidayDays + 1;
      } else if IsWeekendDay(cfg.weekendDays, currentDate) {
        weekendDays := weekendDays + 1;
      } else if cfg.shift.Some? && IsVacationDay(cfg, currentDate) {
        vacationDays := vacationDays + 1;
      } else {
        workDays := workDays + 1;
      }
      currentDate := AddDays(currentDate, 1);
    }
    stats := WorkStats(workDays, weekendDays, holidayDays, vacationDays);
    TallyTotal(cfg, startDate, currentDate - startDate);
  }

  /** `calculateWorkStats(period)`: the counters over the period around now. */
  method CalculateWorkStats(cfg: StatsConfig, period: Period, now: int) returns (stats: WorkStats)
    ensures stats == Tally(cfg, Window(period, now).first, Size(Window(period, now)))
    ensures Total(stats) == Size(Window(period, now)) >= 28
  {
    var w := Window(period, now);
    PeriodLength(period, GetFullYear(now), GetMonth(now));
    stats := CountDays(cfg, w.first, w.last);
  }

  /** Every day adds one to exactly one counter, so the counters sum to the number of days. */
  lemma {:induction false} TallyTotal(cfg: StatsConfig, start: int, n: nat)
    ensures Total(Tally(cfg, start, n)) == n
  {
    if n > 0 {
      TallyTotal(cfg, start, n - 1);
    }
  }

  /** Without the shift system and a stored shift record there are no personal-leave days. */
  lemma {:induction false} NoVacationOutsideShift(cfg: StatsConfig, start: int, n: nat)
    requires cfg.workSystem != Shift || cfg.shift.None?
    ensures Tally(cfg, start, n).vacationDays == 0
  {
    if n > 0 {
      NoVacationOutsideShift(cfg, start, n - 1);
    }
  }

  /** The holiday counter is the number of listed holidays among the days. */
  function HolidaysIn(cfg: StatsConfig, start: int, n: nat): nat {
    if n == 0 then 0
    else HolidaysIn(cfg, start, n - 1) + if IsListedHoliday(cfg.holidays, start + n - 1) then 1 else 0
  }

  lemma {:induction false} HolidayCount(cfg: StatsConfig, start: int, n: nat)
    ensures Tally(cfg, start, n).holidayDays == HolidaysIn(cfg, start, n)
  {
    if n > 0 {
      HolidayCount(cfg, start, n - 1);
    }
  }

  // ----- properties of the vacation test ------------------------------------------------

  /** For a non-negative dividend and positive divisor JavaScript's % is Dafny's %. */
  lemma {:induction false} TruncRemNonNegative(a: int, b: int)
    requires a >= 0 && b > 0
    ensures TruncRem(a, b) == a % b
  {
  }

  /** For a negative dividend it is the Euclidean remainder minus b, or 0 on an exact multiple. */
  lemma {:induction false} TruncRemNegative(a: int, b: int)
    requires a < 0 && b > 0
    ensures TruncRem(a, b) == if a % b == 0 then 0 else a % b - b
  {
    var q, s := (-a) / b, (-a) % b;
    assert -a == q * b + s;
    if s == 0 {
      ShiftSystem.CyclePosition(-q, b, 0);
      assert a == (-q) * b + 0;
    } else {
      ShiftSystem.CyclePosition(-q - 1, b, b - s);
      assert a == (-q - 1) * b + (b - s);
    }
  }

  /** With a positive work run, no day before the shift start date is a vacation day. */
  lemma {:induction false} BeforeStartNeverVacation(cfg: StatsConfig, date: int)
    requires cfg.shift.Some? && cfg.shift.value.workDays > 0
    requires date < cfg.shift.value.startDate
    ensures !IsVacationDay(cfg, date)
  {
  }

  /** From the start date on, a day is vacation when its place in the cycle is past the work run. */
  lemma {:induction false} VacationByPosition(cfg: StatsConfig, date: int)
    requires cfg.shift.Some? && cfg.workSystem == Shift
    requires cfg.shift.value.workDays + cfg.shift.value.vacationDays > 0
    requires date >= cfg.shift.value.startDate
    ensures IsVacationDay(cfg, date)
      <==> (date - cfg.shift.value.startDate) % (cfg.shift.value.workDays + cfg.shift.value.vacationDays)
           >= cfg.shift.value.workDays
  {
    var s := cfg.shift.value;
    TruncRemNonNegative(date - s.startDate, s.workDays + s.vacationDays);
  }

  /** From the start date on, the vacation pattern repeats every cycle. */
  lemma {:induction false} VacationPeriodic(cfg: StatsConfig, date: int)
    requires cfg.shift.Some? && cfg.workSystem == Shift
    requires cfg.shift.value.workDays + cfg.shift.value.vacationDays > 0
    requires date >= cfg.shift.value.startDate
    ensures IsVacationDay(cfg, date + cfg.shift.value.workDays + cfg.shift.value.vacationDays)
        == IsVacationDay(cfg, date)
  {
    var s := cfg.shift.value;
    var l := s.workDays + s.vacationDays;
    var a := date - s.startDate;
    VacationByPosition(cfg, date);
    VacationByPosition(cfg, date + l);
    ShiftSystem.CyclePosition(a / l + 1, l, a % l);
    assert a + l == (a / l + 1) * l + a % l;
  }

  /**
   * Read with the same start date, run lengths and no offset, this page's vacation
   * days are the shift page's preview leave days (for a pattern that starts with work).
   */
  lemma {:induction false} AgreesWithShiftPreview(cfg: StatsConfig, p: ShiftSystem.ShiftPattern, i: int)
    requires cfg.workSystem == Shift
    requires cfg.shift == Some(ShiftSettings(p.startDate, p.workDays, p.leaveDays))
    requires p.offset == 0 && p.startWithWork
    requires ShiftSystem.CycleLength(p) > 0 && 0 <= i
    ensures ShiftSystem.EntryAt(p, i).isWorkDay <==> !IsVacationDay(cfg, p.startDate + i)
  {
    VacationByPosition(cfg, p.startDate + i);
  }

  // ----- the pie chart ------------------------------------------------------------

  datatype ChartItem = ChartItem(kind: DayKind, value: nat)

  /** The four rows before filtering, in their fixed order. */
  function AllItems(s: WorkStats): seq<ChartItem> {
    [ChartItem(WorkDay, s.workDays), ChartItem(WeekendDay, s.weekendDays),
     ChartItem(HolidayDay, s.holidayDays), ChartItem(VacationDay, s.vacationDays)]
  }

  /** `.filter(item => item.value > 0)`. */
  function KeepPositive(items: seq<ChartItem>): seq<ChartItem> {
    if items == [] then []
    else (if items[0].value > 0 then [items[0]] else []) + KeepPositive(items[1..])
  }

  /** `chartData`. */
  function ChartData(s: WorkStats): seq<ChartItem> {
    KeepPositive(AllItems(s))
  }

  function Rank(k: DayKind): int {
    match k
    case WorkDay => 0
    case WeekendDay => 1
    case HolidayDay => 2
    case VacationDay => 3
  }

  function SumValues(items: seq<ChartItem>): nat {
    if items == [] then 0 else items[0].value + SumValues(items[1..])
  }

  lemma {:induction false} KeepPositiveFacts(items: seq<ChartItem>)
    ensures forall x :: x in KeepPositive(items) <==> x in items && x.value > 0
    ensures SumValues(KeepPositive(items)) == SumValues(items)
    ensures |KeepPositive(items)| <= |items|
  {
    if items != [] {
      KeepPositiveFacts(items[1..]);
      var head := if items[0].value > 0 then [items[0]] else [];
      SumAppend(head, KeepPositive(items[1..]));
      assert items == [items[0]] + items[1..];
    }
  }

  lemma {:induction false} SumAppend(a: seq<ChartItem>, b: seq<ChartItem>)
    ensures SumValues(a + b) == SumValues(a) + SumValues(b)
  {
    if a != [] {
      SumAppend(a[1..], b);
      assert (a + b)[0] == a[0];
      assert (a + b)[1..] == a[1..] + b;
    } else {
      assert a + b == b;
    }
  }

  /** Ranks strictly increase along the list. */
  predicate RankOrdered(items: seq<ChartItem>) {
    forall i, j :: 0 <= i < j < |items| ==> Rank(items[i].kind) < Rank(items[j].kind)
  }

  lemma {:induction false} KeepPositiveOrdered(items: seq<ChartItem>)
    requires RankOrdered(items)
    ensures RankOrdered(KeepPositive(items))
  {
    if items != [] {
      var rest := items[1..];
      assert RankOrdered(rest);
      KeepPositiveOrdered(rest);
      KeepPositiveFacts(rest);
      if items[0].value > 0 {
        var r := KeepPositive(items);
        assert r == [items[0]] + KeepPositive(rest);
        forall j | 0 < j < |r| ensures Rank(r[0].kind) < Rank(r[j].kind) {
          assert r[j] in rest;
        }
      }
    }
  }

  /** The unfiltered rows are one per kind, carrying that kind's count, in rank order. */
  lemma {:induction false} AllItemsFacts(s: WorkStats)
    ensures forall x :: x in AllItems(s) <==> x == ChartItem(x.kind, Value(s, x.kind))
    ensures RankOrdered(AllItems(s))
    ensures SumValues(AllItems(s)) == Total(s)
  {
    var all := AllItems(s);
    forall x: ChartItem | x == ChartItem(x.kind, Value(s, x.kind)) ensures x in all {
      match x.kind
      case WorkDay => assert x == all[0];
      case WeekendDay => assert x == all[1];
      case HolidayDay => assert x == all[2];
      case VacationDay => assert x == all[3];
    }
    assert SumValues(all[3..]) == s.vacationDays;
    assert SumValues(all[2..]) == s.holidayDays + s.vacationDays;
    assert SumValues(all[1..]) == s.weekendDays + s.holidayDays + s.vacationDays;
  }

  /**
   * The chart shows exactly the kinds with a positive count, each with its own count,
   * in the order work, weekend, holiday, leave, and its values add up to the total.
   */
  lemma {:induction false} ChartDataShape(s: WorkStats)
    ensures forall k :: ChartItem(k, Value(s, k)) in ChartData(s) <==> Value(s, k) > 0
    ensures forall x :: x in ChartData(s) ==> x == ChartItem(x.kind, Value(s, x.kind))
    ensures RankOrdered(ChartData(s))
    ensures SumValues(ChartData(s)) == Total(s)
  {
    AllItemsFacts(s);
    KeepPositiveFacts(AllItems(s));
    KeepPositiveOrdered(AllItems(s));
  }

  /** The counter of kind k. */
  function Value(s: WorkStats, k: DayKind): nat {
    match k
    case WorkDay => s.workDays
    case WeekendDay => s.weekendDays
    case HolidayDay => s.holidayDays
    case VacationDay => s.vacationDays
  }
}
