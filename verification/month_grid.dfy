/**
 * The month grid that the home page, the calendar page and the shift preview
 * each build with the same two push loops: `startingDayOfWeek` empty cells
 * (null), then one cell per day 1..daysInMonth, where
 * daysInMonth = `new Date(year, month + 1, 0).getDate()` and
 * startingDayOfWeek = `new Date(year, month, 1).getDay()`.  What a cell
 * carries besides its day, date and today flag (a day status, or a shift
 * preview entry) is computed by the `infoOf` function the page passes in.
 */
module MonthGrid {
  import opened JsDate
  import opened AppData

  datatype Cell<T> = Cell(day: int, date: int, info: T, isToday: bool)

  /** `new Date(year, month, 1).getDay()`: how many empty cells lead the grid. */
  function StartingDayOfWeek(year: int, month: int): (w: int)
    ensures 0 <= w < 7
  {
    GetDay(MakeDay(year, month, 1))
  }

  /** The cell the loop pushes for day d of the month. */
  function CellFor<T>(year: int, month: int, d: int, today: int, infoOf: int -> T): Cell<T> {
    var date := MakeDay(year, month, d);
    Cell(d, date, infoOf(date), date == today)
  }

  /** `generateCalendarDays()`. */
  method Build<T>(year: int, month: int, today: int, infoOf: int -> T)
    returns (days: seq<Option<Cell<T>>>)
    requires 0 <= month < 12
    ensures |days| == StartingDayOfWeek(year, month) + DaysInMonth(year, month)
    ensures forall i :: 0 <= i < StartingDayOfWeek(year, month) ==> days[i] == None
    ensures forall i :: StartingDayOfWeek(year, month) <= i < |days| ==>
              days[i] == Some(CellFor(year, month, i - StartingDayOfWeek(year, month) + 1, today, infoOf))
  {
    var firstDay := MakeDay(year, month, 1);
    var lastDay := MakeDay(year, month + 1, 0);
    DayZeroOfNextMonth(year, month);
    var daysInMonth := GetDate(lastDay);
    var startingDayOfWeek := GetDay(firstDay);

    days := [];
    var i := 0;
    while i < startingDayOfWeek
      invariant 0 <= i <= startingDayOfWeek
      invariant |days| == i
      invariant forall j :: 0 <= j < i ==> days[j] == None
    {
      days := days + [None];
      i := i + 1;
    }

    var day := 1;
    while day <= daysInMonth
      invariant 1 <= day <= daysInMonth + 1
      invariant |days| == startingDayOfWeek + day - 1
      invariant forall j :: 0 <= j < startingDayOfWeek ==> days[j] == None
      invariant forall j :: startingDayOfWeek <= j < |days| ==>
                  days[j] == Some(CellFor(year, month, j - startingDayOfWeek + 1, today, infoOf))
    {
      var date := MakeDay(year, month, day);
      days := days + [Some(Cell(day, date, infoOf(date), date == today))];
      day := day + 1;
    }
  }

  /** The shape Build produces, stated on its own so that later lemmas can use it. */
  ghost predicate IsMonthGrid<T>(days: seq<Option<Cell<T>>>, year: int, month: int, today: int, infoOf: int -> T) {
    && 0 <= month < 12
    && |days| == StartingDayOfWeek(year, month) + DaysInMonth(year, month)
    && (forall i :: 0 <= i < StartingDayOfWeek(year, month) ==> days[i] == None)
    && (forall i :: StartingDayOfWeek(year, month) <= i < |days| ==>
          days[i] == Some(CellFor(year, month, i - StartingDayOfWeek(year, month) + 1, today, infoOf)))
  }

  /** Number of non-empty cells. */
  function CountDays<T>(days: seq<Option<Cell<T>>>): (n: nat)
    ensures n <= |days|
  {
    if days == [] then 0 else CountDays(days[..|days| - 1]) + (if days[|days| - 1].Some? then 1 else 0)
  }

  lemma {:induction false} CountDaysSplit<T>(days: seq<Option<Cell<T>>>, n: nat)
    requires n <= |days|
    requires forall i :: 0 <= i < n ==> days[i].None?
    requires forall i :: n <= i < |days| ==> days[i].Some?
    ensures CountDays(days) == |days| - n
    decreases |days|
  {
    if |days| > n {
      CountDaysSplit(days[..|days| - 1], n);
    } else if days != [] {
      CountDaysSplit(days[..|days| - 1], n - 1);
    }
  }

  /** A month grid holds exactly one cell per day of the month; empty cells are not days. */
  lemma {:induction false} GridHasEveryDayOnce<T>(days: seq<Option<Cell<T>>>, year: int, month: int, today: int, infoOf: int -> T)
    requires IsMonthGrid(days, year, month, today, infoOf)
    ensures CountDays(days) == DaysInMonth(year, month)
    ensures forall i :: StartingDayOfWeek(year, month) <= i < |days| ==>
              days[i].Some? && days[i].value.day == i - StartingDayOfWeek(year, month) + 1
              && ToCivil(days[i].value.date) == Civil(year, month, days[i].value.day)
  {
    var s := StartingDayOfWeek(year, month);
    CountDaysSplit(days, s);
    forall i | s <= i < |days|
      ensures ToCivil(days[i].value.date) == Civil(year, month, i - s + 1)
    {
      CivilRoundTrip(Civil(year, month, i - s + 1));
    }
  }

  /** Every day sits in the column of its weekday: cell i of the grid falls on weekday i mod 7. */
  lemma {:induction false} GridColumnIsWeekday<T>(days: seq<Option<Cell<T>>>, year: int, month: int, today: int, infoOf: int -> T, i: int)
    requires IsMonthGrid(days, year, month, today, infoOf)
    requires 0 <= i < |days| && days[i].Some?
    ensures GetDay(days[i].value.date) == i % 7
  {
    var s := StartingDayOfWeek(year, month);
    var first := MakeDay(year, month, 1);
    assert i >= s;
    MakeDayInRange(year, month, 1);
    MakeDayInRange(year, month, i - s + 1);
    WeekdayShift(first, s, i);
  }

  lemma {:induction false} WeekdayShift(first: int, s: int, i: int)
    requires s == (first + 4) % 7
    ensures (first + (i - s) + 4) % 7 == i % 7
  {
    var q := (first + 4) / 7;
    assert first + 4 == 7 * q + s;
    assert first + (i - s) + 4 == 7 * q + i;
  }
}
