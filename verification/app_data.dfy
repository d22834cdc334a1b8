/**
 * Data shared by the pages: the `appSettings` record that every page reads
 * from local storage, the holiday table, and the two classification facts
 * all day-status code is built from (is the day a configured weekend day,
 * is it a listed holiday).
 */
module AppData {
  import opened JsDate

  datatype Option<T> = None | Some(value: T)

  /** A weekday number as returned by getDay(): 0 = Sunday .. 6 = Saturday. */
  type Weekday = d: int | 0 <= d < 7

  datatype WorkSystem = Official | Shift

  /** The `appSettings` record, with the six keys the settings page stores. */
  datatype AppSettings = AppSettings(
    country: string,
    weekendDays: seq<Weekday>,
    workSystem: WorkSystem,
    language: string,
    notifications: bool,
    countryDetected: bool)

  /** One row of the holiday table: its date key (a day number) and its two names. */
  datatype Holiday = Holiday(date: int, name: string, nameEn: string)

  /** `settings.weekendDays.includes(date.getDay())`. */
  predicate IsWeekendDay(weekendDays: seq<Weekday>, date: int) {
    GetDay(date) in weekendDays
  }

  /** `holidays.some(h => h.date === dateKey)`. */
  predicate IsListedHoliday(holidays: seq<Holiday>, date: int) {
    exists i :: 0 <= i < |holidays| && holidays[i].date == date
  }

  /** `holidays.find(h => h.date === dateKey)`: the first matching row, if any. */
  function FindHoliday(holidays: seq<Holiday>, date: int): (r: Option<Holiday>)
    ensures r.Some? <==> IsListedHoliday(holidays, date)
    ensures r.Some? ==> r.value.date == date
    ensures r.Some? ==> exists i :: 0 <= i < |holidays| && holidays[i] == r.value
                                   && forall j :: 0 <= j < i ==> holidays[j].date != date
  {
    if |holidays| == 0 then None
    else if holidays[0].date == date then Some(holidays[0])
    else
      var rest := FindHoliday(holidays[1..], date);
      if rest.Some? then
        ghost var i :| 0 <= i < |holidays[1..]| && holidays[1..][i] == rest.value
                      && forall j :: 0 <= j < i ==> holidays[1..][j].date != date;
        assert holidays[i + 1] == rest.value;
        assert forall j :: 0 <= j < i + 1 ==> holidays[j].date != date by {
          forall j | 0 <= j < i + 1 ensures holidays[j].date != date {
            if j > 0 { assert holidays[j] == holidays[1..][j - 1]; }
          }
        }
        rest
      else
        assert forall i :: 1 <= i < |holidays| ==> holidays[i] == holidays[1..][i - 1];
        rest
  }
}
