# Work calendar: a verified model of the page logic

This project models the logic behind a personal work-calendar web app: a home
page with today's status and a mini calendar, a month calendar with
navigation and month statistics, a statistics page that counts work, weekend,
holiday and personal-leave days over the current month, quarter or year, a
rotating-shift planner with a 60-day preview grouped by month, a notes page
with reminders, a settings page (country, weekend days, language, country
detection), and the two hooks behind them: browser notifications and the
light/dark theme.

Dates are day numbers, counted from 1 January 1970. Instants are milliseconds.
The module `JsDate` gives the calendar arithmetic the pages get from
JavaScript's `Date`, in one fixed time zone:

- `new Date(y, m, d)` with out-of-range months and days carried over, for
  years outside 0 to 99;
- `getFullYear`, `getMonth`, `getDate` and `getDay`;
- `setDate` and `setMonth`.

The module `JsText` gives the string built-ins the pages rely on:

- `trim`;
- `parseInt` with no radix, including its `0x` prefix for hexadecimal;
- ASCII `toUpperCase` and `toLowerCase`.

Each page is one module; the shared month grid is `MonthGrid`. The
notification hook and the theme hook are classes whose fields the operations
update: the permission, the armed timers, the notifications on screen, the
stored theme and the root element's class list. Everything else is pure
functions over values, as in the source. The loops the source runs become
methods with loop invariants, each proved equal to a reference function:

- building a month grid;
- counting the days of a period;
- computing the shift preview;
- grouping the preview by month.

The pages do not all classify days alike, and some of the code behaves in ways
worth noting; the model follows each page's code:

- The statistics page classifies a listed holiday as a holiday even on a
  weekend day (holiday, then weekend, then personal leave, then work;
  `Charts.Classify`). The home and calendar pages put the weekend first
  (`Home.GetDayStatus`). `Home.AgreesWithCharts` states exactly where the two
  disagree.
- The statistics page's personal-leave test uses JavaScript's truncating `%`
  on the day difference, not a floored modulo. Before the shift start date the
  remainder is never positive, so no such day is personal leave
  (`Charts.BeforeStartNeverVacation`).
- Personal leave on the statistics page reads a stored record with
  `startDate`, `workDays` and `vacationDays`, and ignores `offset` and
  `startWithWork`. It agrees with the planner's preview only for offset 0 and
  starting with work (`Charts.AgreesWithShiftPreview`).
- The weekend-day toggle sorts with `sort()` and no comparator, which compares
  decimal strings. For the weekdays 0 to 6 that is numeric order, so the model
  sorts numbers (`Settings.SortDaysFacts`).
- A reminder whose time equals "now" is shown at once; a delay of zero or less
  never arms a timer (`Notifications.Decide`).

## Model

| member | source | states |
|---|---|---|
| AppData.FindHoliday | src/pages/calendar/page.tsx:30 | a holiday is found exactly when one is listed for that date; the one found is a row of the table with that date |
| JsDate.ToCivil | src/pages/calendar/page.tsx:44-45 | every day number has a valid year, month and day of month that name that day again |
| JsDate.CivilRoundTrip | src/pages/calendar/page.tsx:58 | a valid date turned into a day number and back is unchanged |
| JsDate.CivilInjective | src/pages/calendar/page.tsx:58 | two different valid dates are different days |
| JsDate.DayZeroOfNextMonth | src/pages/calendar/page.tsx:47-48 | day 0 of the next month is the last day of this month, so its day of month is the month's length |
| JsDate.MonthSpan | src/pages/charts/page.tsx:27-28 | the first and last day of a month are the month's length minus one apart |
| JsDate.GetDay | src/pages/calendar/page.tsx:23 | the weekday is in 0..6 |
| JsDate.SetDateShift | src/pages/charts/page.tsx:69 | setting the day of month to its value plus k moves the date by exactly k days, across month and year ends |
| JsDate.AddDays | src/pages/shift-system/page.tsx:39-45 | adding k days to a copy of a date gives the date k days later |
| JsDate.DaysBeforeMonthStep | src/pages/calendar/page.tsx:47-48 | each month starts where the previous one ends |
| JsDate.DaysBeforeYearEnd | src/pages/charts/page.tsx:36-37 | the twelve months fill the year exactly |
| JsDate.DayFromYearStep | src/pages/charts/page.tsx:36-37 | consecutive years start one year length apart |
| JsDate.DayFromYearMonotone | src/pages/charts/page.tsx:36-37 | a later year starts after an earlier year ends |
| JsDate.CivilFrom | src/pages/calendar/page.tsx:44-45 | the search for a day's year ends with a valid date naming that day |
| JsDate.CivilInYear | src/pages/calendar/page.tsx:44-45 | a day inside a year has a valid month and day in that year |
| JsDate.MonthSearch | src/pages/calendar/page.tsx:45 | the month found is the one whose offsets contain the day |
| JsDate.YearUnique | src/pages/calendar/page.tsx:44 | a day lies in only one year |
| JsDate.MonthUnique | src/pages/calendar/page.tsx:45 | a day of a year lies in only one month |
| JsDate.CivilPlacement | src/pages/calendar/page.tsx:58 | a valid date lies inside its year and inside its month |
| JsDate.CivilSameYear | src/pages/calendar/page.tsx:58 | two valid dates naming the same day have the same year |
| JsDate.MakeDayInRange | src/pages/calendar/page.tsx:58 | an in-range month needs no carrying: year start plus days before the month plus the day |
| JsDate.MonthOrder | src/pages/shift-system/page.tsx:283-294 | a month that comes first ends before a later month starts |
| JsDate.MonthOrderSameYear | src/pages/shift-system/page.tsx:283-294 | within one year, a month ends before any later month starts |
| JsDate.MonthOrderLaterYear | src/pages/shift-system/page.tsx:283-294 | every month of a year ends before any month of a later year starts |
| JsDate.MonthEndsInYear | src/pages/charts/page.tsx:36-37 | every month ends no later than the next year's start |
| JsDate.MonthLowerBound | src/pages/charts/page.tsx:46-47 | a day is on or after a month's first day exactly when its month is not earlier |
| JsDate.MonthUpperBound | src/pages/charts/page.tsx:46-47 | a day is on or before a month's last day exactly when its month is not later |
| JsText.TrimStartFacts | src/pages/notes/page.tsx:61 | trimming the start keeps a suffix, drops only whitespace and stops at a non-whitespace character |
| JsText.TrimEndFacts | src/pages/notes/page.tsx:61 | trimming the end keeps a prefix, drops only whitespace and stops at a non-whitespace character |
| JsText.TrimEmptyIffBlank | src/pages/notes/page.tsx:61 | a title trims to the empty string exactly when it is all whitespace |
| JsText.TrimShape | src/pages/notes/page.tsx:61 | trim keeps one slice of the string and drops only whitespace around it |
| JsText.TrimEnds | src/pages/notes/page.tsx:61 | a non-empty trimmed string neither starts nor ends with whitespace |
| JsText.BlankConcat | src/pages/notes/page.tsx:61 | two all-whitespace strings joined are all whitespace |
| JsText.DigitRun | src/pages/shift-system/page.tsx:176 | the digit run is the longest prefix of decimal digits |
| JsText.DigitChar | src/pages/shift-system/page.tsx:176 | the character written for a digit reads back as that digit |
| JsText.NatDigits | src/pages/shift-system/page.tsx:176 | a number's decimal form is a non-empty string of digits |
| JsText.NatDigitsValue | src/pages/shift-system/page.tsx:176 | a number's decimal digits read back as the number |
| JsText.ParseInt | src/pages/shift-system/page.tsx:176 | parseInt yields a number only when the string holds a digit |
| JsText.HexDigitValue | src/pages/shift-system/page.tsx:176 | a hexadecimal digit's value is below 16 |
| JsText.HexRun | src/pages/shift-system/page.tsx:176 | the hexadecimal run is the longest prefix of hexadecimal digits |
| JsText.ParseHex | src/pages/shift-system/page.tsx:176 | parseInt of "0x" or "0X" and hexadecimal digits is their value |
| JsText.DigitStart | src/pages/shift-system/page.tsx:176 | the digits start after at most one sign |
| JsText.ParseSigned | src/pages/shift-system/page.tsx:176 | after the sign, a "0x" or "0X" prefix gives a number exactly when a hexadecimal digit follows it, and otherwise a number comes exactly when a decimal digit follows the sign |
| JsText.DigitRunAll | src/pages/shift-system/page.tsx:176 | in an all-digit string the digit run is the whole string |
| JsText.TrimStartKeeps | src/pages/shift-system/page.tsx:176 | a string starting with a digit or a minus sign has no leading whitespace to skip |
| JsText.ParseDigits | src/pages/shift-system/page.tsx:176 | parseInt of a run of digits is their value |
| JsText.ParseSignedNegative | src/pages/shift-system/page.tsx:176 | after the whitespace, a minus sign and digits read as minus their value |
| JsText.ParseNegative | src/pages/shift-system/page.tsx:176 | parseInt of a minus sign and digits is minus their value |
| JsText.ParseUntrimmed | src/pages/shift-system/page.tsx:176 | with no leading whitespace, parseInt is the sign-and-digits reading |
| JsText.ParseIntToString | src/pages/shift-system/page.tsx:176 | parseInt reads back exactly the integer written in decimal |
| JsText.ToUpper | src/pages/settings/page.tsx:90 | upper-casing keeps the length and upper-cases each ASCII letter |
| JsText.ToLower | src/pages/settings/page.tsx:28-63 | lower-casing keeps the length and lower-cases each ASCII letter |
| JsText.LowerOfUpper | src/pages/settings/page.tsx:28-63 | lower-casing an upper-cased code gives the code's lower-case form |
| MonthGrid.StartingDayOfWeek | src/pages/calendar/page.tsx:46-49 | the number of leading empty cells is the first day's weekday, in 0..6 |
| MonthGrid.Build | src/pages/calendar/page.tsx:43-71 | the grid is the leading empty cells, then one cell per day of the month in order, each with its date, status and today flag |
| MonthGrid.CountDays | src/pages/calendar/page.tsx:90-92 | the number of day cells is at most the number of cells |
| MonthGrid.CountDaysSplit | src/pages/calendar/page.tsx:53-57 | empty cells followed by day cells count only the day cells |
| MonthGrid.GridHasEveryDayOnce | src/pages/calendar/page.tsx:43-71 | a month grid holds exactly one cell per day of the month, and cell i after the blanks is day i + 1 |
| MonthGrid.GridColumnIsWeekday | src/pages/calendar/page.tsx:46-58 | every day sits in the column of its weekday: cell i falls on weekday i mod 7 |
| MonthGrid.WeekdayShift | src/pages/calendar/page.tsx:49 | moving both the day and the cell by the same amount keeps the weekday column |
| Home.GetDayStatus | src/pages/home/page.tsx:38-54 | weekend exactly on a configured weekend day; holiday exactly on a listed non-weekend day; otherwise work |
| Home.HasWorkSettings | src/pages/home/page.tsx:22 | the work settings count as set exactly when a country is chosen (an array and a work system are always truthy) |
| Home.TodayBadge | src/pages/home/page.tsx:89 | today's badge is shown exactly when a country is set, and carries today's status |
| Home.GenerateCalendarDays | src/pages/home/page.tsx:56-86 | the home page's grid is the month grid of the current month with the home status of each day |
| Home.Preview | src/pages/home/page.tsx:248 | the mini calendar shows the first 14 cells, or all cells when there are fewer |
| Home.PreviewOfMonth | src/pages/home/page.tsx:248-266 | a month grid always shows the ellipsis; the mini calendar shows days 1 to 14 minus the blanks, at least 8 of them |
| Home.AgreesWithCharts | src/pages/home/page.tsx:38-54 | home and statistics classify alike except a holiday on a weekend day, which home calls weekend and statistics calls holiday |
| Calendar.GetDayStatus | src/pages/calendar/page.tsx:22-41 | the same kind as the home page; a name only for a holiday, in the interface language |
| Calendar.GenerateCalendarDays | src/pages/calendar/page.tsx:43-71 | the calendar page's grid is the month grid of the shown month with the calendar status of each day |
| Calendar.NextSkipsFebruary | src/pages/calendar/page.tsx:73-81 | from 31 January, "next" as written lands in March; the corrected navigation lands in February |
| Calendar.NavigateAsWrittenWhenDayFits | src/pages/calendar/page.tsx:73-81 | as written, navigation moves exactly one month when the day of the month exists in the target month |
| Calendar.NavigateMonthMoves | src/pages/calendar/page.tsx:73-81 | the corrected navigation moves exactly one month back or forward, to its first day |
| Calendar.TargetMonth | src/pages/calendar/page.tsx:76-78 | the target is one month index away, with the month in 0..11 |
| Calendar.TargetDay | src/pages/calendar/page.tsx:76-78 | a day of the month one step away is the same day of the carried year and month |
| Calendar.MakeDayCarry | src/pages/calendar/page.tsx:76-78 | an out-of-range month carries into the year without changing the day |
| Calendar.StaysInMonth | src/pages/calendar/page.tsx:76-78 | a day of the month stays in that month exactly when the month is that long |
| Calendar.MonthOverflow | src/pages/calendar/page.tsx:76-78 | a day past a month's end is that many days into the next month |
| Calendar.MonthIndexParts | src/pages/calendar/page.tsx:76-78 | the month index determines the year and the month |
| Calendar.CountKindsSum | src/pages/calendar/page.tsx:89-95 | the work, weekend and holiday counts add up to the number of day cells |
| Calendar.MonthStatsTotal | src/pages/calendar/page.tsx:89-95 | on a month grid the three counts add up to the month's length |
| Calendar.FilterNotPastFacts | src/pages/calendar/page.tsx:207 | a holiday is kept exactly when it is listed and its midnight is not before now |
| Calendar.FilterNotPastSingle | src/pages/calendar/page.tsx:207 | a single holiday is kept exactly when it is not past |
| Calendar.FilterNotPastAppend | src/pages/calendar/page.tsx:207 | the filter keeps the list's order: filtering a concatenation concatenates the filtered parts |
| Calendar.UpcomingFacts | src/pages/calendar/page.tsx:206-208 | at most three holidays, none past, the first of those not past; with fewer than three every such holiday is listed |
| Calendar.UpcomingInListOrder | src/pages/calendar/page.tsx:206-208 | the listed holidays are the first not-past ones in the list's order: exactly those of any list prefix that already holds that many |
| Calendar.DaysLeftCounts | src/pages/calendar/page.tsx:229 | the days-left counter is the number of calendar days from today to the holiday, never negative for a listed one |
| Charts.TruncRem | src/pages/charts/page.tsx:81 | JavaScript's remainder is smaller than the divisor in size and has the dividend's sign |
| Charts.TruncRemNonNegative | src/pages/charts/page.tsx:81 | for a non-negative dividend it is the ordinary remainder |
| Charts.TruncRemNegative | src/pages/charts/page.tsx:81 | for a negative dividend it is the floored remainder minus the divisor, or 0 on an exact multiple |
| Charts.Classify | src/pages/charts/page.tsx:52-67 | holiday exactly on a listed date; weekend exactly on an unlisted weekend day; personal leave exactly on an unlisted non-weekend day the leave test accepts, which needs the shift system and a stored record; work exactly on the remaining days |
| Charts.BeforeStartNeverVacation | src/pages/charts/page.tsx:75-84 | with a positive work run, no day before the shift start date is personal leave |
| Charts.VacationByPosition | src/pages/charts/page.tsx:75-84 | from the start date on, a day is personal leave exactly when its place in the cycle is past the work run |
| Charts.VacationPeriodic | src/pages/charts/page.tsx:75-84 | from the start date on, personal leave repeats every cycle |
| Charts.AgreesWithShiftPreview | src/pages/charts/page.tsx:75-84 | with offset 0 and starting with work, the statistics page's leave days are the planner preview's leave rows |
| Charts.NoVacationOutsideShift | src/pages/charts/page.tsx:76 | without the shift system or a stored record no day is personal leave |
| Charts.CountDays | src/pages/charts/page.tsx:46-70 | the loop's counters are the reference tally of the range, and they add up to the range's length (0 for an empty range) |
| Charts.CalculateWorkStats | src/pages/charts/page.tsx:20-73 | the counters are the tally of the current period, and they add up to its length, at least 28 days |
| Charts.TallyTotal | src/pages/charts/page.tsx:87 | every day adds one to exactly one counter, so the total is the number of days |
| Charts.HolidayCount | src/pages/charts/page.tsx:52-55 | the holiday counter is the number of listed holidays among the days |
| Charts.QuarterOf | src/pages/charts/page.tsx:31 | the quarter is 0..3 and holds the month |
| Charts.QuarterLabel | src/pages/charts/page.tsx:102 | the label's quarter is 1..4 and holds the month |
| Charts.FirstMonth | src/pages/charts/page.tsx:25-39 | the period starts at or before the month |
| Charts.LastMonth | src/pages/charts/page.tsx:25-39 | the period ends at or after the month, within the year |
| Charts.PeriodMonths | src/pages/charts/page.tsx:25-39 | each period is the run of whole months from its first to its last month |
| Charts.MonthsContain | src/pages/charts/page.tsx:25-39 | a run of months holds exactly the days whose month lies between its ends |
| Charts.MonthsLength | src/pages/charts/page.tsx:25-39 | a run of months is as long as the days before its last month's end less those before its first month |
| Charts.YearEnd | src/pages/charts/page.tsx:37 | 31 December is day 0 of the next year's January |
| Charts.SamePeriodByMonths | src/pages/charts/page.tsx:25-39 | sharing the period is lying between its first and last month, counted in months |
| Charts.WindowIsPeriod | src/pages/charts/page.tsx:25-39 | the window holds exactly the days of the current month, quarter or year |
| Charts.PeriodLength | src/pages/charts/page.tsx:25-39 | the window is a month's, three months' or a year's length, never under 28 days |
| Charts.KeepPositiveFacts | src/pages/charts/page.tsx:94 | the filter keeps exactly the rows with a positive value, and the sum of values |
| Charts.SumAppend | src/pages/charts/page.tsx:87 | the sum of two lists of rows is the sum of their sums |
| Charts.KeepPositiveOrdered | src/pages/charts/page.tsx:94 | filtering keeps the rows in their fixed order |
| Charts.AllItemsFacts | src/pages/charts/page.tsx:89-93 | one row per kind, carrying its counter, in fixed order, summing to the total |
| Charts.ChartDataShape | src/pages/charts/page.tsx:89-94 | the chart has a row for a kind exactly when its counter is positive, in fixed order, and the rows sum to the total |
| ShiftSystem.EntryShape | src/pages/shift-system/page.tsx:43-61 | row i is dated i days after the adjusted start; its 1-based place and cycle locate it; work exactly in the work part of the cycle |
| ShiftSystem.RowsIndex | src/pages/shift-system/page.tsx:43-61 | the first n rows are n rows, each the reference row |
| ShiftSystem.CalculateShiftPattern | src/pages/shift-system/page.tsx:33-66 | the loop produces the 60 reference rows, on consecutive days from the adjusted start |
| ShiftSystem.Preview | src/pages/shift-system/page.tsx:221 | the preview button keeps the pattern, shows the preview and holds the 60 reference rows |
| ShiftSystem.ResetPattern | src/pages/shift-system/page.tsx:68-78 | reset restores the default pattern, inside the stepper range, and hides the preview |
| ShiftSystem.OffsetFromInput | src/pages/shift-system/page.tsx:176 | text with no digit gives offset 0 |
| ShiftSystem.OffsetOfTypedNumber | src/pages/shift-system/page.tsx:176 | typing a whole number stores exactly that offset |
| ShiftSystem.ApplyEdit | src/pages/shift-system/page.tsx:111-202 | each control changes only its own field; the steppers move by one and stay within 1..14, and at a bound they set the field to that bound |
| ShiftSystem.EditsKeepStepperRange | src/pages/shift-system/page.tsx:22-28 | from the default pattern, any sequence of edits keeps both run lengths in 1..14 |
| ShiftSystem.Periodic | src/pages/shift-system/page.tsx:47-60 | the labels repeat every cycle: the row a cycle later has the same label and place, the next cycle number and a date a cycle later |
| ShiftSystem.CycleNumberMonotone | src/pages/shift-system/page.tsx:60 | the cycle number never decreases along the preview |
| ShiftSystem.StartWithLeaveIsRotation | src/pages/shift-system/page.tsx:50-54 | starting with leave is the start-with-work cycle rotated by the work run |
| ShiftSystem.CyclePosition | src/pages/shift-system/page.tsx:47 | a row c whole cycles plus j days in has place j and cycle c |
| ShiftSystem.WorkPositionsClosed | src/pages/shift-system/page.tsx:50-54 | the work places among the first n places of a cycle, in closed form for both starts |
| ShiftSystem.CountWork | src/pages/shift-system/page.tsx:378 | the work count is at most the number of rows |
| ShiftSystem.CountLeave | src/pages/shift-system/page.tsx:386 | the leave count is at most the number of rows |
| ShiftSystem.WorkLeavePartition | src/pages/shift-system/page.tsx:378-386 | every row is counted once, as work or as leave |
| ShiftSystem.CycleBlockCount | src/pages/shift-system/page.tsx:378 | the first n rows of a whole cycle hold the closed-form number of work rows |
| ShiftSystem.CompleteCycleCounts | src/pages/shift-system/page.tsx:378-386 | every whole cycle in the preview has exactly the work run of work rows and the leave run of leave rows |
| ShiftSystem.GroupByMonth | src/pages/shift-system/page.tsx:283-294 | the keys are the rows' months in order of first appearance, and each group holds exactly its month's rows in order |
| ShiftSystem.EntriesOfMembers | src/pages/shift-system/page.tsx:286-291 | a group holds exactly the rows of its month |
| ShiftSystem.EntriesOfAppend | src/pages/shift-system/page.tsx:291 | pushing a row extends its own month's group and no other |
| ShiftSystem.EntriesOfAbsent | src/pages/shift-system/page.tsx:288-289 | a month with no rows has no group rows |
| ShiftSystem.KeyOrderMembers | src/pages/shift-system/page.tsx:294 | the keys are the months that occur, each once |
| ShiftSystem.Keys | src/pages/shift-system/page.tsx:287 | one key per row, the row's month |
| ShiftSystem.KeyOrderIsDedup | src/pages/shift-system/page.tsx:294 | the key order is the rows' months with repeats dropped |
| ShiftSystem.DedupFacts | src/pages/shift-system/page.tsx:294 | dropping repeats keeps every key and lists each once |
| ShiftSystem.GroupSizesStep | src/pages/shift-system/page.tsx:291 | a new row adds one to the group sizes when its month is among the keys |
| ShiftSystem.GroupSizesAppendKey | src/pages/shift-system/page.tsx:294 | a further key adds its group's size |
| ShiftSystem.GroupsPartition | src/pages/shift-system/page.tsx:283-294 | the group sizes add up to the number of rows |
| ShiftSystem.MonthCalendar | src/pages/shift-system/page.tsx:303-330 | each month group's grid is the month grid whose cells carry the group's row for that day |
| ShiftSystem.FindInGroup | src/pages/shift-system/page.tsx:318-322 | searching a day's month group finds what searching all rows finds |
| ShiftSystem.ToCivilIs | src/pages/shift-system/page.tsx:319-321 | matching day, month and year is being that day |
| ShiftSystem.FindInConsecutive | src/pages/shift-system/page.tsx:318-322 | in rows on consecutive days, a day finds the row dated that day, if there is one |
| ShiftSystem.PreviewDatesConsecutive | src/pages/shift-system/page.tsx:44-45 | the preview rows are dated on consecutive days from the adjusted start |
| ShiftSystem.GroupLookup | src/pages/shift-system/page.tsx:318-322 | in its month's group, a day finds the preview row dated that day, if there is one |
| ShiftSystem.GridCellLookup | src/pages/shift-system/page.tsx:318-322 | a grid cell's day finds the preview row dated that day, if there is one |
| ShiftSystem.GridCellShowsEntry | src/pages/shift-system/page.tsx:311-330 | every grid cell shows the reference row for its day when the day is in the 60-day window, and nothing otherwise |
| Notes.HandleSubmit | src/pages/notes/page.tsx:58-92 | a blank title changes nothing; otherwise the note built from the form, with its reminder exactly when enabled with date and time, is appended or replaces the edited note, and the form is reset; a notification with the title, the content or the default text, and the reminder instant is scheduled exactly when that reminder exists |
| Notes.SaveSimpleNote | src/pages/notes/page.tsx:428-447 | a blank title changes nothing; otherwise the note built from the form, without a reminder, is appended or replaces the edited note, and the form is reset; never a notification |
| Notes.SaveReminderNote | src/pages/notes/page.tsx:597-627 | without title, date or time nothing changes; with all three the note, with an enabled reminder at that instant, is appended or replaces the edited note, the form is reset, and a notification with the title, the content or the default text, and that instant is scheduled |
| Notes.AddAppends | src/pages/notes/page.tsx:63-80 | adding appends one note with the fresh id, the current time, not completed, and the form's text |
| Notes.ReplaceId | src/pages/notes/page.tsx:77 | every note with the edited id is replaced, every other note kept in place |
| Notes.EditReplacesOnlyMatching | src/pages/notes/page.tsx:63-80 | editing keeps the length and every other note; the edited note keeps its id, creation time and completion and takes the form's title |
| Notes.ReminderRules | src/pages/notes/page.tsx:58-92 | whether adding or editing, the saved note carries a reminder at the form's instant from the submit handler exactly when enabled with date and time, never from the simple save (an edited note loses its reminder there), and always from the reminder save |
| Notes.DeleteFacts | src/pages/notes/page.tsx:94-96 | delete drops exactly the notes with that id and keeps every other note as often as before |
| Notes.DeleteKeepsOrder | src/pages/notes/page.tsx:94-96 | delete keeps the relative order of what survives |
| Notes.ToggleComplete | src/pages/notes/page.tsx:98-102 | toggling flips completion on the notes with that id and keeps the rest |
| Notes.ToggleTwice | src/pages/notes/page.tsx:98-102 | toggling the same id twice restores the notes |
| Notes.CountsPartition | src/pages/notes/page.tsx:230-238 | completed and pending counts add up to the total |
| Notes.SortNotesFacts | src/pages/notes/page.tsx:180-185 | the display order is a permutation of the notes in comparator order |
| Notes.DisplayOrder | src/pages/notes/page.tsx:180-185 | no completed note precedes an incomplete one, and notes of equal status are newest first |
| Notes.SortKeepsCounts | src/pages/notes/page.tsx:180-185 | sorting changes neither counter |
| Notes.InsertPermutes | src/pages/notes/page.tsx:180-185 | inserting adds exactly the one note |
| Notes.InsertSorted | src/pages/notes/page.tsx:180-185 | inserting into a sorted list keeps it sorted |
| Notes.InsertBound | src/pages/notes/page.tsx:180-185 | a note that precedes the new note and the list precedes the whole result |
| Notes.InsertCount | src/pages/notes/page.tsx:180-185 | inserting adds one to the completed count exactly for a completed note |
| Notes.CompareTransitive | src/pages/notes/page.tsx:180-185 | the comparator is transitive |
| Notes.InsertTied | src/pages/notes/page.tsx:180-185 | inserting puts the new note before every note it is tied with |
| Notes.SortStable | src/pages/notes/page.tsx:180-185 | the sort is stable: notes that compare equal keep their stored order |
| Notes.EditSaveRoundTrip | src/pages/notes/page.tsx:104-119 | opening a note for editing and saving it unchanged gives back the same note |
| Notes.MinuteRemainder | src/pages/notes/page.tsx:71 | an instant written as whole minutes plus a remainder has that remainder |
| Settings.UpdateSettings | src/pages/settings/page.tsx:117-119 | every key in the update replaces its value; every other key is kept |
| Settings.MergeLaws | src/pages/settings/page.tsx:117-119 | an empty update changes nothing; repeating an update changes nothing more; two updates are one merged update |
| Settings.Without | src/pages/settings/page.tsx:140 | removing a day keeps exactly the other days |
| Settings.SortDaysFacts | src/pages/settings/page.tsx:141 | sorting is a permutation into ascending order |
| Settings.InsertDayPermutes | src/pages/settings/page.tsx:141 | inserting adds exactly the one day |
| Settings.InsertDayAscending | src/pages/settings/page.tsx:141 | inserting into an ascending list keeps it ascending |
| Settings.ToggleFlipsOnlyThatDay | src/pages/settings/page.tsx:138-144 | toggling flips the membership of that day and keeps every other day's |
| Settings.WithoutKeepsOrder | src/pages/settings/page.tsx:140 | removing a day from a strictly ascending list keeps it strictly ascending |
| Settings.AscendingDistinct | src/pages/settings/page.tsx:141 | an ascending list without repeats is strictly ascending |
| Settings.RepeatCounted | src/pages/settings/page.tsx:141 | a repeated day is counted at least twice |
| Settings.DistinctCount | src/pages/settings/page.tsx:141 | in a list without repeats each day is counted once or not at all |
| Settings.StrictlySortedUnique | src/pages/settings/page.tsx:141 | two strictly ascending lists with the same days are equal |
| Settings.ToggleKeepsSorted | src/pages/settings/page.tsx:138-144 | toggling keeps a strictly ascending list strictly ascending |
| Settings.ToggleTwice | src/pages/settings/page.tsx:138-144 | on a strictly ascending list, toggling the same day twice restores it |
| Settings.FindCountry | src/pages/settings/page.tsx:128 | a country is found exactly when one with that code is listed |
| Settings.SelectCountry | src/pages/settings/page.tsx:127-136 | an unknown code changes nothing; a known code sets the country and its default weekend |
| Settings.ToggleLanguage | src/pages/settings/page.tsx:121-125 | the language switches between Arabic and English and nothing else changes |
| Settings.LanguageAlternates | src/pages/settings/page.tsx:121-125 | two presses give back the starting language |
| Settings.CountryCodeMap | src/pages/settings/page.tsx:28-63 | a code is mapped exactly when it is a key of the table, to its lower-case form |
| Settings.DetectCountry | src/pages/settings/page.tsx:82-113 | a failure sets the fallback country and weekend; a response changes the settings only for a mapped, listed code, to that country and its weekend |
| Settings.DetectKnownCountry | src/pages/settings/page.tsx:89-101 | a mapped, listed code selects that country and marks it detected |
| Settings.ClearForRedetect | src/pages/settings/page.tsx:152-155 | re-detection clears the country and the flag, so detection runs again |
| Settings.Labels | src/pages/settings/page.tsx:146-150 | one label per selected day |
| Settings.LabelsConcat | src/pages/settings/page.tsx:146-150 | labelling two runs of days is labelling each |
| Settings.JoinConcat | src/pages/settings/page.tsx:149 | joining two non-empty lists puts one separator between their joins |
| Settings.SummaryInOrder | src/pages/settings/page.tsx:146-150 | the summary lists the labels in the stored order, split by the separator |
| Settings.SummaryBase | src/pages/settings/page.tsx:146-150 | one day is its label alone; no days is the empty line |
| Notifications.Decide | src/hooks/useNotifications.ts:16-35 | without permission only a request; with it, show now exactly when the time has come, else arm one timer |
| Notifications.ShownAtScheduledTime | src/hooks/useNotifications.ts:16-35 | with permission the reminder appears at its time, or at once if that has passed; without permission never |
| Notifications.Notifier.constructor | src/hooks/useNotifications.ts:5 | a fresh hook has permission "default" and nothing armed or shown |
| Notifications.Notifier.RequestPermission | src/hooks/useNotifications.ts:7-14 | when supported the answer is stored and returned; otherwise "denied" and nothing changes |
| Notifications.Notifier.Open | src/hooks/useNotifications.ts:39-51 | one open notification with the reminder tag is added, with a 10-second close timer |
| Notifications.Notifier.ShowNotification | src/hooks/useNotifications.ts:37-61 | a notification is shown exactly when supported and permitted |
| Notifications.Notifier.ScheduleNotification | src/hooks/useNotifications.ts:16-35 | without permission only a request, which changes permission and counts a prompt exactly when supported; with it, shown now or one timer armed with the remaining delay |
| Notifications.BrowserDelay | src/hooks/useNotifications.ts:32-34 | the browser waits between 0 and 2^31 - 1 ms, exactly the delay when it is in that range, and less than any longer delay |
| Notifications.LongReminderShownEarly | src/hooks/useNotifications.ts:32-34 | a reminder more than 2^31 - 1 ms ahead is shown before its time, and one 2^31 ms ahead at once |
| Notifications.TimerChunks | src/hooks/useNotifications.ts:32-34 | a chain of timers, each within the browser's range, whose delays add up to the wanted delay |
| Notifications.BrowserTotalExact | src/hooks/useNotifications.ts:32-34 | timers within the browser's range are waited out exactly |
| Notifications.ChunkedShownAtScheduledTime | src/hooks/useNotifications.ts:32-34 | with the chain of timers a reminder is shown at its scheduled time |
| Notifications.Notifier.FireTimer | src/hooks/useNotifications.ts:32-34 | a fired timer is dropped; a reminder timer shows its notification when supported; a close timer closes its notification |
| Notifications.Notifier.Click | src/hooks/useNotifications.ts:54-57 | clicking closes that notification and changes nothing else |
| Theme.Toggled | src/hooks/useTheme.ts:19-21 | light becomes dark; anything else becomes light |
| Theme.ToggleTwice | src/hooks/useTheme.ts:19-21 | toggling twice restores light or dark; any other stored value ends dark |
| Theme.AddClass | src/hooks/useTheme.ts:13 | adding a class keeps every class and adds that one |
| Theme.RemoveClass | src/hooks/useTheme.ts:15 | removing a class keeps exactly the other classes |
| Theme.RemoveKeepsNoRepeats | src/hooks/useTheme.ts:15 | removing keeps a class list free of repeats |
| Theme.ThemeStore.constructor | src/hooks/useTheme.ts:7-17 | the stored theme or light, and the root has the dark class exactly for dark |
| Theme.ThemeStore.ApplyTheme | src/hooks/useTheme.ts:9-17 | after the effect the root has the dark class exactly for dark, and no other class changes |
| Theme.ThemeStore.ToggleTheme | src/hooks/useTheme.ts:19-21 | the theme flips and the root follows it |
| Theme.ThemeStore.SetTheme | src/hooks/useTheme.ts:23 | the theme is set and the root follows it |

## Left out

- Rendering, styling, colours, icons, labels in two languages and the
  percentages of the chart rows. These are presentation, or floating point.
- Local storage. Each stored record is a value passed in, so nothing is read
  back from the browser.
- The country table and the holiday table are parameters. The country-code
  map is its list of keys, each mapping to its own lower-case form, which is
  what every entry of that table does.
- The network lookup in country detection is a parameter with three outcomes:
  a response with a code, a response without one, or a failure. Its
  asynchrony and its loading flag are not modelled.
- Time zones. Every day number is a local calendar day. A holiday's date
  string is read as midnight of that day, and `toISOString` is taken to give
  the same calendar day. In a time zone east of UTC, such as the United Arab
  Emirates', `toISOString` of a local midnight names the previous day, so the
  source can match a holiday one day early. The model does not capture that.
- The reminder date and time fields are a day number and a minute of the
  day. Parsing their text is not modelled.
- MonthGrid.Build and ShiftSystem.MonthCalendar lay out `new Date(year,
  month, 1)` as that year itself. JavaScript reads a year from 0 to 99 given
  to `new Date(y, m, d)` as 1900 + y. For a shift start date in such a year
  (the date field accepts `0050-03-01`), the page lays out the month of 1950,
  so its leading blanks can differ from the model's. Those years are not
  modelled; `JsDate.MakeDay` is the constructor for all other years.
- JsDate: day numbers are unbounded integers. JavaScript's `Date` holds
  only 10^8 days either side of 1 January 1970; dates beyond that are not
  modelled.
- JsText.ParseInt returns an unbounded integer. JavaScript's `parseInt`
  returns a double, so `JsText.ParseIntToString` and
  `ShiftSystem.OffsetOfTypedNumber` hold exactly only for magnitudes up to
  2^53; larger numbers are rounded in the source and not in the model.
- Notes.SortNotes: `Array.prototype.sort` is modelled as an insertion sort
  with the same comparator. Like the stable sort ECMAScript 2019 requires, it
  keeps notes that compare equal in their stored order (`Notes.SortStable`).
  The two therefore give the same result.
- Notes.HandleSubmit is modelled although no form in the page is wired to
  it. The two save buttons are `Notes.SaveSimpleNote` and
  `Notes.SaveReminderNote`.
- Notifications.Notifier.RequestPermission: the user's answer is a parameter
  given at once. The wait for the prompt, focusing the window on a click, and
  the browser's own handling of a second notification with the same tag are
  not modelled.
- Notifications.Notifier.ScheduleNotification arms one timer with the full
  delay, and `Timer.delay` is the wait intended. The browser cuts a delay to
  32 bits, so a reminder more than 2^31 - 1 ms (nearly 25 days) ahead is
  shown early (see Findings). The model keeps the intended wait, which a
  chain of timers gives (`Notifications.ChunkedShownAtScheduledTime`).
- Notifications.Notifier.FireTimer: the timer's callback re-checks only
  support, because its permission was captured when it was armed. Timers fire
  in whatever order the caller picks; the clock that orders them is not
  modelled.
- ShiftSystem.CalculateShiftPattern requires a positive cycle length. The
  steppers keep both runs at least 1 (`ShiftSystem.EditsKeepStepperRange`);
  the length-0 cycle of a hand-edited stored record is not modelled.
- The shift planner's month key is the pair of year and month, not the string
  `"year-month"` that is split again. The two agree for years from 0 on.
- The statistics page reads a `shiftSettings` record that no page in this
  model writes. It is a parameter (`Charts.StatsConfig`).
- Charts.IsVacationDay takes a cycle of length 0, where JavaScript's
  remainder is NaN, as never personal leave, which is what the comparison
  does with NaN.
- Home.PreviewOfMonth states the mini calendar's contents only for month
  grids. That is the only input the page gives it.

## Findings

| source | as written | input that shows it | evidently intended | confidence | as-written member | corrected member |
|---|---|---|---|---|---|---|
| src/pages/calendar/page.tsx:73-81 | `setMonth(getMonth() ± 1)` keeps the day of the month, and a day past the target month's end overflows into the month after it | on 31 January, "next" shows 3 March (2 March in a leap year) and February is skipped; on 31 March, "previous" shows 3 March again | move to the previous or next month | high, not executed | Calendar.NextSkipsFebruary | Calendar.NavigateMonthMoves |
| src/hooks/useNotifications.ts:32-34 | `setTimeout(…, delay)` with the full delay, which the browser converts to a 32-bit signed integer | a reminder 2^31 ms (nearly 25 days) ahead is shown at once; any reminder more than 2^31 - 1 ms ahead is shown early | show the reminder at its scheduled time, for instance by re-arming the timer in steps of at most 2^31 - 1 ms | high, not executed | Notifications.LongReminderShownEarly | Notifications.ChunkedShownAtScheduledTime |
