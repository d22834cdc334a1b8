/**
 * The settings page: the shallow merge every change goes through, the
 * weekend-day toggle, country selection, the language toggle, the handling
 * of the IP geolocation lookup's result, and the weekend summary line.
 *
 * The country table (code and default weekend of each country) is a
 * parameter. The lookup itself is network I/O; only its outcome is modelled.
 */
module Settings {
  import opened AppData
  import opened JsText

  /** One row of the country table. */
  datatype Country = Country(code: string, defaultWeekends: seq<Weekday>)

  /** The stored record before anything is chosen. */
  const DefaultSettings: AppSettings := AppSettings("", [5, 6], Official, "ar", true, false)

  // ----- the shallow merge --------------------------------------------------------------

  /** A `Partial<typeof settings>`: the keys present in an update. */
  datatype Patch = Patch(
    country: Option<string>,
    weekendDays: Option<seq<Weekday>>,
    workSystem: Option<WorkSystem>,
    language: Option<string>,
    notifications: Option<bool>,
    countryDetected: Option<bool>)

  const NoChange: Patch := Patch(None, None, None, None, None, None)

  function Pick<T>(current: T, patched: Option<T>): T {
    if patched.Some? then patched.value else current
  }

  /** `updateSettings(patch)`: `{ ...settings, ...patch }`. */
  function UpdateSettings(s: AppSettings, p: Patch): (r: AppSettings)
    ensures p.country.Some? ==> r.country == p.country.value
    ensures p.country.None? ==> r.country == s.country
    ensures p.weekendDays.Some? ==> r.weekendDays == p.weekendDays.value
    ensures p.weekendDays.None? ==> r.weekendDays == s.weekendDays
    ensures p.workSystem.Some? ==> r.workSystem == p.workSystem.value
    ensures p.workSystem.None? ==> r.workSystem == s.workSystem
    ensures p.language.Some? ==> r.language == p.language.value
    ensures p.language.None? ==> r.language == s.language
    ensures p.notifications.Some? ==> r.notifications == p.notifications.value
    ensures p.notifications.None? ==> r.notifications == s.notifications
    ensures p.countryDetected.Some? ==> r.countryDetected == p.countryDetected.value
    ensures p.countryDetected.None? ==> r.countryDetected == s.countryDetected
  {
    AppSettings(
      Pick(s.country, p.country),
      Pick(s.weekendDays, p.weekendDays),
      Pick(s.workSystem, p.workSystem),
      Pick(s.language, p.language),
      Pick(s.notifications, p.notifications),
      Pick(s.countryDetected, p.countryDetected))
  }

  /** `{ ...p, ...q }`: the later update wins key by key. */
  function Then(p: Patch, q: Patch): Patch {
    Patch(
      if q.country.Some? then q.country else p.country,
      if q.weekendDays.Some? then q.weekendDays else p.weekendDays,
      if q.workSystem.Some? then q.workSystem else p.workSystem,
      if q.language.Some? then q.language else p.language,
      if q.notifications.Some? then q.notifications else p.notifications,
      if q.countryDetected.Some? then q.countryDetected else p.countryDetected)
  }

  /**
   * Merging is last-write-wins: an empty update changes nothing, applying an update twice
   * is applying it once, and two updates in a row are their combined update.
   */
  lemma {:induction false} MergeLaws(s: AppSettings, p: Patch, q: Patch)
    ensures UpdateSettings(s, NoChange) == s
    ensures UpdateSettings(UpdateSettings(s, p), p) == UpdateSettings(s, p)
    ensures UpdateSettings(UpdateSettings(s, p), q) == UpdateSettings(s, Then(p, q))
  {
  }

  // ----- the weekend-day toggle -----------------------------------------------------------

  /** `days.filter(d => d !== day)`. */
  function Without(days: seq<Weekday>, day: Weekday): (r: seq<Weekday>)
    ensures forall x :: x in r <==> x in days && x != day
    ensures |r| <= |days|
  {
    if days == [] then []
    else (if days[0] != day then [days[0]] else []) + Without(days[1..], day)
  }

  /** Ascending order with no repeats. */
  predicate StrictlySorted(s: seq<Weekday>) {
    forall i, j :: 0 <= i < j < |s| ==> s[i] < s[j]
  }

  predicate Ascending(s: seq<Weekday>) {
    forall i, j :: 0 <= i < j < |s| ==> s[i] <= s[j]
  }

  function InsertDay(x: Weekday, s: seq<Weekday>): seq<Weekday> {
    if s == [] || x <= s[0] then [x] + s else [s[0]] + InsertDay(x, s[1..])
  }

  /**
   * `.sort()` with no comparator: JavaScript compares the numbers as strings, which for
   * the one-digit day numbers 0..6 is their numeric order. An insertion sort stands for it.
   */
  function SortDays(s: seq<Weekday>): seq<Weekday> {
    if s == [] then [] else InsertDay(s[0], SortDays(s[1..]))
  }

  /** Inserting adds exactly the one day. */
  lemma {:induction false} InsertDayPermutes(x: Weekday, s: seq<Weekday>)
    ensures multiset(InsertDay(x, s)) == multiset(s) + multiset{x}
  {
    if s != [] && x > s[0] {
      InsertDayPermutes(x, s[1..]);
      assert s == [s[0]] + s[1..];
    }
  }

  /** Inserting into an ascending list keeps it ascending. */
  lemma {:induction false} InsertDayAscending(x: Weekday, s: seq<Weekday>)
    requires Ascending(s)
    ensures Ascending(InsertDay(x, s))
  {
    if s != [] && x > s[0] {
      InsertDayAscending(x, s[1..]);
      InsertDayPermutes(x, s[1..]);
      var r := [s[0]] + InsertDay(x, s[1..]);
      forall i, j | 0 <= i < j < |r| ensures r[i] <= r[j] {
        if i == 0 {
          assert r[j] in multiset(InsertDay(x, s[1..]));
          assert r[j] == x || r[j] in s[1..];
        }
      }
    }
  }

  /** The sort is a permutation into ascending order. */
  lemma {:induction false} SortDaysFacts(s: seq<Weekday>)
    ensures multiset(SortDays(s)) == multiset(s)
    ensures Ascending(SortDays(s))
  {
    if s != [] {
      SortDaysFacts(s[1..]);
      InsertDayPermutes(s[0], SortDays(s[1..]));
      InsertDayAscending(s[0], SortDays(s[1..]));
      assert s == [s[0]] + s[1..];
    }
  }

  /** `toggleWeekendDay(day)`: remove the day if listed, else add it and sort. */
  function ToggleWeekendDay(days: seq<Weekday>, day: Weekday): seq<Weekday> {
    if day in days then Without(days, day) else SortDays(days + [day])
  }

  /** Toggling flips the membership of that one day and keeps every other day's. */
  lemma {:induction false} ToggleFlipsOnlyThatDay(days: seq<Weekday>, day: Weekday)
    ensures day in ToggleWeekendDay(days, day) <==> day !in days
    ensures forall x :: x != day ==> (x in ToggleWeekendDay(days, day) <==> x in days)
  {
    if day !in days {
      SortDaysFacts(days + [day]);
      assert forall x :: x in SortDays(days + [day]) <==> x in multiset(days + [day]);
    }
  }

  lemma {:induction false} WithoutKeepsOrder(days: seq<Weekday>, day: Weekday)
    requires StrictlySorted(days)
    ensures StrictlySorted(Without(days, day))
  {
    if days != [] {
      WithoutKeepsOrder(days[1..], day);
      var rest := Without(days[1..], day);
      if days[0] != day {
        var r := [days[0]] + rest;
        forall i, j | 0 <= i < j < |r| ensures r[i] < r[j] {
          if i == 0 {
            assert r[j] in days[1..];
            var k :| 0 <= k < |days[1..]| && days[1..][k] == r[j];
            assert days[k + 1] == r[j];
          } else {
            assert r[i] == rest[i - 1] && r[j] == rest[j - 1];
          }
        }
      }
    }
  }

  /** An ascending list without repeats is strictly ascending. */
  lemma {:induction false} AscendingDistinct(s: seq<Weekday>)
    requires Ascending(s)
    requires forall x :: multiset(s)[x] <= 1
    ensures StrictlySorted(s)
  {
    forall i, j | 0 <= i < j < |s| ensures s[i] < s[j] {
      RepeatCounted(s, i, j);
    }
  }

  lemma {:induction false} RepeatCounted(s: seq<Weekday>, i: int, j: int)
    requires 0 <= i < j < |s|
    ensures s[i] == s[j] ==> multiset(s)[s[i]] >= 2
  {
    assert s == s[..i] + [s[i]] + s[i + 1..j] + [s[j]] + s[j + 1..];
  }

  /** Two strictly ascending lists with the same members are equal. */
  lemma {:induction false} StrictlySortedUnique(a: seq<Weekday>, b: seq<Weekday>)
    requires StrictlySorted(a) && StrictlySorted(b)
    requires forall x :: x in a <==> x in b
    ensures a == b
  {
    if a != [] { assert a[0] in b; }
    if b != [] { assert b[0] in a; }
    if a != [] && b != [] {
      assert a[0] == b[0];
      forall x ensures x in a[1..] <==> x in b[1..] {
        if x in a[1..] { assert x in b && x != b[0]; }
        if x in b[1..] { assert x in a && x != a[0]; }
      }
      StrictlySortedUnique(a[1..], b[1..]);
      assert a == [a[0]] + a[1..] && b == [b[0]] + b[1..];
    }
  }

  /** A sorted list without repeats stays sorted and without repeats after a toggle. */
  lemma {:induction false} ToggleKeepsSorted(days: seq<Weekday>, day: Weekday)
    requires StrictlySorted(days)
    ensures StrictlySorted(ToggleWeekendDay(days, day))
  {
    if day in days {
      WithoutKeepsOrder(days, day);
    } else {
      var t := days + [day];
      SortDaysFacts(t);
      forall x ensures multiset(SortDays(t))[x] <= 1 {
        assert multiset(t) == multiset(days) + multiset{day};
        DistinctCount(days, x);
      }
      AscendingDistinct(SortDays(t));
    }
  }

  lemma {:induction false} DistinctCount(s: seq<Weekday>, x: int)
    requires StrictlySorted(s)
    ensures multiset(s)[x] == if x in s then 1 else 0
  {
    if s != [] {
      DistinctCount(s[1..], x);
      assert s == [s[0]] + s[1..];
      assert s[0] !in s[1..];
    }
  }

  /** On a sorted list without repeats, toggling the same day twice restores the list. */
  lemma {:induction false} ToggleTwice(days: seq<Weekday>, day: Weekday)
    requires StrictlySorted(days)
    ensures ToggleWeekendDay(ToggleWeekendDay(days, day), day) == days
  {
    var once := ToggleWeekendDay(days, day);
    ToggleFlipsOnlyThatDay(days, day);
    ToggleKeepsSorted(days, day);
    ToggleFlipsOnlyThatDay(once, day);
    ToggleKeepsSorted(once, day);
    StrictlySortedUnique(ToggleWeekendDay(once, day), days);
  }

  // ----- country and language ---------------------------------------------------------

  /** `countries.find(c => c.code === code)`. */
  function FindCountry(countries: seq<Country>, code: string): (r: Option<Country>)
    ensures r.Some? <==> exists i :: 0 <= i < |countries| && countries[i].code == code
    ensures r.Some? ==> r.value.code == code && r.value in countries
  {
    if countries == [] then None
    else if countries[0].code == code then Some(countries[0])
    else
      var rest := FindCountry(countries[1..], code);
      assert forall i :: 1 <= i < |countries| ==> countries[i] == countries[1..][i - 1];
      assert rest.Some? ==> exists i :: 0 <= i < |countries[1..]| && countries[1..][i].code == code;
      rest
  }

  /** `selectCountry(code)`: a known code sets the country and its default weekend. */
  function SelectCountry(s: AppSettings, countries: seq<Country>, code: string): (r: AppSettings)
    ensures FindCountry(countries, code).None? ==> r == s
    ensures FindCountry(countries, code).Some? ==>
              r == s.(country := code, weekendDays := FindCountry(countries, code).value.defaultWeekends)
  {
    var country := FindCountry(countries, code);
    if country.Some? then
      UpdateSettings(s, NoChange.(country := Some(code), weekendDays := Some(country.value.defaultWeekends)))
    else s
  }

  /** `toggleLanguage()`: the new language, from the interface's current one, is stored in the settings. */
  function ToggleLanguage(s: AppSettings, current: string): (r: AppSettings)
    ensures r.language == (if current == "ar" then "en" else "ar")
    ensures r == s.(language := r.language)
  {
    UpdateSettings(s, NoChange.(language := Some(if current == "ar" then "en" else "ar")))
  }

  /** Pressed twice, the language toggle comes back to Arabic or English, whichever it started from. */
  lemma {:induction false} LanguageAlternates(s: AppSettings, current: string)
    requires current == "ar" || current == "en"
    ensures ToggleLanguage(ToggleLanguage(s, current), ToggleLanguage(s, current).language).language == current
  {
  }

  // ----- country detection --------------------------------------------------------------

  /** The keys of `countryCodeMap`: every key maps to the same code in lower case. */
  const MappedCodes: seq<string> := [
    "AE", "SA", "EG", "JO", "KW", "QA", "BH", "OM", "IQ", "SY", "LB", "PS",
    "YE", "IR", "TR", "IL", "MA", "DZ", "TN", "LY", "SD", "AF", "PK", "IN",
    "BD", "LK", "MV", "NP", "BT", "CN", "JP", "KR", "KP", "MN", "TH", "VN",
    "LA", "KH", "MM", "MY", "SG", "ID", "BN", "PH", "TL", "TW", "HK", "MO",
    "UZ", "KZ", "KG", "TJ", "TM", "AZ", "AM", "GE", "CY", "RU", "DE", "FR",
    "GB", "IT", "ES", "PT", "NL", "BE", "CH", "AT", "SE", "NO", "DK", "FI",
    "IS", "IE", "PL", "CZ", "SK", "HU", "RO", "BG", "HR", "SI", "RS", "BA",
    "ME", "MK", "AL", "GR", "LT", "LV", "EE", "BY", "UA", "MD", "LU", "MT",
    "MC", "AD", "SM", "VA", "LI", "ZA", "NG", "KE", "ET", "UG", "TZ", "RW",
    "BI", "DJ", "SO", "ER", "SS", "CD", "CG", "CF", "CM", "TD", "NE", "ML",
    "BF", "CI", "GH", "TG", "BJ", "SN", "GM", "GW", "GN", "SL", "LR", "MR",
    "CV", "ST", "GQ", "GA", "AO", "NA", "BW", "ZW", "ZM", "MW", "MZ", "MG",
    "MU", "SC", "KM", "SZ", "LS", "US", "CA", "MX", "GT", "BZ", "SV", "HN",
    "NI", "CR", "PA", "CU", "JM", "HT", "DO", "PR", "TT", "BB", "GD", "LC",
    "VC", "AG", "DM", "KN", "BS", "BR", "AR", "CL", "PE", "CO", "VE", "EC",
    "BO", "PY", "UY", "GY", "SR", "GF", "AU", "NZ", "PG", "FJ", "SB", "VU",
    "NC", "PF", "WS", "TO", "KI", "TV", "NR", "PW", "FM", "MH"
  ]

  /** `countryCodeMap[code]`. */
  function CountryCodeMap(key: string): (r: Option<string>)
    ensures r.Some? <==> key in MappedCodes
    ensures r.Some? ==> r.value == ToLower(key)
  {
    if key in MappedCodes then Some(ToLower(key)) else None
  }

  /** The outcome of the lookup: a response with or without a `country_code`, or a thrown failure. */
  datatype Lookup = Response(countryCode: Option<string>) | Failure

  /** The fixed fallback: the United Arab Emirates with a Friday and Saturday weekend. */
  const FallbackCountry: string := "ae"
  const FallbackWeekend: seq<Weekday> := [5, 6]

  /** The settings update `detectUserCountry` makes from the lookup's outcome. */
  function DetectCountry(s: AppSettings, countries: seq<Country>, lookup: Lookup): (r: AppSettings)
    ensures lookup.Failure? ==>
              r == s.(country := FallbackCountry, weekendDays := FallbackWeekend, countryDetected := true)
    ensures lookup.Response? && r != s ==>
              && lookup.countryCode.Some?
              && CountryCodeMap(ToUpper(lookup.countryCode.value)).Some?
              && r.country == ToLower(lookup.countryCode.value)
              && FindCountry(countries, r.country).Some?
              && r.weekendDays == FindCountry(countries, r.country).value.defaultWeekends
              && r.countryDetected
  {
    match lookup
    case Failure =>
      UpdateSettings(s, NoChange.(country := Some(FallbackCountry), weekendDays := Some(FallbackWeekend),
                                  countryDetected := Some(true)))
    case Response(code) =>
      if code.None? || code.value == "" then s
      else
        var detected := CountryCodeMap(ToUpper(code.value));
        LowerOfUpper(code.value);
        if detected.None? || detected.value == "" then s
        else
          var country := FindCountry(countries, detected.value);
          if country.None? then s
          else UpdateSettings(s, NoChange.(country := Some(detected.value),
                                           weekendDays := Some(country.value.defaultWeekends),
                                           countryDetected := Some(true)))
  }

  /** A detection that succeeds with a listed, known code sets that country (lower case) and its weekend. */
  lemma {:induction false} DetectKnownCountry(s: AppSettings, countries: seq<Country>, code: string)
    requires code != "" && ToUpper(code) in MappedCodes
    requires FindCountry(countries, ToLower(code)).Some?
    ensures DetectCountry(s, countries, Response(Some(code))) ==
              SelectCountry(s, countries, ToLower(code)).(countryDetected := true)
  {
    LowerOfUpper(code);
    assert ToLower(ToUpper(code)) == ToLower(code);
    assert |ToLower(code)| == |code| > 0;
  }

  /** The lookup runs on first load only while no country is set and none was detected. */
  predicate ShouldDetect(s: AppSettings) {
    !s.countryDetected && s.country == ""
  }

  /** `redetectCountry()` first clears the country and the detected flag, so a lookup follows. */
  function ClearForRedetect(s: AppSettings): (r: AppSettings)
    ensures ShouldDetect(r)
    ensures r == s.(country := "", countryDetected := false)
  {
    UpdateSettings(s, NoChange.(countryDetected := Some(false), country := Some("")))
  }

  // ----- the weekend summary ------------------------------------------------------------

  /** `weekDays[d].labelShort`, in Arabic or English. */
  function ShortLabel(isRTL: bool, d: Weekday): string {
    if isRTL then ["أحد", "اثنين", "ثلاثاء", "أربعاء", "خميس", "جمعة", "سبت"][d]
    else ["Sun", "Mon", "Tue", "Wed", "Thu", "Fri", "Sat"][d]
  }

  const Separator: string := " - "

  /** `parts.join(sep)`. */
  function Join(parts: seq<string>, sep: string): string {
    if parts == [] then ""
    else if |parts| == 1 then parts[0]
    else parts[0] + sep + Join(parts[1..], sep)
  }

  /** `selected.map(d => weekDays[d].labelShort)`. */
  function Labels(isRTL: bool, days: seq<Weekday>): (r: seq<string>)
    ensures |r| == |days|
  {
    seq(|days|, i requires 0 <= i < |days| => ShortLabel(isRTL, days[i]))
  }

  /** `getSelectedWeekendDaysText()`. */
  function WeekendSummary(isRTL: bool, days: seq<Weekday>): string {
    Join(Labels(isRTL, days), Separator)
  }

  /** The labels of two runs of days are the labels of the first run, then of the second. */
  lemma {:induction false} LabelsConcat(isRTL: bool, a: seq<Weekday>, b: seq<Weekday>)
    ensures Labels(isRTL, a + b) == Labels(isRTL, a) + Labels(isRTL, b)
  {
    var l := Labels(isRTL, a + b);
    var r := Labels(isRTL, a) + Labels(isRTL, b);
    forall i | 0 <= i < |l| ensures l[i] == r[i] {
      if i < |a| {
        assert (a + b)[i] == a[i];
      } else {
        assert (a + b)[i] == b[i - |a|];
      }
    }
  }

  /** Joining two non-empty lists is joining each and putting the separator between them. */
  lemma {:induction false} JoinConcat(p: seq<string>, q: seq<string>, sep: string)
    requires p != [] && q != []
    ensures Join(p + q, sep) == Join(p, sep) + sep + Join(q, sep)
    decreases |p|
  {
    assert (p + q)[0] == p[0];
    if |p| > 1 {
      assert (p + q)[1..] == p[1..] + q;
      var j := Join(p[1..], sep);
      var k := Join(q, sep);
      JoinConcat(p[1..], q, sep);
      assert Join(p + q, sep) == p[0] + sep + (j + sep + k);
      assert Join(p, sep) == p[0] + sep + j;
      SeqAssoc(p[0] + sep, j, sep + k);
    } else {
      assert (p + q)[1..] == q;
    }
  }

  lemma {:induction false} SeqAssoc(x: string, y: string, z: string)
    ensures x + (y + z) == (x + y) + z
  {
  }

  /** The summary lists the labels in the order of the stored days: it splits at the separator. */
  lemma {:induction false} SummaryInOrder(isRTL: bool, a: seq<Weekday>, b: seq<Weekday>)
    requires a != [] && b != []
    ensures WeekendSummary(isRTL, a + b) == WeekendSummary(isRTL, a) + Separator + WeekendSummary(isRTL, b)
  {
    LabelsConcat(isRTL, a, b);
    JoinConcat(Labels(isRTL, a), Labels(isRTL, b), Separator);
  }

  /** One day is just its label; no days is the empty line. */
  lemma {:induction false} SummaryBase(isRTL: bool, d: Weekday)
    ensures WeekendSummary(isRTL, [d]) == ShortLabel(isRTL, d)
    ensures WeekendSummary(isRTL, []) == ""
  {
  }
}
