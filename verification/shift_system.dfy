/**
 * The shift-system page: the stored shift pattern and its edits (date picker,
 * the four clamped steppers, the offset field, the start-with toggle and the
 * reset button), the 60-day preview, its grouping by calendar month, the
 * per-month grid and the per-month work/leave counts.
 *
 * The pattern's start date is a day number; cycle positions are counted from
 * `startDate + offset`.
 */
module ShiftSystem {
  import opened JsDate
  import opened AppData
  import opened JsText
  import MonthGrid

  datatype ShiftPattern = ShiftPattern(
    startDate: int,
    workDays: int,
    leaveDays: int,
    offset: int,
    startWithWork: bool)

  /** One preview row: its date, its label, its 1-based position in the cycle and its 1-based cycle. */
  datatype PreviewEntry = PreviewEntry(date: int, isWorkDay: bool, dayInCycle: int, cycleNumber: int)

  /** Days the preview covers. */
  const PreviewDays: int := 60
  /** The steppers' bounds. */
  const MinRun: int := 1
  const MaxRun: int := 14

  /** The pattern stored before any edit, and the one the reset button restores. */
  function DefaultPattern(today: int): ShiftPattern {
    ShiftPattern(today, 4, 2, 0, true)
  }

  /** The range the steppers keep both run lengths in. */
  predicate InStepperRange(p: ShiftPattern) {
    MinRun <= p.workDays <= MaxRun && MinRun <= p.leaveDays <= MaxRun
  }

  function CycleLength(p: ShiftPattern): int {
    p.workDays + p.leaveDays
  }

  /** Whether cycle position pos (0-based) is a work day. */
  predicate IsWorkPosition(p: ShiftPattern, pos: int) {
    if p.startWithWork then pos < p.workDays else pos >= p.leaveDays
  }

  /** Reference definition of preview row i, dated i days after `startDate + offset`. */
  function EntryAt(p: ShiftPattern, i: int): PreviewEntry
    requires CycleLength(p) > 0 && 0 <= i
  {
    var l := CycleLength(p);
    PreviewEntry(p.startDate + p.offset + i, IsWorkPosition(p, i % l), i % l + 1, i / l + 1)
  }

  /**
   * Row i is dated startDate + offset + i; dayInCycle is 1-based and at most the cycle
   * length; row i lies dayInCycle - 1 days into cycle cycleNumber (1-based).
   */
  lemma {:induction false} EntryShape(p: ShiftPattern, i: int)
    requires CycleLength(p) > 0 && 0 <= i
    ensures var e := EntryAt(p, i);
            && e.date == p.startDate + p.offset + i
            && 1 <= e.dayInCycle <= CycleLength(p)
            && 1 <= e.cycleNumber
            && i == (e.cycleNumber - 1) * CycleLength(p) + e.dayInCycle - 1
            && (e.isWorkDay <==> if p.startWithWork then e.dayInCycle <= p.workDays
                                 else e.dayInCycle > p.leaveDays)
  {
  }

  // ----- editing the pattern ------------------------------------------------------

  /** The controls that change the stored pattern. */
  datatype PatternEdit =
    | PickStartDate(date: int)
    | DecWorkDays | IncWorkDays
    | DecLeaveDays | IncLeaveDays
    | TypeOffset(text: string)
    | ChooseStartWithWork(startWithWork: bool)

  function Max(a: int, b: int): int { if a < b then b else a }
  function Min(a: int, b: int): int { if a < b then a else b }

  /** The offset field's `parseInt(value) || 0`: NaN (and 0) become 0. */
  function OffsetFromInput(text: string): (n: int)
    ensures (forall k :: 0 <= k < |text| ==> !IsDigit(text[k])) ==> n == 0
  {
    match ParseInt(text)
    case None => 0
    case Some(v) => v
  }

  /** Applies one edit; every other field of the pattern is kept. */
  function ApplyEdit(p: ShiftPattern, e: PatternEdit): (r: ShiftPattern)
    ensures InStepperRange(p) ==> InStepperRange(r)
    ensures e.DecWorkDays? || e.IncWorkDays? ==> r == p.(workDays := r.workDays)
    ensures e.DecLeaveDays? || e.IncLeaveDays? ==> r == p.(leaveDays := r.leaveDays)
    ensures e.DecWorkDays? ==> MinRun <= r.workDays && (p.workDays > MinRun ==> r.workDays == p.workDays - 1)
    ensures e.IncWorkDays? ==> r.workDays <= MaxRun && (p.workDays < MaxRun ==> r.workDays == p.workDays + 1)
    ensures e.DecLeaveDays? ==> MinRun <= r.leaveDays && (p.leaveDays > MinRun ==> r.leaveDays == p.leaveDays - 1)
    ensures e.IncLeaveDays? ==> r.leaveDays <= MaxRun && (p.leaveDays < MaxRun ==> r.leaveDays == p.leaveDays + 1)
    ensures e.DecWorkDays? && p.workDays <= MinRun ==> r.workDays == MinRun
    ensures e.IncWorkDays? && p.workDays >= MaxRun ==> r.workDays == MaxRun
    ensures e.DecLeaveDays? && p.leaveDays <= MinRun ==> r.leaveDays == MinRun
    ensures e.IncLeaveDays? && p.leaveDays >= MaxRun ==> r.leaveDays == MaxRun
    ensures e.TypeOffset? ==> r == p.(offset := OffsetFromInput(e.text))
    ensures e.PickStartDate? ==> r == p.(startDate := e.date)
    ensures e.ChooseStartWithWork? ==> r == p.(startWithWork := e.startWithWork)
  {
    match e
    case PickStartDate(d) => p.(startDate := d)
    case DecWorkDays => p.(workDays := Max(MinRun, p.workDays - 1))
    case IncWorkDays => p.(workDays := Min(MaxRun, p.workDays + 1))
    case DecLeaveDays => p.(leaveDays := Max(MinRun, p.leaveDays - 1))
    case IncLeaveDays => p.(leaveDays := Min(MaxRun, p.leaveDays + 1))
    case TypeOffset(text) => p.(offset := OffsetFromInput(text))
    case ChooseStartWithWork(b) => p.(startWithWork := b)
  }

  /** Typing the decimal form of a whole number stores exactly that offset. */
  lemma {:induction false} OffsetOfTypedNumber(n: int)
    ensures OffsetFromInput(IntToString(n)) == n
  {
    ParseIntToString(n);
  }

  /** Starting from the stored default and applying any edits keeps both run lengths in [1, 14]. */
  lemma {:induction false} EditsKeepStepperRange(today: int, edits: seq<PatternEdit>)
    ensures InStepperRange(ApplyEdits(DefaultPattern(today), edits))
    decreases |edits|
  {
    if edits != [] {
      EditsKeepStepperRange(today, edits[..|edits| - 1]);
    }
  }

  function ApplyEdits(p: ShiftPattern, edits: seq<PatternEdit>): ShiftPattern
    decreases |edits|
  {
    if edits == [] then p else ApplyEdit(ApplyEdits(p, edits[..|edits| - 1]), edits[|edits| - 1])
  }

  // ----- the page state -------------------------------------------------------------

  /** The page's state: the stored pattern, the preview rows and whether the preview shows. */
  datatype PageState = PageState(pattern: ShiftPattern, previewResults: seq<PreviewEntry>, showPreview: bool)

  /** `resetPattern()`: the default pattern, no preview. */
  function ResetPattern(s: PageState, today: int): (r: PageState)
    ensures r.pattern == DefaultPattern(today) && InStepperRange(r.pattern)
    ensures !r.showPreview && r.previewResults == []
  {
    PageState(DefaultPattern(today), [], false)
  }

  // ----- the 60-day preview ---------------------------------------------------------

  /** The first n rows of the preview, by the reference definition. */
  function Rows(p: ShiftPattern, n: nat): seq<PreviewEntry>
    requires CycleLength(p) > 0
  {
    if n == 0 then [] else Rows(p, n - 1) + [EntryAt(p, n - 1)]
  }

  lemma {:induction false} RowsIndex(p: ShiftPattern, n: nat)
    requires CycleLength(p) > 0
    ensures |Rows(p, n)| == n
    ensures forall i :: 0 <= i < n ==> Rows(p, n)[i] == EntryAt(p, i)
  {
    if n > 0 {
      RowsIndex(p, n - 1);
    }
  }

  /** `calculateShiftPattern()`: the 60 preview rows. */
  method CalculateShiftPattern(p: ShiftPattern) returns (results: seq<PreviewEntry>)
    requires CycleLength(p) > 0
    ensures |results| == PreviewDays
    ensures forall i :: 0 <= i < |results| ==> results[i].date == p.startDate + p.offset + i
    ensures forall i :: 0 <= i < |results| ==> results[i] == EntryAt(p, i)
  {
    results := [];
    var startDate := p.startDate;
    var cycleLength := p.workDays + p.leaveDays;
    var adjustedStartDate := AddDays(startDate, p.offset);
    for i := 0 to PreviewDays
      invariant results == Rows(p, i)
    {
      var currentDate := AddDays(adjustedStartDate, i);
      var dayInCycle := i % cycleLength;
      var isWorkDay;
      if p.startWithWork {
        isWorkDay := dayInCycle < p.workDays;
      } else {
        isWorkDay := dayInCycle >= p.leaveDays;
      }
      results := results + [PreviewEntry(currentDate, isWorkDay, dayInCycle + 1, i / cycleLength + 1)];
    }
    RowsIndex(p, PreviewDays);
  }

  /** Pressing "preview" computes the rows and shows them. */
  method Preview(s: PageState) returns (r: PageState)
    requires CycleLength(s.pattern) > 0
    ensures r.pattern == s.pattern && r.showPreview
    ensures |r.previewResults| == PreviewDays
    ensures forall i :: 0 <= i < PreviewDays ==> r.previewResults[i] == EntryAt(s.pattern, i)
  {
    var results := CalculateShiftPattern(s.pattern);
    r := PageState(s.pattern, results, true);
  }

  /** With a positive cycle length, a positive multiple of it has a positive factor. */
  lemma {:induction false} PositiveFactor(x: int, l: int)
    requires 0 < l && 0 < x * l
    ensures 0 < x
  {
  }

  /** Division facts for a row that lies c whole cycles plus j days from the start. */
  lemma {:induction false} CyclePosition(c: int, l: int, j: int)
    requires 0 <= j < l
    ensures (c * l + j) % l == j && (c * l + j) / l == c
  {
    var q := (c * l + j) / l;
    var r := (c * l + j) % l;
    assert c * l + j == q * l + r;
    assert (c - q + 1) * l == r - j + l;
    assert (q - c + 1) * l == j - r + l;
    PositiveFactor(c - q + 1, l);
    PositiveFactor(q - c + 1, l);
  }

  /** cycleNumber never decreases along the preview. */
  lemma {:induction false} CycleNumberMonotone(p: ShiftPattern, i: int, j: int)
    requires CycleLength(p) > 0 && 0 <= i <= j
    ensures EntryAt(p, i).cycleNumber <= EntryAt(p, j).cycleNumber
  {
    var l := CycleLength(p);
    var a, b := i / l, j / l;
    assert i == a * l + i % l && j == b * l + j % l;
    assert (b - a + 1) * l == (j - j % l) - (i - i % l) + l;
    PositiveFactor(b - a + 1, l);
  }

  /** The labelling repeats every cycle: row i + cycleLength is row i one cycle and cycleLength days later. */
  lemma {:induction false} Periodic(p: ShiftPattern, i: int)
    requires CycleLength(p) > 0 && 0 <= i
    ensures EntryAt(p, i + CycleLength(p)).isWorkDay == EntryAt(p, i).isWorkDay
    ensures EntryAt(p, i + CycleLength(p)).dayInCycle == EntryAt(p, i).dayInCycle
    ensures EntryAt(p, i + CycleLength(p)).cycleNumber == EntryAt(p, i).cycleNumber + 1
    ensures EntryAt(p, i + CycleLength(p)).date == EntryAt(p, i).date + CycleLength(p)
  {
    var l := CycleLength(p);
    CyclePosition(i / l, l, i % l);
    CyclePosition(i / l + 1, l, i % l);
    assert i + l == (i / l + 1) * l + i % l;
  }

  /** Starting with leave is the start-with-work cycle rotated by workDays positions. */
  lemma {:induction false} StartWithLeaveIsRotation(p: ShiftPattern, j: int)
    requires p.workDays >= 0 && p.leaveDays >= 0 && 0 <= j < CycleLength(p)
    ensures IsWorkPosition(p.(startWithWork := false), j)
            == IsWorkPosition(p.(startWithWork := true), (j + p.workDays) % CycleLength(p))
  {
    var l := CycleLength(p);
    if j < p.leaveDays {
      CyclePosition(0, l, j + p.workDays);
      assert 0 * l + (j + p.workDays) == j + p.workDays;
    } else {
      CyclePosition(1, l, j - p.leaveDays);
      assert 1 * l + (j - p.leaveDays) == j + p.workDays;
    }
  }

  /** Number of work positions among the first n positions of a cycle. */
  function WorkPositions(p: ShiftPattern, n: nat): nat {
    if n == 0 then 0 else WorkPositions(p, n - 1) + (if IsWorkPosition(p, n - 1) then 1 else 0)
  }

  lemma {:induction false} WorkPositionsClosed(p: ShiftPattern, n: nat)
    ensures WorkPositions(p, n) == if p.startWithWork then Max(0, Min(n, p.workDays))
                                   else Max(0, n - Max(0, p.leaveDays))
  {
    if n > 0 {
      WorkPositionsClosed(p, n - 1);
    }
  }

  function CountWork(s: seq<PreviewEntry>): (n: nat)
    ensures n <= |s|
  {
    if s == [] then 0 else CountWork(s[..|s| - 1]) + (if s[|s| - 1].isWorkDay then 1 else 0)
  }

  function CountLeave(s: seq<PreviewEntry>): (n: nat)
    ensures n <= |s|
  {
    if s == [] then 0 else CountLeave(s[..|s| - 1]) + (if s[|s| - 1].isWorkDay then 0 else 1)
  }

  /** The two counts of a month block: every row is exactly one of work and leave. */
  lemma {:induction false} WorkLeavePartition(s: seq<PreviewEntry>)
    ensures CountWork(s) + CountLeave(s) == |s|
  {
    if s != [] {
      WorkLeavePartition(s[..|s| - 1]);
    }
  }

  lemma {:induction false} CycleBlockCount(p: ShiftPattern, results: seq<PreviewEntry>, c: int, n: nat)
    requires CycleLength(p) > 0 && 0 <= c && n <= CycleLength(p)
    requires c * CycleLength(p) + n <= |results|
    requires forall i :: 0 <= i < |results| ==> results[i] == EntryAt(p, i)
    ensures c * CycleLength(p) >= 0
    ensures CountWork(results[c * CycleLength(p)..c * CycleLength(p) + n]) == WorkPositions(p, n)
  {
    var l := CycleLength(p);
    assert c * l >= 0;
    if n > 0 {
      CycleBlockCount(p, results, c, n - 1);
      var block := results[c * l..c * l + n];
      assert block[..n - 1] == results[c * l..c * l + n - 1];
      CyclePosition(c, l, n - 1);
      assert block[n - 1] == EntryAt(p, c * l + n - 1);
    }
  }

  /** Every complete cycle inside the preview has exactly workDays work rows and leaveDays leave rows. */
  lemma {:induction false} CompleteCycleCounts(p: ShiftPattern, results: seq<PreviewEntry>, c: int)
    requires p.workDays >= 0 && p.leaveDays >= 0 && CycleLength(p) > 0
    requires |results| == PreviewDays
    requires forall i :: 0 <= i < |results| ==> results[i] == EntryAt(p, i)
    requires 0 <= c && (c + 1) * CycleLength(p) <= PreviewDays
    ensures 0 <= c * CycleLength(p)
    ensures CountWork(results[c * CycleLength(p)..(c + 1) * CycleLength(p)]) == p.workDays
    ensures CountLeave(results[c * CycleLength(p)..(c + 1) * CycleLength(p)]) == p.leaveDays
  {
    var l := CycleLength(p);
    assert (c + 1) * l == c * l + l;
    CycleBlockCount(p, results, c, l);
    WorkPositionsClosed(p, l);
    WorkLeavePartition(results[c * l..(c + 1) * l]);
  }

  // ----- grouping by month ------------------------------------------------------------

  /** A month group's key: getFullYear() and getMonth() of the row's date. */
  datatype MonthKey = MonthKey(year: int, month: int)

  function KeyOf(e: PreviewEntry): MonthKey {
    MonthKey(GetFullYear(e.date), GetMonth(e.date))
  }

  /** The rows of s in month k, in their order in s. */
  function EntriesOf(s: seq<PreviewEntry>, k: MonthKey): seq<PreviewEntry>
  {
    if s == [] then []
    else EntriesOf(s[..|s| - 1], k) + (if KeyOf(s[|s| - 1]) == k then [s[|s| - 1]] else [])
  }

  /** The months of s in order of first appearance (the insertion order Object.entries keeps). */
  function KeyOrder(s: seq<PreviewEntry>): seq<MonthKey>
  {
    if s == [] then []
    else
      var prefix := KeyOrder(s[..|s| - 1]);
      if KeyOf(s[|s| - 1]) in prefix then prefix else prefix + [KeyOf(s[|s| - 1])]
  }

  /** A group holds exactly the rows of its month, in their order in the preview. */
  lemma {:induction false} EntriesOfMembers(s: seq<PreviewEntry>, k: MonthKey)
    ensures |EntriesOf(s, k)| <= |s|
    ensures forall e :: e in EntriesOf(s, k) <==> e in s && KeyOf(e) == k
  {
    if s != [] {
      EntriesOfMembers(s[..|s| - 1], k);
      assert s == s[..|s| - 1] + [s[|s| - 1]];
    }
  }

  /** The group keys are the months that occur, each listed once. */
  lemma {:induction false} KeyOrderMembers(s: seq<PreviewEntry>)
    ensures forall k :: k in KeyOrder(s) <==> exists i :: 0 <= i < |s| && KeyOf(s[i]) == k
    ensures forall a, b :: 0 <= a < b < |KeyOrder(s)| ==> KeyOrder(s)[a] != KeyOrder(s)[b]
  {
    KeyOrderIsDedup(s);
    DedupFacts(Keys(s));
  }

  /** The month of every row, in order. */
  function Keys(s: seq<PreviewEntry>): (ks: seq<MonthKey>)
    ensures |ks| == |s|
    ensures forall i :: 0 <= i < |s| ==> ks[i] == KeyOf(s[i])
  {
    seq(|s|, i requires 0 <= i < |s| => KeyOf(s[i]))
  }

  /** The distinct elements of ks in order of first appearance. */
  function Dedup(ks: seq<MonthKey>): seq<MonthKey> {
    if ks == [] then []
    else
      var prefix := Dedup(ks[..|ks| - 1]);
      if ks[|ks| - 1] in prefix then prefix else prefix + [ks[|ks| - 1]]
  }

  lemma {:induction false} KeyOrderIsDedup(s: seq<PreviewEntry>)
    ensures KeyOrder(s) == Dedup(Keys(s))
  {
    if s != [] {
      KeyOrderIsDedup(s[..|s| - 1]);
      assert Keys(s)[..|s| - 1] == Keys(s[..|s| - 1]);
    }
  }

  lemma {:induction false} DedupFacts(ks: seq<MonthKey>)
    ensures forall k :: k in Dedup(ks) <==> k in ks
    ensures forall a, b :: 0 <= a < b < |Dedup(ks)| ==> Dedup(ks)[a] != Dedup(ks)[b]
  {
    if ks != [] {
      DedupFacts(ks[..|ks| - 1]);
      assert ks == ks[..|ks| - 1] + [ks[|ks| - 1]];
    }
  }

  /** A month that does not occur has no rows. */
  lemma {:induction false} EntriesOfAbsent(s: seq<PreviewEntry>, k: MonthKey)
    requires k !in KeyOrder(s)
    ensures EntriesOf(s, k) == []
  {
    if s != [] {
      EntriesOfAbsent(s[..|s| - 1], k);
    }
  }

  /** Appending a row extends its own month's group and no other. */
  lemma {:induction false} EntriesOfAppend(s: seq<PreviewEntry>, x: PreviewEntry, k: MonthKey)
    ensures EntriesOf(s + [x], k) == if KeyOf(x) == k then EntriesOf(s, k) + [x] else EntriesOf(s, k)
  {
    assert (s + [x])[..|s|] == s;
  }

  lemma {:induction false} PrefixStep(s: seq<PreviewEntry>, i: int)
    requires 0 <= i < |s|
    ensures s[..i + 1] == s[..i] + [s[i]]
  {
  }

  /** The grouping loop over the preview rows, building the `monthGroups` dictionary. */
  method GroupByMonth(results: seq<PreviewEntry>) returns (keys: seq<MonthKey>, groups: map<MonthKey, seq<PreviewEntry>>)
    ensures keys == KeyOrder(results)
    ensures forall k :: k in groups <==> k in keys
    ensures forall k :: k in groups ==> groups[k] == EntriesOf(results, k)
  {
    keys := [];
    groups := map[];
    for i := 0 to |results|
      invariant keys == KeyOrder(results[..i])
      invariant forall k :: k in groups <==> k in keys
      invariant forall k :: k in groups ==> groups[k] == EntriesOf(results[..i], k)
    {
      var result := results[i];
      var monthKey := KeyOf(result);
      PrefixStep(results, i);
      if monthKey !in groups {
        EntriesOfAbsent(results[..i], monthKey);
        groups := groups[monthKey := []];
        keys := keys + [monthKey];
      }
      groups := groups[monthKey := groups[monthKey] + [result]];
      forall k | k in groups
        ensures groups[k] == EntriesOf(results[..i + 1], k)
      {
        EntriesOfAppend(results[..i], result, k);
      }
    }
    assert results[..|results|] == results;
  }

  /** Sum of the group sizes over a list of keys. */
  function GroupSizes(keys: seq<MonthKey>, s: seq<PreviewEntry>): nat {
    if keys == [] then 0 else GroupSizes(keys[..|keys| - 1], s) + |EntriesOf(s, keys[|keys| - 1])|
  }

  lemma {:induction false} GroupSizesStep(keys: seq<MonthKey>, s: seq<PreviewEntry>, e: PreviewEntry)
    requires forall a, b :: 0 <= a < b < |keys| ==> keys[a] != keys[b]
    ensures GroupSizes(keys, s + [e]) == GroupSizes(keys, s) + (if KeyOf(e) in keys then 1 else 0)
  {
    assert (s + [e])[..|s + [e]| - 1] == s;
    if keys != [] {
      var init := keys[..|keys| - 1];
      GroupSizesStep(init, s, e);
      assert KeyOf(e) in keys <==> KeyOf(e) in init || KeyOf(e) == keys[|keys| - 1];
      if KeyOf(e) == keys[|keys| - 1] {
        assert KeyOf(e) !in init;
      }
    }
  }

  lemma {:induction false} GroupSizesAppendKey(keys: seq<MonthKey>, k: MonthKey, s: seq<PreviewEntry>)
    ensures GroupSizes(keys + [k], s) == GroupSizes(keys, s) + |EntriesOf(s, k)|
  {
    assert (keys + [k])[..|keys + [k]| - 1] == keys;
  }

  /** The groups partition the preview: each row lies in exactly one group, so the sizes add up. */
  lemma {:induction false} GroupsPartition(s: seq<PreviewEntry>)
    ensures GroupSizes(KeyOrder(s), s) == |s|
    decreases |s|
  {
    if s != [] {
      var init := s[..|s| - 1];
      var e := s[|s| - 1];
      assert s == init + [e];
      GroupsPartition(init);
      var keys := KeyOrder(init);
      KeyOrderMembers(init);
      GroupSizesStep(keys, init, e);
      if KeyOf(e) !in keys {
        assert KeyOrder(s) == keys + [KeyOf(e)];
        GroupSizesAppendKey(keys, KeyOf(e), s);
        EntriesOfAbsent(init, KeyOf(e));
        EntriesOfAppend(init, e, KeyOf(e));
      }
    }
  }

  // ----- the month grid of a group --------------------------------------------------

  /** `monthResults.find(...)`: the first row whose date has civil date c. */
  function FindResult(s: seq<PreviewEntry>, c: Civil): Option<PreviewEntry>
  {
    if s == [] then None
    else
      var r := FindResult(s[..|s| - 1], c);
      if r.Some? then r
      else if ToCivil(s[|s| - 1].date) == c then Some(s[|s| - 1])
      else None
  }

  /** The grid of one month group: each cell carries the group's row for that day, if any. */
  method MonthCalendar(key: MonthKey, monthResults: seq<PreviewEntry>, today: int)
    returns (days: seq<Option<MonthGrid.Cell<Option<PreviewEntry>>>>)
    requires 0 <= key.month < 12
    ensures MonthGrid.IsMonthGrid(days, key.year, key.month, today, (d: int) => FindResult(monthResults, ToCivil(d)))
  {
    days := MonthGrid.Build(key.year, key.month, today, (d: int) => FindResult(monthResults, ToCivil(d)));
  }

  /** Filtering to a group does not change which row a day of that group's month finds. */
  lemma {:induction false} FindInGroup(s: seq<PreviewEntry>, c: Civil)
    ensures FindResult(EntriesOf(s, MonthKey(c.year, c.month)), c) == FindResult(s, c)
  {
    if s != [] {
      var init := s[..|s| - 1];
      var x := s[|s| - 1];
      var k := MonthKey(c.year, c.month);
      FindInGroup(init, c);
      var g := EntriesOf(init, k);
      if KeyOf(x) == k {
        assert EntriesOf(s, k) == g + [x];
        assert (g + [x])[..|g|] == g;
      } else {
        assert EntriesOf(s, k) == g + [] == g;
        assert ToCivil(x.date) != c;
      }
    }
  }

  /** A day has civil date c exactly when it is the day c names. */
  lemma {:induction false} ToCivilIs(a: int, c: Civil)
    requires ValidCivil(c)
    ensures ToCivil(a) == c <==> a == MakeDay(c.year, c.month, c.day)
  {
    CivilRoundTrip(c);
  }

  /** In consecutive-day rows from base, the row found for civil date c (day number date) is row date - base when it exists. */
  lemma {:induction false} FindInConsecutive(s: seq<PreviewEntry>, base: int, c: Civil, date: int)
    requires ValidCivil(c) && MakeDay(c.year, c.month, c.day) == date
    requires forall i :: 0 <= i < |s| ==> s[i].date == base + i
    ensures FindResult(s, c) == if base <= date < base + |s| then Some(s[date - base]) else None
  {
    if s != [] {
      var init := s[..|s| - 1];
      var last := s[|s| - 1];
      FindInConsecutive(init, base, c, date);
      ToCivilIs(last.date, c);
      assert last.date == base + |s| - 1;
    }
  }

  /** The preview's rows are dated on consecutive days from the adjusted start. */
  lemma {:induction false} PreviewDatesConsecutive(p: ShiftPattern, results: seq<PreviewEntry>)
    requires CycleLength(p) > 0
    requires forall i :: 0 <= i < |results| ==> results[i] == EntryAt(p, i)
    ensures forall i :: 0 <= i < |results| ==> results[i].date == p.startDate + p.offset + i
  {
  }

  /** In the group of civil date c's month, c (day number date) finds the row dated that day, if there is one. */
  lemma {:induction false} GroupLookup(results: seq<PreviewEntry>, base: int, c: Civil, date: int)
    requires ValidCivil(c) && MakeDay(c.year, c.month, c.day) == date
    requires forall i :: 0 <= i < |results| ==> results[i].date == base + i
    ensures var i := date - base;
            FindResult(EntriesOf(results, MonthKey(c.year, c.month)), c)
              == if 0 <= i < |results| then Some(results[i]) else None
  {
    FindInGroup(results, c);
    FindInConsecutive(results, base, c, date);
  }

  /** In the group of a day's month, the day finds the row dated that day, if there is one. */
  lemma {:induction false} GridCellLookup(results: seq<PreviewEntry>, base: int, date: int)
    requires forall i :: 0 <= i < |results| ==> results[i].date == base + i
    ensures var i := date - base;
            FindResult(EntriesOf(results, MonthKey(GetFullYear(date), GetMonth(date))), ToCivil(date))
              == if 0 <= i < |results| then Some(results[i]) else None
  {
    GroupLookup(results, base, ToCivil(date), date);
  }

  /**
   * Any day's cell in the month grid of that day's group shows the preview row for
   * that day, and an empty cell (no row) outside the 60 days.
   */
  lemma {:induction false} GridCellShowsEntry(p: ShiftPattern, results: seq<PreviewEntry>, date: int)
    requires CycleLength(p) > 0
    requires |results| == PreviewDays
    requires forall i :: 0 <= i < |results| ==> results[i] == EntryAt(p, i)
    ensures var i := date - (p.startDate + p.offset);
            FindResult(EntriesOf(results, MonthKey(GetFullYear(date), GetMonth(date))), ToCivil(date))
              == if 0 <= i < PreviewDays then Some(EntryAt(p, i)) else None
  {
    var base := p.startDate + p.offset;
    PreviewDatesConsecutive(p, results);
    GridCellLookup(results, base, date);
    if 0 <= date - base < PreviewDays {
      assert results[date - base] == EntryAt(p, date - base);
    }
  }
}
