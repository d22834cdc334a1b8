/**
 * The notes page: the stored list of notes, the add/edit form and its three
 * save handlers (the form submit handler, the simple-note modal and the
 * reminder modal), delete, toggle-complete, the edit-form derivation, the
 * display order and the three counters.
 *
 * Timestamps (`createdAt`, a reminder's instant) are milliseconds since the
 * epoch. The reminder form's date and time inputs are a day number and a
 * minute of the day; None is the empty input string. The fresh id
 * (`Date.now().toString()`) and the current time are parameters.
 */
module Notes {
  import opened AppData
  import opened JsText
  import JsDate

  datatype Priority = Low | Medium | High

  datatype Reminder = Reminder(date: int, enabled: bool)

  datatype Note = Note(
    id: string,
    title: string,
    content: string,
    createdAt: int,
    reminder: Option<Reminder>,
    priority: Priority,
    completed: bool)

  /** `formData`. */
  datatype Form = Form(
    title: string,
    content: string,
    priority: Priority,
    reminderDate: Option<int>,
    reminderTime: Option<int>,
    reminderEnabled: bool)

  /** The page's state: the stored notes and the form. */
  datatype Page = Page(
    notes: seq<Note>,
    form: Form,
    editing: Option<Note>,
    showAddForm: bool,
    showReminderForm: bool)

  /** A call `scheduleNotification(title, body, date)`. */
  datatype Schedule = Schedule(title: string, body: string, at: int)

  /** What a save handler leaves behind: the new page state and the notification it schedules, if any. */
  datatype Saved = Saved(page: Page, schedule: Option<Schedule>)

  const MsPerMinute: int := 60000

  /** Body of the notification when the note has no content ("reminder of the task"). */
  const DefaultBody: string := "تذكير بالمهمة"

  /** The form `resetForm` and the two open handlers start from. */
  function EmptyForm(reminderEnabled: bool): Form {
    Form("", "", Medium, None, None, reminderEnabled)
  }

  /** `resetForm()`: empty form, both modals closed, not editing. */
  function ResetForm(p: Page): Page {
    p.(form := EmptyForm(false), showAddForm := false, showReminderForm := false, editing := None)
  }

  /** `openSimpleNoteForm()`. */
  function OpenSimpleNoteForm(p: Page): Page {
    p.(form := EmptyForm(false), showAddForm := true)
  }

  /** `openReminderNoteForm()`. */
  function OpenReminderNoteForm(p: Page): Page {
    p.(form := EmptyForm(true), showReminderForm := true)
  }

  /** `new Date(`${date}T${time}`)`: the instant of a day and a minute of that day. */
  function ReminderInstant(day: int, minute: int): int {
    day * JsDate.MsPerDay + minute * MsPerMinute
  }

  /**
   * The `noteData` record every save handler builds: the edited note's id,
   * creation time and completion, or a fresh id, now and not completed.
   */
  function NoteData(p: Page, freshId: string, now: int, reminder: Option<Reminder>): Note {
    var e := p.editing;
    Note(
      if e.Some? && e.value.id != "" then e.value.id else freshId,
      p.form.title,
      p.form.content,
      if e.Some? then e.value.createdAt else now,
      reminder,
      p.form.priority,
      e.Some? && e.value.completed)
  }

  /** Replace every note with the edited note's id, or append when adding. */
  function Store(notes: seq<Note>, editing: Option<Note>, n: Note): seq<Note> {
    if editing.Some? then ReplaceId(notes, editing.value.id, n) else notes + [n]
  }

  /** `notes.map(note => note.id === id ? n : note)`. */
  function ReplaceId(notes: seq<Note>, id: string, n: Note): (r: seq<Note>)
    ensures |r| == |notes|
    ensures forall i :: 0 <= i < |notes| ==> r[i] == if notes[i].id == id then n else notes[i]
  {
    if notes == [] then []
    else [if notes[0].id == id then n else notes[0]] + ReplaceId(notes[1..], id, n)
  }

  /** `noteData.content || 'تذكير بالمهمة'`. */
  function BodyOf(n: Note): string {
    if n.content != "" then n.content else DefaultBody
  }

  /** The reminder the submit handler attaches: only when enabled with both date and time. */
  function SubmittedReminder(f: Form): Option<Reminder> {
    if f.reminderEnabled && f.reminderDate.Some? && f.reminderTime.Some? then
      Some(Reminder(ReminderInstant(f.reminderDate.value, f.reminderTime.value), true))
    else None
  }

  /**
   * `handleSubmit`: a blank title changes nothing. Otherwise the note built from the form
   * is added or replaces the edited note, the form is reset, and a notification for the
   * reminder instant is scheduled exactly when a reminder was enabled with date and time.
   */
  function HandleSubmit(p: Page, freshId: string, now: int): (r: Saved)
    ensures IsBlank(p.form.title) ==> r == Saved(p, None)
    ensures !IsBlank(p.form.title) ==>
              r.page == ResetForm(p).(notes := Store(p.notes, p.editing, NoteData(p, freshId, now, SubmittedReminder(p.form))))
    ensures r.schedule.Some? <==>
              !IsBlank(p.form.title) && p.form.reminderEnabled && p.form.reminderDate.Some? && p.form.reminderTime.Some?
    ensures r.schedule.Some? ==>
              r.schedule.value == Schedule(p.form.title, if p.form.content != "" then p.form.content else DefaultBody,
                                           ReminderInstant(p.form.reminderDate.value, p.form.reminderTime.value))
  {
    TrimEmptyIffBlank(p.form.title);
    if Trim(p.form.title) == "" then Saved(p, None)
    else
      var noteData := NoteData(p, freshId, now, SubmittedReminder(p.form));
      var notes := Store(p.notes, p.editing, noteData);
      var schedule :=
        if noteData.reminder.Some? && noteData.reminder.value.enabled
        then Some(Schedule(noteData.title, BodyOf(noteData), noteData.reminder.value.date))
        else None;
      Saved(ResetForm(p).(notes := notes), schedule)
  }

  /**
   * The simple-note modal's save button: like the submit handler, but the note it stores
   * has no reminder (an edited note loses its reminder) and nothing is scheduled.
   */
  function SaveSimpleNote(p: Page, freshId: string, now: int): (r: Saved)
    ensures IsBlank(p.form.title) ==> r == Saved(p, None)
    ensures !IsBlank(p.form.title) ==>
              r.page == ResetForm(p).(notes := Store(p.notes, p.editing, NoteData(p, freshId, now, None)))
    ensures r.schedule == None
  {
    TrimEmptyIffBlank(p.form.title);
    if Trim(p.form.title) == "" then Saved(p, None)
    else
      var noteData := NoteData(p, freshId, now, None);
      Saved(ResetForm(p).(notes := Store(p.notes, p.editing, noteData)), None)
  }

  /**
   * The reminder modal's save button: needs title, date and time. The note it stores
   * always carries an enabled reminder at that instant, and a notification for that
   * instant is scheduled.
   */
  function SaveReminderNote(p: Page, freshId: string, now: int): (r: Saved)
    ensures IsBlank(p.form.title) || p.form.reminderDate.None? || p.form.reminderTime.None? ==> r == Saved(p, None)
    ensures r.schedule.Some? <==> !IsBlank(p.form.title) && p.form.reminderDate.Some? && p.form.reminderTime.Some?
    ensures r.schedule.Some? ==>
              var at := ReminderInstant(p.form.reminderDate.value, p.form.reminderTime.value);
              && r.page == ResetForm(p).(notes := Store(p.notes, p.editing, NoteData(p, freshId, now, Some(Reminder(at, true)))))
              && r.schedule.value == Schedule(p.form.title, if p.form.content != "" then p.form.content else DefaultBody, at)
  {
    TrimEmptyIffBlank(p.form.title);
    if Trim(p.form.title) == "" || p.form.reminderDate.None? || p.form.reminderTime.None? then Saved(p, None)
    else
      var at := ReminderInstant(p.form.reminderDate.value, p.form.reminderTime.value);
      var noteData := NoteData(p, freshId, now, Some(Reminder(at, true)));
      Saved(ResetForm(p).(notes := Store(p.notes, p.editing, noteData)),
            Some(Schedule(noteData.title, BodyOf(noteData), at)))
  }

  /** The note a save stored: the last one when adding. */
  lemma {:induction false} AddAppends(p: Page, freshId: string, now: int, reminder: Option<Reminder>)
    requires p.editing.None?
    ensures var n := NoteData(p, freshId, now, reminder);
            && Store(p.notes, p.editing, n) == p.notes + [n]
            && n.id == freshId && n.createdAt == now && !n.completed
            && n.title == p.form.title && n.content == p.form.content && n.priority == p.form.priority
  {
  }

  /**
   * Editing replaces exactly the notes with the edited note's id, by a note that keeps
   * that id, its creation time and its completion; all other notes are unchanged.
   */
  lemma {:induction false} EditReplacesOnlyMatching(p: Page, freshId: string, now: int, reminder: Option<Reminder>, i: int)
    requires p.editing.Some? && p.editing.value.id != ""
    requires 0 <= i < |p.notes|
    ensures var r := Store(p.notes, p.editing, NoteData(p, freshId, now, reminder));
            && |r| == |p.notes|
            && (p.notes[i].id != p.editing.value.id ==> r[i] == p.notes[i])
            && (p.notes[i].id == p.editing.value.id ==>
                  r[i].id == p.notes[i].id && r[i].createdAt == p.editing.value.createdAt
                  && r[i].completed == p.editing.value.completed && r[i].title == p.form.title)
  {
  }

  /**
   * Position i holds the note a save stores: the appended position when adding, or
   * a position holding the edited note's id when editing.
   */
  predicate SavedAt(p: Page, i: int) {
    if p.editing.None? then i == |p.notes|
    else 0 <= i < |p.notes| && p.notes[i].id == p.editing.value.id
  }

  /**
   * Reminder rules, for adding and editing alike: the submit handler stores an enabled
   * reminder at the form's instant exactly when the form enables one and has both inputs;
   * the reminder modal always stores one; the simple modal stores none, so saving an
   * edited reminder note there drops its reminder.
   */
  lemma {:induction false} ReminderRules(p: Page, freshId: string, now: int, i: int)
    requires !IsBlank(p.form.title) && SavedAt(p, i)
    ensures var notes := HandleSubmit(p, freshId, now).page.notes;
            && i < |notes|
            && (notes[i].reminder.Some? <==> p.form.reminderEnabled && p.form.reminderDate.Some? && p.form.reminderTime.Some?)
            && (notes[i].reminder.Some? ==>
                  notes[i].reminder.value == Reminder(ReminderInstant(p.form.reminderDate.value, p.form.reminderTime.value), true))
    ensures var notes := SaveSimpleNote(p, freshId, now).page.notes;
            i < |notes| && notes[i].reminder == None
    ensures p.form.reminderDate.Some? && p.form.reminderTime.Some? ==>
              var notes := SaveReminderNote(p, freshId, now).page.notes;
              && i < |notes|
              && notes[i].reminder == Some(Reminder(ReminderInstant(p.form.reminderDate.value, p.form.reminderTime.value), true))
  {
    TrimEmptyIffBlank(p.form.title);
  }

  // ----- delete and toggle ----------------------------------------------------------

  /** `deleteNote(id)`: `notes.filter(note => note.id !== id)`. */
  function DeleteNote(notes: seq<Note>, id: string): seq<Note> {
    if notes == [] then []
    else (if notes[0].id != id then [notes[0]] else []) + DeleteNote(notes[1..], id)
  }

  /** Notes with id, counted. */
  function CountId(notes: seq<Note>, id: string): nat {
    if notes == [] then 0 else (if notes[0].id == id then 1 else 0) + CountId(notes[1..], id)
  }

  /** Delete drops exactly the notes with that id: every other note is kept, with its multiplicity. */
  lemma {:induction false} DeleteFacts(notes: seq<Note>, id: string)
    ensures |DeleteNote(notes, id)| == |notes| - CountId(notes, id)
    ensures forall n: Note :: n in DeleteNote(notes, id) <==> n in notes && n.id != id
    ensures forall n: Note :: n.id != id ==> multiset(DeleteNote(notes, id))[n] == multiset(notes)[n]
  {
    if notes != [] {
      DeleteFacts(notes[1..], id);
      assert notes == [notes[0]] + notes[1..];
    }
  }

  /** Delete keeps the relative order: what survives is the list with those notes skipped. */
  lemma {:induction false} DeleteKeepsOrder(a: seq<Note>, b: seq<Note>, id: string)
    ensures DeleteNote(a + b, id) == DeleteNote(a, id) + DeleteNote(b, id)
  {
    if a != [] {
      DeleteKeepsOrder(a[1..], b, id);
      assert (a + b)[1..] == a[1..] + b;
    } else {
      assert a + b == b;
    }
  }

  /** `toggleComplete(id)`. */
  function ToggleComplete(notes: seq<Note>, id: string): (r: seq<Note>)
    ensures |r| == |notes|
    ensures forall i :: 0 <= i < |notes| ==>
              r[i] == if notes[i].id == id then notes[i].(completed := !notes[i].completed) else notes[i]
  {
    if notes == [] then []
    else [if notes[0].id == id then notes[0].(completed := !notes[0].completed) else notes[0]]
         + ToggleComplete(notes[1..], id)
  }

  /** Toggling the same id twice restores the list. */
  lemma {:induction false} ToggleTwice(notes: seq<Note>, id: string)
    ensures ToggleComplete(ToggleComplete(notes, id), id) == notes
  {
    var r := ToggleComplete(ToggleComplete(notes, id), id);
    assert forall i :: 0 <= i < |notes| ==> r[i] == notes[i];
  }

  // ----- counters --------------------------------------------------------------------

  /** `notes.filter(n => n.completed).length`. */
  function CompletedCount(notes: seq<Note>): nat {
    if notes == [] then 0 else (if notes[0].completed then 1 else 0) + CompletedCount(notes[1..])
  }

  /** `notes.filter(n => !n.completed).length`. */
  function PendingCount(notes: seq<Note>): nat {
    if notes == [] then 0 else (if notes[0].completed then 0 else 1) + PendingCount(notes[1..])
  }

  /** Completed and pending notes add up to the total. */
  lemma {:induction false} CountsPartition(notes: seq<Note>)
    ensures CompletedCount(notes) + PendingCount(notes) == |notes|
  {
    if notes != [] {
      CountsPartition(notes[1..]);
    }
  }

  // ----- the display order -------------------------------------------------------------

  /** The sort comparator: incomplete before completed, then newer `createdAt` first. */
  function Compare(a: Note, b: Note): int {
    if a.completed != b.completed then (if a.completed then 1 else -1)
    else b.createdAt - a.createdAt
  }

  predicate Sorted(s: seq<Note>) {
    forall i, j :: 0 <= i < j < |s| ==> Compare(s[i], s[j]) <= 0
  }

  function Insert(x: Note, s: seq<Note>): seq<Note> {
    if s == [] then [x]
    else if Compare(x, s[0]) <= 0 then [x] + s
    else [s[0]] + Insert(x, s[1..])
  }

  /** `sortedNotes`: the notes in comparator order (an insertion sort stands for Array.prototype.sort). */
  function SortNotes(notes: seq<Note>): seq<Note> {
    if notes == [] then [] else Insert(notes[0], SortNotes(notes[1..]))
  }

  lemma {:induction false} CompareTransitive(a: Note, b: Note, c: Note)
    requires Compare(a, b) <= 0 && Compare(b, c) <= 0
    ensures Compare(a, c) <= 0
  {
  }

  lemma {:induction false} InsertPermutes(x: Note, s: seq<Note>)
    ensures multiset(Insert(x, s)) == multiset(s) + multiset{x}
  {
    if s != [] && Compare(x, s[0]) > 0 {
      InsertPermutes(x, s[1..]);
      assert s == [s[0]] + s[1..];
    }
  }

  /** A note that precedes x and everything in s precedes everything in Insert(x, s). */
  lemma {:induction false} InsertBound(y: Note, x: Note, s: seq<Note>)
    requires Compare(y, x) <= 0
    requires forall j :: 0 <= j < |s| ==> Compare(y, s[j]) <= 0
    ensures forall j :: 0 <= j < |Insert(x, s)| ==> Compare(y, Insert(x, s)[j]) <= 0
  {
    if s != [] && Compare(x, s[0]) > 0 {
      InsertBound(y, x, s[1..]);
    }
  }

  lemma {:induction false} InsertSorted(x: Note, s: seq<Note>)
    requires Sorted(s)
    ensures Sorted(Insert(x, s))
  {
    if s != [] {
      if Compare(x, s[0]) <= 0 {
        forall j | 0 <= j < |s| ensures Compare(x, s[j]) <= 0 {
          if j > 0 { CompareTransitive(x, s[0], s[j]); }
        }
      } else {
        var rest := Insert(x, s[1..]);
        InsertSorted(x, s[1..]);
        InsertBound(s[0], x, s[1..]);
        var r := [s[0]] + rest;
        forall i, j | 0 <= i < j < |r| ensures Compare(r[i], r[j]) <= 0 {
          if i > 0 { assert r[i] == rest[i - 1] && r[j] == rest[j - 1]; }
        }
      }
    }
  }

  lemma {:induction false} InsertCount(x: Note, s: seq<Note>)
    ensures CompletedCount(Insert(x, s)) == CompletedCount(s) + (if x.completed then 1 else 0)
  {
    if s != [] && Compare(x, s[0]) > 0 {
      InsertCount(x, s[1..]);
    }
  }

  /** Sorting for display changes neither counter. */
  lemma {:induction false} SortKeepsCounts(notes: seq<Note>)
    ensures CompletedCount(SortNotes(notes)) == CompletedCount(notes)
    ensures PendingCount(SortNotes(notes)) == PendingCount(notes)
  {
    if notes != [] {
      SortKeepsCounts(notes[1..]);
      InsertCount(notes[0], SortNotes(notes[1..]));
    }
    SortNotesFacts(notes);
    CountsPartition(notes);
    CountsPartition(SortNotes(notes));
    assert |SortNotes(notes)| == |multiset(SortNotes(notes))| == |notes|;
  }

  /** The display order is a permutation of the notes, incomplete ones first and newest first within each group. */
  lemma {:induction false} SortNotesFacts(notes: seq<Note>)
    ensures multiset(SortNotes(notes)) == multiset(notes)
    ensures Sorted(SortNotes(notes))
  {
    if notes != [] {
      SortNotesFacts(notes[1..]);
      InsertPermutes(notes[0], SortNotes(notes[1..]));
      InsertSorted(notes[0], SortNotes(notes[1..]));
      assert notes == [notes[0]] + notes[1..];
    }
  }

  /** Two notes the comparator cannot tell apart: same status and same creation time. */
  predicate Tied(a: Note, b: Note) {
    a.completed == b.completed && a.createdAt == b.createdAt
  }

  /** The notes of s tied with a, in their order in s. */
  function TiedWith(s: seq<Note>, a: Note): seq<Note> {
    if s == [] then []
    else (if Tied(s[0], a) then [s[0]] else []) + TiedWith(s[1..], a)
  }

  /** Inserting never moves x past a note it is tied with. */
  lemma {:induction false} InsertTied(x: Note, s: seq<Note>, a: Note)
    ensures TiedWith(Insert(x, s), a) == (if Tied(x, a) then [x] else []) + TiedWith(s, a)
  {
    if s != [] {
      if Compare(x, s[0]) <= 0 {
        assert ([x] + s)[1..] == s;
      } else {
        InsertTied(x, s[1..], a);
        assert ([s[0]] + Insert(x, s[1..]))[1..] == Insert(x, s[1..]);
        assert !(Tied(x, a) && Tied(s[0], a));
      }
    }
  }

  /** The display sort is stable: notes that compare equal keep their stored order. */
  lemma {:induction false} SortStable(notes: seq<Note>, a: Note)
    ensures TiedWith(SortNotes(notes), a) == TiedWith(notes, a)
  {
    if notes != [] {
      SortStable(notes[1..], a);
      InsertTied(notes[0], SortNotes(notes[1..]), a);
    }
  }

  /** In the display order no completed note comes before an incomplete one, and same-status notes are newest first. */
  lemma {:induction false} DisplayOrder(notes: seq<Note>, i: int, j: int)
    requires 0 <= i < j < |SortNotes(notes)|
    ensures SortNotes(notes)[i].completed ==> SortNotes(notes)[j].completed
    ensures SortNotes(notes)[i].completed == SortNotes(notes)[j].completed ==>
              SortNotes(notes)[i].createdAt >= SortNotes(notes)[j].createdAt
  {
    SortNotesFacts(notes);
  }

  // ----- editing --------------------------------------------------------------------------

  /**
   * `editNote(note)`: the form is filled from the note (date as its day, time as its
   * minute of the day, seconds dropped), and the reminder modal opens when the note's
   * reminder is enabled, the simple modal otherwise.
   */
  function EditNote(p: Page, n: Note): Page {
    var hasReminder := n.reminder.Some?;
    var at := if hasReminder then n.reminder.value.date else 0;
    var form := Form(
      n.title, n.content, n.priority,
      if hasReminder then Some(at / JsDate.MsPerDay) else None,
      if hasReminder then Some((at % JsDate.MsPerDay) / MsPerMinute) else None,
      hasReminder && n.reminder.value.enabled);
    var reminderForm := hasReminder && n.reminder.value.enabled;
    p.(editing := Some(n), form := form,
       showReminderForm := if reminderForm then true else p.showReminderForm,
       showAddForm := if reminderForm then p.showAddForm else true)
  }

  /**
   * Opening a stored note for editing and saving it unchanged through the modal that
   * opens gives back the same note: a note with an enabled reminder on a whole minute
   * through the reminder modal; a note without a reminder through the simple modal.
   */
  lemma {:induction false} EditSaveRoundTrip(p: Page, n: Note, freshId: string, now: int)
    requires n.id != "" && !IsBlank(n.title)
    requires n.reminder.None? || (n.reminder.value.enabled && n.reminder.value.date % MsPerMinute == 0)
    ensures n.reminder.Some? ==> EditNote(p, n).showReminderForm
    ensures n.reminder.Some? ==>
              NoteData(EditNote(p, n), freshId, now, Some(Reminder(ReminderInstant(
                EditNote(p, n).form.reminderDate.value, EditNote(p, n).form.reminderTime.value), true))) == n
    ensures n.reminder.None? ==> EditNote(p, n).showAddForm && NoteData(EditNote(p, n), freshId, now, None) == n
  {
    if n.reminder.Some? {
      var at := n.reminder.value.date;
      var day, rest := at / JsDate.MsPerDay, at % JsDate.MsPerDay;
      assert at == day * JsDate.MsPerDay + rest;
      var minute := rest / MsPerMinute;
      assert rest == minute * MsPerMinute + rest % MsPerMinute;
      assert rest % MsPerMinute == 0 by {
        assert JsDate.MsPerDay == 1440 * MsPerMinute;
        assert at == (day * 1440 + minute) * MsPerMinute + rest % MsPerMinute;
        MinuteRemainder(at, day * 1440 + minute, rest % MsPerMinute);
      }
      assert ReminderInstant(day, minute) == at;
    }
  }

  /** A value written as q * 60000 + r with 0 <= r < 60000 has remainder r. */
  lemma {:induction false} MinuteRemainder(x: int, q: int, r: int)
    requires 0 <= r < MsPerMinute && x == q * MsPerMinute + r
    ensures x % MsPerMinute == r
  {
  }
}
