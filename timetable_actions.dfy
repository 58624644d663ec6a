/** The timetable editor's server actions: `addTimetableEntry` (upsert on
    teacher, weekday and period, without the week type) and
    `deleteTimetableEntry`. */
module TimetableActions {
  import opened Common
  import opened Domain
  import opened JsString
  import opened Store
  import opened Timetable

  /** The form fields as submitted; `None` is a field the form lacks. */
  datatype EntryForm = EntryForm(
    teacherId: Option<Id>, dayOfWeek: Option<string>, periodId: Option<Id>,
    className: Option<string>, subject: Option<string>)

  datatype ActionResult = Done | Thrown(error: ActionError)

  datatype ActionError =
    | MissingField    // a required field is absent, blank or not a weekday number
    | RecordNotFound  // nothing to delete under the given id
    | AmbiguousKey    // several rows share the (teacher, weekday, period) key

  /** `parseInt(formData.get("dayOfWeek"), 10)`; a missing field parses the
      text "null", which is `NaN`. */
  function FormDay(form: EntryForm): (r: Option<int>)
    ensures form.dayOfWeek.None? ==> r.None?
  {
    if form.dayOfWeek.None? then None else ParseInt10(form.dayOfWeek.value)
  }

  /** `(x as string)?.trim()`, then falsy when missing or empty. */
  predicate BlankField(s: Option<string>)
  {
    s.None? || Trim(s.value) == []
  }

  /** `!teacherId || !dayOfWeek || !periodId || !className || !subject`, on
      the parsed weekday and the trimmed texts: `NaN` and 0 are falsy. */
  predicate RejectedForm(form: EntryForm)
  {
    || form.teacherId.None? || FormDay(form).None? || FormDay(form) == Some(0) || form.periodId.None?
    || BlankField(form.className) || BlankField(form.subject)
  }

  /** Two rows of `entries` share (teacher, weekday, period), as ODD and
      EVEN rows may: the key the action upserts on then names no single row. */
  predicate SharedSlot(entries: seq<TimetableEntry>, teacherId: Id, dayOfWeek: int, periodId: Id)
  {
    exists i, j :: 0 <= i < j < |entries|
      && Matches(entries[i], teacherId, dayOfWeek, periodId, All, false)
      && Matches(entries[j], teacherId, dayOfWeek, periodId, All, false)
  }

  /** `addTimetableEntry`: a rejected form throws and changes nothing; so
      does a key that several rows share. Otherwise the one entry under
      (teacher, weekday, period) gets the trimmed class and subject, or a new
      entry is created with the schema's default week type, ALL. */
  method AddTimetableEntry(db: Database, form: EntryForm) returns (result: ActionResult)
    requires db.Valid()
    modifies db
    ensures db.Valid()
    ensures db.teachers == old(db.teachers) && db.periods == old(db.periods)
    ensures db.sickReports == old(db.sickReports) && db.assignments == old(db.assignments)
    ensures result == Thrown(MissingField) <==> RejectedForm(form)
    ensures result == Thrown(AmbiguousKey) <==>
      !RejectedForm(form) && SharedSlot(old(db.entries), form.teacherId.value, FormDay(form).value, form.periodId.value)
    ensures result == Done || result == Thrown(MissingField) || result == Thrown(AmbiguousKey)
    ensures result.Thrown? ==> db.entries == old(db.entries)
    ensures result == Done ==>
      db.entries == UpsertEntry(old(db.entries), form.teacherId.value, FormDay(form).value, form.periodId.value,
                                All, false, Trim(form.className.value), Trim(form.subject.value), old(db.nextId))
  {
    var dayOfWeek := FormDay(form);
    if RejectedForm(form) {
      return Thrown(MissingField);
    }
    var teacherId, day, periodId := form.teacherId.value, dayOfWeek.value, form.periodId.value;
    if SharedSlot(db.entries, teacherId, day, periodId) {
      return Thrown(AmbiguousKey);
    }
    var className, subject := Trim(form.className.value), Trim(form.subject.value);
    Upsert(db, teacherId, day, periodId, All, false, className, subject);
    return Done;
  }

  /** The table without the entry carrying `id`. */
  function WithoutEntry(entries: seq<TimetableEntry>, id: Id): (r: seq<TimetableEntry>)
    ensures forall i :: 0 <= i < |r| ==> r[i].id != id && r[i] in entries
    ensures forall i :: 0 <= i < |entries| && entries[i].id != id ==> entries[i] in r
    ensures |r| < |entries| <==> exists i :: 0 <= i < |entries| && entries[i].id == id
  {
    var keep := (e: TimetableEntry) => e.id != id;
    var r := Filter(entries, keep);
    if exists i :: 0 <= i < |entries| && entries[i].id == id then
      var i :| 0 <= i < |entries| && entries[i].id == id;
      FilterShrinks(entries, keep, i);
      r
    else
      FilterAll(entries, keep);
      r
  }

  /** With unique ids, as the primary key keeps them, removing an entry's
      id removes exactly that entry. */
  lemma WithoutEntryOne(entries: seq<TimetableEntry>, k: nat)
    requires UniqueKeys(entries, EntryKey) && k < |entries|
    ensures WithoutEntry(entries, entries[k].id) == entries[..k] + entries[k + 1..]
  {
    var id := entries[k].id;
    FilterOutKey(entries, EntryKey, k, (e: TimetableEntry) => e.id != id);
  }

  /** `deleteTimetableEntry`: Prisma's `delete` throws when no entry has the
      id; otherwise exactly that entry leaves the table. */
  method DeleteTimetableEntry(db: Database, id: Id) returns (result: ActionResult)
    requires db.Valid()
    modifies db`entries
    ensures db.Valid()
    ensures result == Thrown(RecordNotFound) <==> forall i :: 0 <= i < |old(db.entries)| ==> old(db.entries)[i].id != id
    ensures result == Done || result == Thrown(RecordNotFound)
    ensures result.Thrown? ==> db.entries == old(db.entries)
    ensures result == Done ==> db.entries == WithoutEntry(old(db.entries), id)
    ensures result == Done ==> exists k :: (0 <= k < |old(db.entries)| && old(db.entries)[k].id == id
      && db.entries == old(db.entries)[..k] + old(db.entries)[k + 1..])
  {
    if !exists i :: 0 <= i < |db.entries| && db.entries[i].id == id {
      return Thrown(RecordNotFound);
    }
    var before := db.entries;
    var k :| 0 <= k < |before| && before[k].id == id;
    WithoutEntryOne(before, k);
    db.entries := WithoutEntry(before, id);
    FilterKeepsUniqueKeys(before, (e: TimetableEntry) => e.id != id, SlotKey);
    FilterKeepsUniqueKeys(before, (e: TimetableEntry) => e.id != id, EntryKey);
    assert db.entries == Filter(before, (e: TimetableEntry) => e.id != id);
    return Done;
  }
}
