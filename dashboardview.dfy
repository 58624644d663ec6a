/** The dashboard page's own state: the selected day, the week type override,
    the loaded schedule and the assign dialog, with the optimistic updates the
    page makes to its copy of the schedule before the server answers. */
module DashboardView {
  import opened Common
  import opened Domain
  import opened WeekParity

  /** The assignment id a slot shows: a stored assignment, or the marker
      "optimistic-pending" the page writes before the server has answered. */
  datatype AssignmentTag = Saved(id: Id) | OptimisticPending

  /** A period of a sick teacher's card as the page holds it. */
  datatype ViewSlot = ViewSlot(
    timetableEntryId: Id, periodId: Id, periodNumber: int, periodStartTime: string, periodEndTime: string,
    className: string, subject: string, isCovered: bool,
    reliefTeacherName: Option<string>, assignmentId: Option<AssignmentTag>, availableTeachers: seq<Teacher>)

  datatype ViewCard = ViewCard(teacherId: Id, teacherName: string, sickReportId: Id, periods: seq<ViewSlot>)

  /** The page's copy of the dashboard reply; the totals are plain numbers
      the page adjusts, so they may leave the natural numbers. */
  datatype DashboardData = DashboardData(
    date: string, isWeekend: bool, weekType: Option<Parity>, sickTeachers: seq<ViewCard>,
    totalUncovered: int, totalCovered: int)

  /** The assign dialog; a closed dialog holds no slot and empty names. */
  datatype ModalState = ModalState(isOpen: bool, periodSlot: Option<ViewSlot>, sickTeacherName: string, sickReportId: Option<Id>)

  const Closed := ModalState(false, None, "", None)

  /** Saturday and Sunday. */
  function IsWeekend(d: Day): (r: bool)
    ensures r <==> IsoWeekday(d) >= 6
  {
    var jsDay := JsWeekday(d);
    jsDay == 0 || jsDay == 6
  }

  /** The other week of the rotation. */
  function Flip(w: Parity): (r: Parity)
    ensures r != w
  {
    if w == Odd then Even else Odd
  }

  // ----- The optimistic updates, slot by slot.

  /** The two slots describe the same lesson: they differ at most in their
      cover. */
  predicate SameLesson(x: ViewSlot, y: ViewSlot)
  {
    && x.timetableEntryId == y.timetableEntryId && x.periodId == y.periodId && x.periodNumber == y.periodNumber
    && x.periodStartTime == y.periodStartTime && x.periodEndTime == y.periodEndTime
    && x.className == y.className && x.subject == y.subject && x.availableTeachers == y.availableTeachers
  }

  function UnassignSlot(slot: ViewSlot, assignmentId: AssignmentTag): ViewSlot
  {
    if slot.assignmentId != Some(assignmentId) then slot
    else slot.(isCovered := false, reliefTeacherName := None, assignmentId := None)
  }

  function AssignSlot(p: ViewSlot, entryId: Id, name: string): ViewSlot
  {
    if p.timetableEntryId != entryId then p
    else p.(isCovered := true, reliefTeacherName := Some(name), assignmentId := Some(OptimisticPending))
  }

  function UnassignAll(slots: seq<ViewSlot>, assignmentId: AssignmentTag): seq<ViewSlot>
  {
    seq(|slots|, j requires 0 <= j < |slots| => UnassignSlot(slots[j], assignmentId))
  }

  function AssignAll(slots: seq<ViewSlot>, entryId: Id, name: string): seq<ViewSlot>
  {
    seq(|slots|, j requires 0 <= j < |slots| => AssignSlot(slots[j], entryId, name))
  }

  /** The optimistic update of `handleUnassign`: every slot showing the assignment becomes uncovered; the
      totals move by one lesson whatever the number of such slots. */
  function Unassigned(d: DashboardData, assignmentId: AssignmentTag): (r: DashboardData)
    ensures r.date == d.date && r.isWeekend == d.isWeekend && r.weekType == d.weekType
    ensures r.totalUncovered == d.totalUncovered + 1 && r.totalCovered == d.totalCovered - 1
    ensures |r.sickTeachers| == |d.sickTeachers|
  {
    var cards := d.sickTeachers;
    d.(sickTeachers := seq(|cards|, i requires 0 <= i < |cards| => cards[i].(periods := UnassignAll(cards[i].periods, assignmentId))),
       totalUncovered := d.totalUncovered + 1,
       totalCovered := d.totalCovered - 1)
  }

  /** The optimistic update of `handleAssignSuccess`: every slot of the chosen lesson becomes covered by the
      chosen teacher, pending the server's assignment id; the totals move by
      one lesson the other way. */
  function Assigned(d: DashboardData, entryId: Id, name: string): (r: DashboardData)
    ensures r.date == d.date && r.isWeekend == d.isWeekend && r.weekType == d.weekType
    ensures r.totalUncovered == d.totalUncovered - 1 && r.totalCovered == d.totalCovered + 1
    ensures |r.sickTeachers| == |d.sickTeachers|
  {
    var cards := d.sickTeachers;
    d.(sickTeachers := seq(|cards|, i requires 0 <= i < |cards| => cards[i].(periods := AssignAll(cards[i].periods, entryId, name))),
       totalUncovered := d.totalUncovered - 1,
       totalCovered := d.totalCovered + 1)
  }

  /** Only the slots showing the assignment change, and of them only the
      cover: they become uncovered, without relief teacher or assignment. */
  lemma UnassignedSlot(d: DashboardData, assignmentId: AssignmentTag, i: int, j: int)
    requires 0 <= i < |d.sickTeachers| && 0 <= j < |d.sickTeachers[i].periods|
    ensures var r := Unassigned(d, assignmentId).sickTeachers[i];
            && r.teacherId == d.sickTeachers[i].teacherId && r.teacherName == d.sickTeachers[i].teacherName
            && r.sickReportId == d.sickTeachers[i].sickReportId
            && |r.periods| == |d.sickTeachers[i].periods|
            && SameLesson(r.periods[j], d.sickTeachers[i].periods[j])
            && (d.sickTeachers[i].periods[j].assignmentId == Some(assignmentId) ==>
                  !r.periods[j].isCovered && r.periods[j].reliefTeacherName == None && r.periods[j].assignmentId == None)
            && (d.sickTeachers[i].periods[j].assignmentId != Some(assignmentId) ==> r.periods[j] == d.sickTeachers[i].periods[j])
  {
  }

  /** Only the slots of the chosen lesson change, and of them only the
      cover: they show the chosen teacher and the pending marker. */
  lemma AssignedSlot(d: DashboardData, entryId: Id, name: string, i: int, j: int)
    requires 0 <= i < |d.sickTeachers| && 0 <= j < |d.sickTeachers[i].periods|
    ensures var r := Assigned(d, entryId, name).sickTeachers[i];
            && r.teacherId == d.sickTeachers[i].teacherId && r.teacherName == d.sickTeachers[i].teacherName
            && r.sickReportId == d.sickTeachers[i].sickReportId
            && |r.periods| == |d.sickTeachers[i].periods|
            && SameLesson(r.periods[j], d.sickTeachers[i].periods[j])
            && (d.sickTeachers[i].periods[j].timetableEntryId == entryId ==>
                  r.periods[j].isCovered && r.periods[j].reliefTeacherName == Some(name)
                  && r.periods[j].assignmentId == Some(OptimisticPending))
            && (d.sickTeachers[i].periods[j].timetableEntryId != entryId ==> r.periods[j] == d.sickTeachers[i].periods[j])
  {
  }

  // ----- The totals against the slots.

  /** All slots of all cards, card by card. */
  function AllSlots(cards: seq<ViewCard>): seq<ViewSlot>
  {
    if cards == [] then []
    else AllSlots(cards[..|cards| - 1]) + cards[|cards| - 1].periods
  }

  /** The number of slots whose cover is `covered`. */
  function Tally(slots: seq<ViewSlot>, covered: bool): nat
  {
    if slots == [] then 0
    else Tally(slots[..|slots| - 1], covered) + (if slots[|slots| - 1].isCovered == covered then 1 else 0)
  }

  /** The number of covered slots showing `assignmentId`. */
  function Releasing(slots: seq<ViewSlot>, assignmentId: AssignmentTag): nat
  {
    if slots == [] then 0
    else
      var last := slots[|slots| - 1];
      Releasing(slots[..|slots| - 1], assignmentId) + (if last.isCovered && last.assignmentId == Some(assignmentId) then 1 else 0)
  }

  /** The number of uncovered slots of lesson `entryId`. */
  function Taking(slots: seq<ViewSlot>, entryId: Id): nat
  {
    if slots == [] then 0
    else
      var last := slots[|slots| - 1];
      Taking(slots[..|slots| - 1], entryId) + (if !last.isCovered && last.timetableEntryId == entryId then 1 else 0)
  }

  /** The totals count the covered and the uncovered slots, as the
      dashboard reply computes them. */
  predicate TotalsAgree(d: DashboardData)
  {
    && d.totalCovered == Tally(AllSlots(d.sickTeachers), true)
    && d.totalUncovered == Tally(AllSlots(d.sickTeachers), false)
  }

  lemma {:induction false} UnassignTally(slots: seq<ViewSlot>, assignmentId: AssignmentTag)
    ensures Tally(UnassignAll(slots, assignmentId), true) + Releasing(slots, assignmentId) == Tally(slots, true)
    ensures Tally(UnassignAll(slots, assignmentId), false) == Tally(slots, false) + Releasing(slots, assignmentId)
  {
    if slots != [] {
      var init := slots[..|slots| - 1];
      UnassignTally(init, assignmentId);
      assert UnassignAll(slots, assignmentId)[..|slots| - 1] == UnassignAll(init, assignmentId);
    }
  }

  lemma {:induction false} AssignTally(slots: seq<ViewSlot>, entryId: Id, name: string)
    ensures Tally(AssignAll(slots, entryId, name), true) == Tally(slots, true) + Taking(slots, entryId)
    ensures Tally(AssignAll(slots, entryId, name), false) + Taking(slots, entryId) == Tally(slots, false)
  {
    if slots != [] {
      var init := slots[..|slots| - 1];
      AssignTally(init, entryId, name);
      assert AssignAll(slots, entryId, name)[..|slots| - 1] == AssignAll(init, entryId, name);
    }
  }

  lemma {:induction false} UnassignedSlots(cards: seq<ViewCard>, assignmentId: AssignmentTag)
    ensures AllSlots(seq(|cards|, i requires 0 <= i < |cards| => cards[i].(periods := UnassignAll(cards[i].periods, assignmentId))))
            == UnassignAll(AllSlots(cards), assignmentId)
  {
    var mapped := seq(|cards|, i requires 0 <= i < |cards| => cards[i].(periods := UnassignAll(cards[i].periods, assignmentId)));
    if cards != [] {
      var init := cards[..|cards| - 1];
      UnassignedSlots(init, assignmentId);
      assert mapped[..|cards| - 1] == seq(|init|, i requires 0 <= i < |init| => init[i].(periods := UnassignAll(init[i].periods, assignmentId)));
      assert UnassignAll(AllSlots(cards), assignmentId) == UnassignAll(AllSlots(init), assignmentId) + UnassignAll(cards[|cards| - 1].periods, assignmentId);
    }
  }

  lemma {:induction false} AssignedSlots(cards: seq<ViewCard>, entryId: Id, name: string)
    ensures AllSlots(seq(|cards|, i requires 0 <= i < |cards| => cards[i].(periods := AssignAll(cards[i].periods, entryId, name))))
            == AssignAll(AllSlots(cards), entryId, name)
  {
    var mapped := seq(|cards|, i requires 0 <= i < |cards| => cards[i].(periods := AssignAll(cards[i].periods, entryId, name)));
    if cards != [] {
      var init := cards[..|cards| - 1];
      AssignedSlots(init, entryId, name);
      assert mapped[..|cards| - 1] == seq(|init|, i requires 0 <= i < |init| => init[i].(periods := AssignAll(init[i].periods, entryId, name)));
      assert AssignAll(AllSlots(cards), entryId, name) == AssignAll(AllSlots(init), entryId, name) + AssignAll(cards[|cards| - 1].periods, entryId, name);
    }
  }

  /** The totals `handleUnassign` writes still count the slots after an optimistic
      unassign exactly when one covered slot showed the assignment. */
  lemma UnassignKeepsTotals(d: DashboardData, assignmentId: AssignmentTag)
    requires TotalsAgree(d)
    ensures TotalsAgree(Unassigned(d, assignmentId)) <==> Releasing(AllSlots(d.sickTeachers), assignmentId) == 1
  {
    UnassignedSlots(d.sickTeachers, assignmentId);
    UnassignTally(AllSlots(d.sickTeachers), assignmentId);
  }

  /** The totals `handleAssignSuccess` writes still count the slots after an optimistic
      assign exactly when one uncovered slot is of the chosen lesson. */
  lemma AssignKeepsTotals(d: DashboardData, entryId: Id, name: string)
    requires TotalsAgree(d)
    ensures TotalsAgree(Assigned(d, entryId, name)) <==> Taking(AllSlots(d.sickTeachers), entryId) == 1
  {
    AssignedSlots(d.sickTeachers, entryId, name);
    AssignTally(AllSlots(d.sickTeachers), entryId, name);
  }

  // ----- The page.

  /** `DashboardContent`: what the page holds between renders. */
  class DashboardContent {
    var date: Day
    var weekOverride: Option<Parity>
    var data: Option<DashboardData>
    var modal: ModalState

    constructor(initialDate: Day)
      ensures date == initialDate && weekOverride == None && data == None && modal == Closed
    {
      date := initialDate;
      weekOverride := None;
      data := None;
      modal := Closed;
    }

    /** `effectiveWeekType`: the override if one is set, otherwise the day's own week. */
    function EffectiveWeekType(): (w: Parity)
      reads this
      ensures weekOverride.Some? ==> w == weekOverride.value
      ensures weekOverride.None? ==> (w == Odd <==> IsoWeekNumber(date) % 2 == 1)
    {
      WeekTypeIsParity(date);
      if weekOverride.Some? then weekOverride.value else WeekTypeOf(date)
    }

    /** `fetchDashboard`'s `setData`: the reply of a fetch, or nothing when it failed. */
    method ReceiveDashboard(reply: Option<DashboardData>)
      modifies this
      ensures data == reply
      ensures date == old(date) && weekOverride == old(weekOverride) && modal == old(modal)
    {
      data := reply;
    }

    /** `handleDateChange`: a new day drops the override, so the day's own week
        applies again. */
    method HandleDateChange(newDate: Day)
      modifies this
      ensures date == newDate && weekOverride == None
      ensures EffectiveWeekType() == WeekTypeOf(newDate)
      ensures data == old(data) && modal == old(modal)
    {
      date := newDate;
      weekOverride := None;
    }

    /** `navigateDay`: `offset` days on. */
    method NavigateDay(offset: int)
      modifies this
      ensures date == old(date) + offset && weekOverride == None
      ensures data == old(data) && modal == old(modal)
    {
      HandleDateChange(date + offset);
    }

    /** `toggleWeekType`: the override becomes the other week of the one in
        effect. */
    method ToggleWeekType()
      modifies this
      ensures weekOverride == Some(Flip(old(EffectiveWeekType())))
      ensures EffectiveWeekType() != old(EffectiveWeekType())
      ensures date == old(date) && data == old(data) && modal == old(modal)
    {
      var current := if weekOverride.Some? then weekOverride.value else WeekTypeOf(date);
      weekOverride := Some(if current == Odd then Even else Odd);
    }

    /** `openAssignModal`. */
    method OpenAssignModal(card: ViewCard, slot: ViewSlot)
      modifies this
      ensures modal == ModalState(true, Some(slot), card.teacherName, Some(card.sickReportId))
      ensures date == old(date) && weekOverride == old(weekOverride) && data == old(data)
    {
      modal := ModalState(true, Some(slot), card.teacherName, Some(card.sickReportId));
    }

    /** `closeModal`. */
    method CloseModal()
      modifies this
      ensures modal == Closed
      ensures date == old(date) && weekOverride == old(weekOverride) && data == old(data)
    {
      modal := Closed;
    }

    /** `handleUnassign`: `deleted` is whether the server removed the
        assignment. The page shows the slot uncovered at once, and puts back
        exactly what it showed before when the removal fails. */
    method HandleUnassign(assignmentId: AssignmentTag, deleted: bool)
      modifies this
      ensures old(data).None? || !deleted ==> data == old(data)
      ensures old(data).Some? && deleted ==> data == Some(Unassigned(old(data).value, assignmentId))
      ensures date == old(date) && weekOverride == old(weekOverride) && modal == old(modal)
    {
      if data.None? {
        return;
      }
      var previousData := data;
      data := Some(Unassigned(data.value, assignmentId));
      if !deleted {
        data := previousData;
      }
    }

    /** `handleAssignSuccess`: the dialog closes, and the lesson it was opened for is
        shown covered by the chosen teacher. */
    method HandleAssignSuccess(assignedTeacherName: string)
      modifies this
      ensures modal == Closed
      ensures old(data).None? || old(modal).periodSlot.None? ==> data == old(data)
      ensures old(data).Some? && old(modal).periodSlot.Some? ==>
                data == Some(Assigned(old(data).value, old(modal).periodSlot.value.timetableEntryId, assignedTeacherName))
      ensures date == old(date) && weekOverride == old(weekOverride)
    {
      var slot := modal.periodSlot;
      CloseModal();
      if data.None? || slot.None? {
        return;
      }
      data := Some(Assigned(data.value, slot.value.timetableEntryId, assignedTeacherName));
    }
  }
}
