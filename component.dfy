/** The scheduler component of src/SchedulerComponent.js as a class over its
    state. Each handler is one state transition: its checks read the state
    the handler starts from, the state updates it queues run afterwards in
    the order queued, and the `sortSchedules` callbacks run last. The dialog
    fields a handler reads (dates, duration, frequency, names, the index of
    the row) are its parameters; instants and durations are milliseconds. */
module SchedulerComponent {
  import opened Common
  import opened Sorting
  import opened Engine
  import opened EngineProperties
  import opened Paging
  import opened Form
  import opened Wire
  import opened WireMapping

  datatype View = Timeslots | Schedules

  // ---------------------------------------------------------------------
  // Scans

  /** The inner scan of one schedule's slots, left at the first collision. */
  method ScanSlots(slots: seq<TimeSlot>, checkStart: int, checkEnd: int) returns (r: Option<nat>)
    ensures r == FirstCollision(slots, checkStart, checkEnd)
  {
    var j := 0;
    while j < |slots|
      invariant 0 <= j <= |slots|
      invariant forall k :: 0 <= k < j ==> !CollidesWith(slots[k], checkStart, checkEnd)
    {
      var valStart := slots[j].startTime;
      var valEnd := valStart + slots[j].duration;
      if (checkStart <= valStart && checkEnd >= valStart) || (checkStart < valEnd && checkEnd >= valEnd) {
        FirstCollisionIsFirst(slots, checkStart, checkEnd);
        return Some(j);
      }
      j := j + 1;
    }
    FirstCollisionIsFirst(slots, checkStart, checkEnd);
    return None;
  }

  /** Both scan loops, left at the first collision (a labelled break or a
      `return`); schedules named `exclude` are passed over (`continue`). */
  method ScanSchedules(snap: seq<Schedule>, exclude: Option<string>, checkStart: int, checkEnd: int)
    returns (r: Option<SlotRef>)
    ensures r == FirstCollisionAmong(snap, exclude, checkStart, checkEnd)
  {
    var i := 0;
    while i < |snap|
      invariant 0 <= i <= |snap|
      invariant forall k :: 0 <= k < i ==> Skipped(snap[k], exclude) || FirstCollision(snap[k].timeSlots, checkStart, checkEnd).None?
    {
      if !Skipped(snap[i], exclude) {
        var j := ScanSlots(snap[i].timeSlots, checkStart, checkEnd);
        if j.Some? {
          FirstCollisionAmongAt(snap, exclude, checkStart, checkEnd, i);
          return Some(SlotRef(i, j.value));
        }
      }
      i := i + 1;
    }
    FirstCollisionAmongIsFirst(snap, exclude, checkStart, checkEnd);
    return None;
  }

  /** The queued slot replacements, run in the order they were queued, each
      on the state the previous one left. */
  method RunMerges(snap: seq<Schedule>, ms: seq<Merge>, kind: MergeKind) returns (r: seq<Schedule>)
    requires AllFit(snap, ms)
    ensures r == ApplyMerges(snap, ms, kind)
  {
    r := snap;
    var k := 0;
    while k < |ms|
      invariant 0 <= k <= |ms|
      invariant AllFit(snap, ms[..k])
      invariant r == ApplyMerges(snap, ms[..k], kind)
    {
      ApplyMergesPrefixStep(snap, ms, kind, k);
      r := ApplyMerge(r, ms[k], kind);
      k := k + 1;
    }
    assert ms[..|ms|] == ms;
  }

  /** The one-off scan: every schedule is scanned, and each contributes the
      merge of its first colliding slot. */
  method ScanOnce(snap: seq<Schedule>, checkStart: int, checkEnd: int) returns (merges: seq<Merge>)
    ensures merges == OnceMerges(snap, checkStart, checkEnd)
  {
    merges := [];
    var i := 0;
    while i < |snap|
      invariant 0 <= i <= |snap|
      invariant merges == OnceMerges(snap[..i], checkStart, checkEnd)
    {
      assert snap[..i + 1][..i] == snap[..i];
      var j := ScanSlots(snap[i].timeSlots, checkStart, checkEnd);
      if j.Some? {
        merges := merges + [UnionMerge(SlotRef(i, j.value), snap[i].timeSlots[j.value], checkStart, checkEnd)];
      }
      i := i + 1;
    }
    assert snap[..|snap|] == snap;
  }

  /** The recurring branch's `while (currentDate <= endDate)` loop: each
      occurrence either queues one merge or becomes a slot of the new
      schedule, whose `edited` is set to `collideAsSuch` each time. */
  method ScanRecurring(snap: seq<Schedule>, startDate: int, endDate: int, step: int, duration: int, modeObject: Mode)
    returns (merges: seq<Merge>, slots: seq<TimeSlot>, newEdited: int)
    requires step > 0
    ensures var p := RecurringPlan(snap, Occurrences(startDate, endDate, step), duration, modeObject);
      merges == p.merges && slots == p.slots && newEdited == p.edited
  {
    var currentDate := startDate;
    ghost var visited: seq<int> := [];
    ghost var plan := RecurringPlan(snap, visited, duration, modeObject);
    merges, slots, newEdited := [], [], 0;
    var collideAsSuch := 0;
    while currentDate <= endDate
      invariant Occurrences(startDate, endDate, step) == visited + Occurrences(currentDate, endDate, step)
      invariant plan == RecurringPlan(snap, visited, duration, modeObject)
      invariant merges == plan.merges && slots == plan.slots && newEdited == plan.edited
      invariant collideAsSuch == (if plan.collided then 1 else 0)
      decreases endDate - currentDate
    {
      var checkStart := currentDate;
      var checkEnd := checkStart + duration;
      var hit := ScanSchedules(snap, None, checkStart, checkEnd);
      RecurringPlanStep(snap, visited, currentDate, duration, modeObject);
      OccurrencesStep(visited, currentDate, endDate, step);
      ghost var next := RecurringPlan(snap, visited + [currentDate], duration, modeObject);
      if hit.Some? {
        var at := hit.value;
        assert MergeFor(snap, currentDate, duration) == UnionMerge(at, snap[at.sched].timeSlots[at.slot], checkStart, checkEnd);
        merges := merges + [UnionMerge(at, snap[at.sched].timeSlots[at.slot], checkStart, checkEnd)];
        collideAsSuch := 1;
      } else {
        slots := slots + [TimeSlot(currentDate, duration, 0, modeObject)];
        newEdited := collideAsSuch;
      }
      visited, plan := visited + [currentDate], next;
      currentDate := currentDate + step;
    }
    assert visited + [] == visited;
  }

  /** updateTimeslots' first loop: walks the new rule's occurrences, keeping
      an edited prior slot found at an occurrence. */
  method ExpandRule(prior: seq<TimeSlot>, newStartTime: int, newEndTime: int, newDuration: int,
                    newFrequency: string, modeObject: Mode) returns (updated: seq<TimeSlot>)
    requires RegenerationTerminates(newStartTime, newEndTime, newFrequency)
    ensures updated == RuleSlots(prior, newStartTime, newEndTime, newDuration, newFrequency, modeObject)
  {
    if newFrequency == "once" {
      return [TimeSlot(newStartTime, newDuration, 0, modeObject)];
    }
    var step := StepOf(newFrequency);
    var currentTime := newStartTime;
    ghost var visited: seq<int> := [];
    updated := [];
    while currentTime <= newEndTime
      invariant Occurrences(newStartTime, newEndTime, step) == visited + Occurrences(currentTime, newEndTime, step)
      invariant updated == RegeneratedSlots(prior, visited, newDuration, modeObject)
      decreases newEndTime - currentTime
    {
      var existingSlot := FindByStart(prior, currentTime);
      if existingSlot.Some? && existingSlot.value.edited == 1 {
        var e := existingSlot.value;
        updated := updated + [TimeSlot(e.startTime, e.duration, 1, e.mode)];
      } else {
        updated := updated + [TimeSlot(currentTime, newDuration, 0, modeObject)];
      }
      OccurrencesStep(visited, currentTime, newEndTime, step);
      visited := visited + [currentTime];
      currentTime := currentTime + step;
    }
    assert visited + [] == visited;
  }

  /** updateTimeslots' second loop: the edited prior slots outside the new
      window, in their order. */
  method KeepEdited(prior: seq<TimeSlot>, newStartTime: int, newEndTime: int) returns (kept: seq<TimeSlot>)
    ensures kept == KeptEdited(prior, newStartTime, newEndTime)
  {
    kept := [];
    var k := 0;
    while k < |prior|
      invariant 0 <= k <= |prior|
      invariant kept == KeptEdited(prior[..k], newStartTime, newEndTime)
    {
      assert prior[..k + 1][..k] == prior[..k];
      var slot := prior[k];
      if slot.edited == 1 && (slot.startTime < newStartTime || slot.startTime > newEndTime) {
        kept := kept + [TimeSlot(slot.startTime, slot.duration, 1, slot.mode)];
      }
      k := k + 1;
    }
    assert prior[..|prior|] == prior;
  }

  /** updateTimeslots: both loops push onto one list, which is then sorted
      by start time. Only a rule whose loop ends can be regenerated. */
  method UpdateTimeslots(prior: seq<TimeSlot>, newStartTime: int, newEndTime: int, newDuration: int,
                         newFrequency: string, modeObject: Mode) returns (updated: seq<TimeSlot>)
    requires RegenerationTerminates(newStartTime, newEndTime, newFrequency)
    ensures updated == Regenerate(prior, newStartTime, newEndTime, newDuration, newFrequency, modeObject)
  {
    var rule := ExpandRule(prior, newStartTime, newEndTime, newDuration, newFrequency, modeObject);
    var kept := KeepEdited(prior, newStartTime, newEndTime);
    updated := SortBy(rule + kept, SlotKey);
  }

  // ---------------------------------------------------------------------
  // Edit outcomes

  /** How an edit ends: rejected by a conflict, stuck in a conflict loop that
      never advances, without a row to edit, or with new schedules. */
  datatype EditOutcome = Conflict | Hangs | NoTarget | Edited(schedules: seq<Schedule>)

  /** The Timeslots-view edit: the dialog's span is checked against every
      slot, the one being edited included; the row is then looked up. */
  function TimeslotEdit(snap: seq<Schedule>, rows: seq<SortedSlot>, startDate: int, duration: int,
                        editIndex: int, modeObject: Mode): EditOutcome
  {
    if Conflicts(snap, None, startDate, startDate + duration) then Conflict
    else if 0 <= editIndex < |rows| then
      Edited(EditSlotIn(snap, rows[editIndex].scheduleName, rows[editIndex].slot.startTime,
                        TimeSlot(startDate, duration, 1, modeObject)))
    else NoTarget
  }

  /** The Schedules-view edit: every occurrence of the new rule is checked
      against the schedules not carrying the typed name. A rule that does not
      advance repeats the check at its start for ever unless it conflicts. */
  function ScheduleEdit(snap: seq<Schedule>, sorted: seq<Schedule>, startDate: int, endDate: int, duration: int,
                        editIndex: int, editFrequency: string, editScheduleName: string): EditOutcome
  {
    if StepOf(editFrequency) == 0 && startDate <= endDate then
      if Conflicts(snap, Some(editScheduleName), startDate, startDate + duration) then Conflict else Hangs
    else if RuleConflicts(snap, editScheduleName, Occurrences(startDate, endDate, StepOf(editFrequency)), duration) then Conflict
    else if 0 <= editIndex < |sorted| then
      Edited(EditScheduleIn(snap, sorted[editIndex].name, editScheduleName, editFrequency, startDate, endDate, duration))
    else NoTarget
  }

  /** A scan finds a collision exactly when some slot conflicts. */
  lemma ConflictsIffScan(snap: seq<Schedule>, exclude: Option<string>, cs: int, ce: int)
    ensures Conflicts(snap, exclude, cs, ce) <==> FirstCollisionAmong(snap, exclude, cs, ce).Some?
  {
    if FirstCollisionAmong(snap, exclude, cs, ce).Some? {
      var at := FirstCollisionAmong(snap, exclude, cs, ce).value;
      assert !Skipped(snap[at.sched], exclude) && FirstCollision(snap[at.sched].timeSlots, cs, ce).Some?;
    }
  }

  /** The Timeslots-view check does not skip the slot being edited: an edit
      that keeps a listed slot's start, with any duration, collides with that
      very slot and is rejected. */
  lemma EditKeepingStartConflicts(snap: seq<Schedule>, editIndex: int, duration: int, modeObject: Mode)
    requires 0 <= editIndex < |SortedView(snap)| && duration >= 0
    ensures var row := SortedView(snap)[editIndex];
      TimeslotEdit(snap, SortedView(snap), row.slot.startTime, duration, editIndex, modeObject) == Conflict
  {
    var v := SortedView(snap);
    var row := v[editIndex];
    SortedViewShape(snap);
    assert row in v;
    RowConflicts(snap, row, row.slot.startTime + duration);
  }

  /** A candidate starting at a listed slot's start collides with that slot. */
  lemma RowConflicts(snap: seq<Schedule>, row: SortedSlot, ce: int)
    requires RowOf(snap, row) && row.slot.startTime <= ce
    ensures Conflicts(snap, None, row.slot.startTime, ce)
  {
    var i, j :| 0 <= i < |snap| && 0 <= j < |snap[i].timeSlots|
      && row == SortedSlot(DisplayName(snap[i].name), snap[i].timeSlots[j]);
    SameStartCollides(snap[i].timeSlots[j], ce);
    FirstCollisionIsFirst(snap[i].timeSlots, row.slot.startTime, ce);
    assert !Skipped(snap[i], None);
  }

  // ---------------------------------------------------------------------
  // Deletion outcome

  /** The schedules after a delete, or `None` when the index names no row
      (the handler then throws before or while its update runs). */
  function DeleteResult(view: View, snap: seq<Schedule>, rows: seq<SortedSlot>, sorted: seq<Schedule>,
                        deleteIndex: int): Option<seq<Schedule>>
  {
    if view == Timeslots then
      if 0 <= deleteIndex < |rows| then Some(DeleteSlotIn(snap, rows[deleteIndex].scheduleName, rows[deleteIndex].slot.startTime))
      else None
    else if 0 <= deleteIndex < |sorted| then Some(DeleteScheduleIn(snap, sorted[deleteIndex].name))
    else None
  }

  // ---------------------------------------------------------------------
  // The handlers' computations on the state they start from

  /** handleSave after validation: the one-off or recurring scans, the
      queued merges, and the new schedule. */
  method Save(snap: seq<Schedule>, startDate: int, endDate: int, duration: int, frequency: Frequency,
              scheduleName: string, modeObject: Mode) returns (r: seq<Schedule>)
    ensures r == SaveSchedules(snap, startDate, endDate, duration, frequency, scheduleName, modeObject)
  {
    if frequency == Once {
      var checkStart := startDate;
      var checkEnd := checkStart + duration;
      var merges := ScanOnce(snap, checkStart, checkEnd);
      if merges == [] {
        r := snap + [OnceSchedule(startDate, endDate, duration, modeObject)];
      } else {
        r := RunMerges(snap, merges, MarkSlot);
      }
    } else {
      var step := StepOf(FrequencyName(frequency));
      var merges, slots, newEdited := ScanRecurring(snap, startDate, endDate, step, duration, modeObject);
      r := RunMerges(snap, merges, MarkSchedule);
      if slots != [] {
        r := r + [Schedule(scheduleName, FrequencyName(frequency), startDate, endDate, duration,
                           Some(modeObject), newEdited, slots)];
      }
    }
  }

  /** The outcome of an edit in the view shown. */
  function EditResult(view: View, snap: seq<Schedule>, rows: seq<SortedSlot>, sorted: seq<Schedule>,
                      startDate: int, endDate: int, duration: int, editIndex: int,
                      editFrequency: string, editScheduleName: string, modeObject: Mode): EditOutcome
  {
    if view == Timeslots
    then TimeslotEdit(snap, rows, startDate, duration, editIndex, modeObject)
    else ScheduleEdit(snap, sorted, startDate, endDate, duration, editIndex, editFrequency, editScheduleName)
  }

  /** handleEditSave's scans and update, on the state it starts from. */
  method EditSave(view: View, snap: seq<Schedule>, rows: seq<SortedSlot>, sorted: seq<Schedule>,
                  startDate: int, endDate: int, duration: int, editIndex: int,
                  editFrequency: string, editScheduleName: string, modeObject: Mode) returns (outcome: EditOutcome)
    ensures outcome == EditResult(view, snap, rows, sorted, startDate, endDate, duration, editIndex,
                                  editFrequency, editScheduleName, modeObject)
  {
    if view == Timeslots {
      var checkStart := startDate;
      var checkEnd := checkStart + duration;
      var hit := ScanSchedules(snap, None, checkStart, checkEnd);
      ConflictsIffScan(snap, None, checkStart, checkEnd);
      if hit.Some? {
        return Conflict;
      }
      if 0 <= editIndex < |rows| {
        var timeSlot := rows[editIndex];
        return Edited(EditSlotIn(snap, timeSlot.scheduleName, timeSlot.slot.startTime,
                                 TimeSlot(startDate, duration, 1, modeObject)));
      }
      return NoTarget;
    }
    var step := StepOf(editFrequency);
    if step == 0 && startDate <= endDate {
      // The loop would check the same start on every pass.
      var hit := ScanSchedules(snap, Some(editScheduleName), startDate, startDate + duration);
      ConflictsIffScan(snap, Some(editScheduleName), startDate, startDate + duration);
      return if hit.Some? then Conflict else Hangs;
    }
    var conflict := false;
    if step > 0 {
      conflict := ScanRule(snap, editScheduleName, startDate, endDate, step, duration);
    } else {
      assert Occurrences(startDate, endDate, step) == [];
    }
    if conflict {
      return Conflict;
    }
    if 0 <= editIndex < |sorted| {
      var scheduleToEdit := sorted[editIndex];
      var updated := RebuildNamed(snap, scheduleToEdit.name, editScheduleName, editFrequency,
                                  startDate, endDate, duration);
      return Edited(updated);
    }
    return NoTarget;
  }

  /** handleDelete's lookup of the row and its update, on the state it
      starts from. */
  method Delete(view: View, snap: seq<Schedule>, rows: seq<SortedSlot>, sorted: seq<Schedule>, deleteIndex: int)
    returns (r: Option<seq<Schedule>>)
    ensures r == DeleteResult(view, snap, rows, sorted, deleteIndex)
  {
    if view == Timeslots {
      if 0 <= deleteIndex < |rows| {
        var row := rows[deleteIndex];
        return Some(DeleteSlotIn(snap, row.scheduleName, row.slot.startTime));
      }
    } else if 0 <= deleteIndex < |sorted| {
      var scheduleToDelete := sorted[deleteIndex];
      return Some(DeleteScheduleIn(snap, scheduleToDelete.name));
    }
    return None;
  }

  // ---------------------------------------------------------------------
  // The component

  class RemoteComponent {
    var schedules: seq<Schedule>
    var sortedTimeSlots: seq<SortedSlot>
    var sortedSchedules: seq<Schedule>
    var toggleView: View
    var currentPage: int
    var isPageInputActive: bool
    var pageInputValue: string
    var modes: seq<ModeSpec>
    var selectedMode: string
    var modeParams: map<string, string>
    var startDateError: string
    var endDateError: string
    var editError: string

    /** Every handler ends with `sortSchedules`, so both views always show
        the current schedules. */
    predicate Valid()
      reads this`schedules, this`sortedTimeSlots, this`sortedSchedules
    {
      sortedTimeSlots == SortedView(schedules) && sortedSchedules == schedules
    }

    constructor ()
      ensures Valid()
      ensures schedules == [] && toggleView == Timeslots && currentPage == 0
      ensures !isPageInputActive && pageInputValue == "" && modes == []
      ensures selectedMode == "" && modeParams == map[]
      ensures startDateError == "" && endDateError == "" && editError == ""
    {
      schedules := [];
      sortedTimeSlots := [];
      sortedSchedules := [];
      toggleView := Timeslots;
      currentPage := 0;
      isPageInputActive := false;
      pageInputValue := "";
      modes := [];
      selectedMode := "";
      modeParams := map[];
      startDateError := "";
      endDateError := "";
      editError := "";
      SortedViewEmpty();
    }

    /** The mode object the dialog's selection stands for. */
    function ModeObject(): Mode
      reads this`selectedMode, this`modeParams, this`modes
    {
      FormatModeObject(selectedMode, modeParams, modes)
    }

    /** sortSchedules: the Timeslots view lists every slot tagged with its
        schedule's display name in start order; the Schedules view lists the
        schedules as they are (the sorted copy it builds is unused). */
    method SortSchedules()
      modifies this`sortedTimeSlots, this`sortedSchedules
      ensures Valid()
    {
      if schedules == [] {
        SortedViewEmpty();
        sortedTimeSlots := [];
        sortedSchedules := [];
      } else {
        sortedTimeSlots := SortBy(Tagged(schedules), SortedSlotKey);
        sortedSchedules := schedules;
      }
    }

    /** handleSave. A start more than a day before `now` or an empty
        recurring range sets the matching error and changes nothing else;
        otherwise the save is committed. */
    method HandleSave(now: int, startDate: int, endDate: int, duration: int, frequency: Frequency, scheduleName: string)
      modifies this`schedules, this`sortedTimeSlots, this`sortedSchedules, this`startDateError,
               this`endDateError, this`selectedMode, this`modeParams
      requires Valid()
      ensures Valid()
      ensures match SaveRejection(now, startDate, endDate, frequency)
        case Some(PastStart) =>
          && schedules == old(schedules) && startDateError == PastStartMessage && endDateError == old(endDateError)
          && selectedMode == old(selectedMode) && modeParams == old(modeParams)
        case Some(EmptyRange) =>
          && schedules == old(schedules) && endDateError == EmptyRangeMessage && startDateError == old(startDateError)
          && selectedMode == old(selectedMode) && modeParams == old(modeParams)
        case None =>
          && schedules == old(SaveSchedules(schedules, startDate, endDate, duration, frequency, scheduleName, ModeObject()))
          && startDateError == "" && endDateError == "" && selectedMode == "" && modeParams == map[]
    {
      var twentyFourHoursAgo := now - 24 * 60 * 60 * 1000;
      if startDate < twentyFourHoursAgo {
        startDateError := PastStartMessage;
        return;
      }
      if frequency != Once && endDate <= startDate {
        endDateError := EmptyRangeMessage;
        return;
      }
      var updated := Save(schedules, startDate, endDate, duration, frequency, scheduleName, ModeObject());
      CommitSave(updated);
    }

    /** handleSave past its checks: the new schedules are shown, the errors
        are cleared and the mode selection is reset. */
    method CommitSave(updated: seq<Schedule>)
      modifies this`schedules, this`sortedTimeSlots, this`sortedSchedules, this`startDateError,
               this`endDateError, this`selectedMode, this`modeParams
      ensures Valid()
      ensures schedules == updated
      ensures startDateError == "" && endDateError == "" && selectedMode == "" && modeParams == map[]
    {
      schedules := updated;
      SortSchedules();
      startDateError, endDateError := "", "";
      selectedMode, modeParams := "", map[];
    }

    /** handleEditSave. A conflict sets `editError` and changes nothing
        else; a rule that never advances leaves the handler stuck (`hung`)
        with nothing changed; otherwise `editError` is cleared, and if the
        edited row exists its edit is committed and the mode selection reset. */
    method HandleEditSave(startDate: int, endDate: int, duration: int, editIndex: int,
                          editFrequency: string, editScheduleName: string) returns (hung: bool)
      modifies this`schedules, this`sortedTimeSlots, this`sortedSchedules, this`editError,
               this`selectedMode, this`modeParams
      requires Valid()
      ensures Valid()
      ensures var outcome := old(EditResult(toggleView, schedules, sortedTimeSlots, sortedSchedules, startDate,
                                            endDate, duration, editIndex, editFrequency, editScheduleName, ModeObject()));
        && (hung <==> outcome == Hangs)
        && (outcome == Conflict ==> editError == EditConflictMessage)
        && (outcome == Hangs ==> editError == old(editError))
        && (outcome.NoTarget? || outcome.Edited? ==> editError == "")
        && (outcome.Edited? ==> schedules == outcome.schedules && selectedMode == "" && modeParams == map[])
        && (!outcome.Edited? ==> schedules == old(schedules) && selectedMode == old(selectedMode) && modeParams == old(modeParams))
    {
      var outcome := EditSave(toggleView, schedules, sortedTimeSlots, sortedSchedules, startDate, endDate, duration,
                              editIndex, editFrequency, editScheduleName, ModeObject());
      hung := outcome == Hangs;
      match outcome
      case Conflict =>
        editError := EditConflictMessage;
      case Hangs =>
      case NoTarget =>
        editError := "";
      case Edited(updated) =>
        CommitEdit(updated);
    }

    /** handleEditSave with an edit to commit: the new schedules are shown,
        the error is cleared and the mode selection reset. */
    method CommitEdit(updated: seq<Schedule>)
      modifies this`schedules, this`sortedTimeSlots, this`sortedSchedules, this`editError,
               this`selectedMode, this`modeParams
      ensures Valid()
      ensures schedules == updated && editError == "" && selectedMode == "" && modeParams == map[]
    {
      schedules := updated;
      SortSchedules();
      editError := "";
      selectedMode, modeParams := "", map[];
    }

    /** handleDelete: the row's slots or schedule are removed; an index that
        names no row changes nothing. */
    method HandleDelete(deleteIndex: int)
      modifies this`schedules, this`sortedTimeSlots, this`sortedSchedules
      requires Valid()
      ensures Valid()
      ensures schedules == old(DeleteResult(toggleView, schedules, sortedTimeSlots, sortedSchedules, deleteIndex)
                               .GetOr(schedules))
    {
      var updated := Delete(toggleView, schedules, sortedTimeSlots, sortedSchedules, deleteIndex);
      if updated.Some? {
        schedules := updated.value;
        SortSchedules();
      }
    }

    /** The delete button of the row at `index` on the page shown, offset by
        the page so that the row deleted is the row clicked. */
    method HandleDeleteRow(index: int)
      modifies this`schedules, this`sortedTimeSlots, this`sortedSchedules
      requires Valid()
      ensures Valid()
      ensures schedules == old(DeleteResult(toggleView, schedules, sortedTimeSlots, sortedSchedules,
                                            ShownRowIndex(currentPage, index)).GetOr(schedules))
      ensures old(toggleView == Timeslots && 0 <= currentPage < TotalPages(|sortedTimeSlots|)
                  && 0 <= index < |CurrentPageSlots(sortedTimeSlots, currentPage)|) ==>
        var row := old(CurrentPageSlots(sortedTimeSlots, currentPage)[index]);
        schedules == old(DeleteSlotIn(schedules, row.scheduleName, row.slot.startTime))
    {
      if 0 <= currentPage < TotalPages(|sortedTimeSlots|) && 0 <= index < |CurrentPageSlots(sortedTimeSlots, currentPage)| {
        ShownRowIndexIsShown(sortedTimeSlots, currentPage, index);
      }
      HandleDelete(ShownRowIndex(currentPage, index));
    }

    /** handleClearAll. */
    method HandleClearAll()
      modifies this`schedules, this`sortedTimeSlots, this`sortedSchedules, this`currentPage
      ensures Valid()
      ensures schedules == [] && sortedTimeSlots == [] && sortedSchedules == [] && currentPage == 0
    {
      schedules := [];
      currentPage := 0;
      sortedTimeSlots := [];
      sortedSchedules := [];
      SortedViewEmpty();
    }

    /** handleNextPage. The render disables the button on the last page; the
        handler itself does not check. */
    method HandleNextPage()
      modifies this`currentPage, this`isPageInputActive, this`pageInputValue
      ensures currentPage == old(currentPage) + 1 && !isPageInputActive && pageInputValue == ""
    {
      currentPage := currentPage + 1;
      isPageInputActive := false;
      pageInputValue := "";
    }

    /** handlePreviousPage: with the page box open it only closes the box. */
    method HandlePreviousPage()
      modifies this`currentPage, this`isPageInputActive, this`pageInputValue
      ensures !old(isPageInputActive) ==> currentPage == old(currentPage) - 1 && pageInputValue == old(pageInputValue)
      ensures old(isPageInputActive) ==> currentPage == old(currentPage) && pageInputValue == ""
      ensures !isPageInputActive
    {
      if !isPageInputActive {
        currentPage := currentPage - 1;
      } else {
        isPageInputActive := false;
        pageInputValue := "";
      }
    }

    /** handlePageInputToggle. */
    method HandlePageInputToggle()
      modifies this`isPageInputActive, this`pageInputValue
      ensures isPageInputActive == !old(isPageInputActive) && pageInputValue == ""
    {
      isPageInputActive := !isPageInputActive;
      pageInputValue := "";
    }

    /** handlePageInputChange. */
    method HandlePageInputChange(value: string)
      modifies this`pageInputValue
      ensures pageInputValue == value
    {
      pageInputValue := value;
    }

    /** handleJumpToPage: the typed one-based page number, bounded by the
        Timeslots view's page count whichever view is shown; the page box is
        closed either way. */
    method HandleJumpToPage()
      modifies this`currentPage, this`isPageInputActive, this`pageInputValue
      ensures currentPage == JumpTarget(old(pageInputValue), |sortedTimeSlots|).GetOr(old(currentPage))
      ensures !isPageInputActive && pageInputValue == ""
    {
      var totalPages := TotalPages(|sortedTimeSlots|);
      var pageNumber := ParseInt(pageInputValue);
      if pageNumber.Some? && pageNumber.value >= 1 && pageNumber.value <= totalPages {
        currentPage := pageNumber.value - 1;
      }
      isPageInputActive := false;
      pageInputValue := "";
    }

    /** handleViewChange: the other view, from its first page. */
    method HandleViewChange()
      modifies this`toggleView, this`currentPage, this`sortedTimeSlots, this`sortedSchedules
      requires Valid()
      ensures Valid()
      ensures toggleView == (if old(toggleView) == Timeslots then Schedules else Timeslots) && currentPage == 0
    {
      toggleView := if toggleView == Timeslots then Schedules else Timeslots;
      currentPage := 0;
      SortSchedules();
    }

    /** componentDidMount, once the channel's payload has arrived: the
        schedules are read from it with the slots that ended by `now`
        dropped, and the modes are taken over. */
    method LoadPayload(payload: seq<WireSchedule>, payloadModes: seq<ModeSpec>, now: int)
      modifies this`schedules, this`modes, this`sortedTimeSlots, this`sortedSchedules
      ensures Valid()
      ensures schedules == Deserialise(payload, now) && modes == payloadModes
    {
      schedules := Deserialise(payload, now);
      modes := payloadModes;
      SortSchedules();
    }

    /** The `schedules` list `pushChanges` posts. */
    function PushPayload(): (r: seq<WireSchedule>)
      reads this
      ensures |r| == |schedules|
    {
      Serialise(schedules)
    }
  }

  /** The Schedules-view conflict loop over the occurrences of an advancing
      rule, left at the first conflict. */
  method ScanRule(snap: seq<Schedule>, editScheduleName: string, startDate: int, endDate: int, step: int, duration: int)
    returns (conflict: bool)
    requires step > 0
    ensures conflict == RuleConflicts(snap, editScheduleName, Occurrences(startDate, endDate, step), duration)
  {
    var currentDate := startDate;
    ghost var visited: seq<int> := [];
    while currentDate <= endDate
      invariant Occurrences(startDate, endDate, step) == visited + Occurrences(currentDate, endDate, step)
      invariant !RuleConflicts(snap, editScheduleName, visited, duration)
      decreases endDate - currentDate
    {
      var hit := ScanSchedules(snap, Some(editScheduleName), currentDate, currentDate + duration);
      ConflictsIffScan(snap, Some(editScheduleName), currentDate, currentDate + duration);
      RuleConflictsSnoc(snap, editScheduleName, visited, currentDate, duration);
      OccurrencesStep(visited, currentDate, endDate, step);
      if hit.Some? {
        RuleConflictsPrefix(snap, editScheduleName, visited + [currentDate], Occurrences(currentDate + step, endDate, step), duration);
        return true;
      }
      visited := visited + [currentDate];
      currentDate := currentDate + step;
    }
    assert visited + [] == visited;
    return false;
  }

  /** The Schedules-view edit's update: every schedule carrying the target's
      name is rebuilt with updateTimeslots, with the shadowed (undefined)
      mode object, so fresh slots get the default mode. */
  method RebuildNamed(snap: seq<Schedule>, targetName: string, newName: string, newFrequency: string,
                      start: int, end: int, duration: int) returns (r: seq<Schedule>)
    requires RegenerationTerminates(start, end, newFrequency)
    ensures r == EditScheduleIn(snap, targetName, newName, newFrequency, start, end, duration)
  {
    r := [];
    var i := 0;
    while i < |snap|
      invariant 0 <= i <= |snap|
      invariant |r| == i
      invariant forall k :: 0 <= k < i ==> r[k] == EditScheduleIn(snap, targetName, newName, newFrequency, start, end, duration)[k]
    {
      var schedule := snap[i];
      if schedule.name == targetName {
        var updatedTimeslots := UpdateTimeslots(schedule.timeSlots, start, end, duration, newFrequency, DefaultMode);
        r := r + [schedule.(name := newName, frequency := newFrequency, startTime := start, endTime := end,
                            duration := duration, mode := None, timeSlots := updatedTimeslots)];
      } else {
        r := r + [schedule];
      }
      i := i + 1;
    }
  }
}
