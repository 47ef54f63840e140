/** The recurrence, collision and merge engine of the scheduler component
    (src/SchedulerComponent.js), as functions over the list of schedules.
    The component's handlers are proved against these definitions; the
    properties the handlers promise are lemmas in module EngineProperties. */
module Engine {
  import opened Common
  import opened Sorting

  /** One occurrence: start instant and duration in milliseconds, the
      `edited` flag (0 or 1) and the mode payload. */
  datatype TimeSlot = TimeSlot(startTime: int, duration: int, edited: int, mode: Mode)

  /** A named recurrence group owning its slots. `mode` is `None` when the
      component stored `undefined` there. */
  datatype Schedule = Schedule(
    name: string,
    frequency: string,
    startTime: int,
    endTime: int,
    duration: int,
    mode: Option<Mode>,
    edited: int,
    timeSlots: seq<TimeSlot>)

  function SlotEnd(t: TimeSlot): int { t.startTime + t.duration }

  // ---------------------------------------------------------------------
  // Collision

  /** The component's collision test between a candidate `[cs, ce)` and an
      existing slot `[vs, ve)`, exactly as the handlers write it. */
  predicate Collides(cs: int, ce: int, vs: int, ve: int) {
    (cs <= vs && ce >= vs) || (cs < ve && ce >= ve)
  }

  predicate CollidesWith(t: TimeSlot, cs: int, ce: int) {
    Collides(cs, ce, t.startTime, SlotEnd(t))
  }

  /** The index of the first slot the candidate collides with. */
  function FirstCollision(slots: seq<TimeSlot>, cs: int, ce: int): (r: Option<nat>)
    ensures r.Some? ==> r.value < |slots| && CollidesWith(slots[r.value], cs, ce)
  {
    if slots == [] then None
    else if CollidesWith(slots[0], cs, ce) then Some(0)
    else match FirstCollision(slots[1..], cs, ce)
      case None => None
      case Some(k) => Some(k + 1)
  }

  /** The index found is the first colliding one, and there is none
      exactly when no slot collides. */
  lemma {:induction false} FirstCollisionIsFirst(slots: seq<TimeSlot>, cs: int, ce: int)
    ensures var r := FirstCollision(slots, cs, ce);
      && (r.Some? ==> forall k :: 0 <= k < r.value ==> !CollidesWith(slots[k], cs, ce))
      && (r.None? <==> forall k :: 0 <= k < |slots| ==> !CollidesWith(slots[k], cs, ce))
    decreases |slots|
  {
    if slots != [] && !CollidesWith(slots[0], cs, ce) {
      FirstCollisionIsFirst(slots[1..], cs, ce);
      forall k | 1 <= k < |slots| ensures slots[k] == slots[1..][k - 1] { }
    }
  }

  /** A slot position: schedule index, then slot index within it. */
  datatype SlotRef = SlotRef(sched: nat, slot: nat)

  /** Whether a scan skips schedule `s` (the edit of a whole schedule skips
      the schedules carrying the name typed into the dialog). */
  predicate Skipped(s: Schedule, exclude: Option<string>) {
    exclude == Some(s.name)
  }

  /** The first collision in schedule-then-slot order among the schedules
      that are not skipped. */
  function FirstCollisionAmong(snap: seq<Schedule>, exclude: Option<string>, cs: int, ce: int): (r: Option<SlotRef>)
    ensures r.Some? ==> (r.value.sched < |snap| && !Skipped(snap[r.value.sched], exclude)
                         && FirstCollision(snap[r.value.sched].timeSlots, cs, ce) == Some(r.value.slot))
  {
    if snap == [] then None
    else if !Skipped(snap[0], exclude) && FirstCollision(snap[0].timeSlots, cs, ce).Some? then
      Some(SlotRef(0, FirstCollision(snap[0].timeSlots, cs, ce).value))
    else match FirstCollisionAmong(snap[1..], exclude, cs, ce)
      case None => None
      case Some(r) => Some(SlotRef(r.sched + 1, r.slot))
  }

  /** The position found is in the first schedule, not skipped, with a
      collision, and there is none exactly when no such schedule exists. */
  lemma {:induction false} FirstCollisionAmongIsFirst(snap: seq<Schedule>, exclude: Option<string>, cs: int, ce: int)
    ensures var r := FirstCollisionAmong(snap, exclude, cs, ce);
      && (r.Some? ==> forall i :: 0 <= i < r.value.sched ==>
            Skipped(snap[i], exclude) || FirstCollision(snap[i].timeSlots, cs, ce).None?)
      && (r.None? <==> forall i :: 0 <= i < |snap| ==>
            Skipped(snap[i], exclude) || FirstCollision(snap[i].timeSlots, cs, ce).None?)
    decreases |snap|
  {
    if snap != [] && !(!Skipped(snap[0], exclude) && FirstCollision(snap[0].timeSlots, cs, ce).Some?) {
      FirstCollisionAmongIsFirst(snap[1..], exclude, cs, ce);
      forall i | 1 <= i < |snap| ensures snap[i] == snap[1..][i - 1] { }
    }
  }

  /** When every schedule before `i` is skipped or free of collisions and
      schedule `i` collides, the first collision is in schedule `i`. */
  lemma {:induction false} FirstCollisionAmongAt(snap: seq<Schedule>, exclude: Option<string>, cs: int, ce: int, i: nat)
    requires i < |snap| && !Skipped(snap[i], exclude) && FirstCollision(snap[i].timeSlots, cs, ce).Some?
    requires forall k :: 0 <= k < i ==> Skipped(snap[k], exclude) || FirstCollision(snap[k].timeSlots, cs, ce).None?
    ensures FirstCollisionAmong(snap, exclude, cs, ce) == Some(SlotRef(i, FirstCollision(snap[i].timeSlots, cs, ce).value))
    decreases i
  {
    if i > 0 {
      assert snap[1..][i - 1] == snap[i];
      forall k | 0 <= k < i - 1
        ensures Skipped(snap[1..][k], exclude) || FirstCollision(snap[1..][k].timeSlots, cs, ce).None?
      {
        assert snap[1..][k] == snap[k + 1];
      }
      FirstCollisionAmongAt(snap[1..], exclude, cs, ce, i - 1);
    }
  }

  /** Some slot of a schedule that is not skipped collides with the candidate. */
  predicate Conflicts(snap: seq<Schedule>, exclude: Option<string>, cs: int, ce: int) {
    exists i :: 0 <= i < |snap| && !Skipped(snap[i], exclude) && FirstCollision(snap[i].timeSlots, cs, ce).Some?
  }

  // ---------------------------------------------------------------------
  // Merging

  /** A pending replacement of the slot at `at` by `[start, start + duration)`. */
  datatype Merge = Merge(at: SlotRef, start: int, duration: int)

  /** The union span of the candidate `[cs, ce)` and the existing slot `v`. */
  function UnionMerge(at: SlotRef, v: TimeSlot, cs: int, ce: int): Merge {
    Merge(at, Min(cs, v.startTime), Max(ce, SlotEnd(v)) - Min(cs, v.startTime))
  }

  predicate Fits(snap: seq<Schedule>, at: SlotRef) {
    at.sched < |snap| && at.slot < |snap[at.sched].timeSlots|
  }

  predicate AllFit(snap: seq<Schedule>, ms: seq<Merge>) {
    forall k :: 0 <= k < |ms| ==> Fits(snap, ms[k].at)
  }

  predicate SameShape(a: seq<Schedule>, b: seq<Schedule>) {
    |a| == |b| && forall i :: 0 <= i < |a| ==> |a[i].timeSlots| == |b[i].timeSlots|
  }

  /** A one-off merge marks the slot edited; a recurring merge marks the
      owning schedule edited instead. */
  datatype MergeKind = MarkSlot | MarkSchedule

  function MergedSlot(t: TimeSlot, m: Merge, kind: MergeKind): TimeSlot {
    if kind == MarkSlot then t.(startTime := m.start, duration := m.duration, edited := 1)
    else t.(startTime := m.start, duration := m.duration)
  }

  /** One queued state update: copy the list, copy the schedule's slots,
      overwrite the slot at the merge's position. */
  function ApplyMerge(snap: seq<Schedule>, m: Merge, kind: MergeKind): (r: seq<Schedule>)
    requires Fits(snap, m.at)
    ensures SameShape(r, snap)
  {
    var s := snap[m.at.sched];
    var slots := s.timeSlots[m.at.slot := MergedSlot(s.timeSlots[m.at.slot], m, kind)];
    snap[m.at.sched := if kind == MarkSlot then s.(timeSlots := slots) else s.(timeSlots := slots, edited := 1)]
  }

  /** The queued updates applied in order, each to the result of the last. */
  function ApplyMerges(snap: seq<Schedule>, ms: seq<Merge>, kind: MergeKind): (r: seq<Schedule>)
    requires AllFit(snap, ms)
    ensures SameShape(r, snap)
    decreases |ms|
  {
    if ms == [] then snap
    else
      var prev := ApplyMerges(snap, ms[..|ms| - 1], kind);
      ApplyMerge(prev, ms[|ms| - 1], kind)
  }

  /** The first `k + 1` updates are the first `k` followed by update `k`. */
  lemma ApplyMergesPrefixStep(snap: seq<Schedule>, ms: seq<Merge>, kind: MergeKind, k: nat)
    requires AllFit(snap, ms) && k < |ms|
    ensures AllFit(snap, ms[..k]) && AllFit(snap, ms[..k + 1])
    ensures ApplyMerges(snap, ms[..k + 1], kind) == ApplyMerge(ApplyMerges(snap, ms[..k], kind), ms[k], kind)
  {
    assert ms[..k + 1][..k] == ms[..k];
  }

  // ---------------------------------------------------------------------
  // Creating (handleSave)

  datatype SaveError = PastStart | EmptyRange

  const PastStartMessage: string := "Start date cannot be more than 24 hours in the past."
  const EmptyRangeMessage: string := "End date must be after the start date for recurring schedules."

  /** The save dialog's validation. */
  function SaveRejection(now: int, startDate: int, endDate: int, frequency: Frequency): Option<SaveError> {
    if startDate < now - DayMs then Some(PastStart)
    else if frequency != Once && endDate <= startDate then Some(EmptyRange)
    else None
  }

  /** The merges of a one-off save: the scan visits every schedule, and a
      collision only ends the scan of the current schedule's slots, so each
      schedule contributes the merge of its first colliding slot, if any. */
  function OnceMerges(snap: seq<Schedule>, cs: int, ce: int): (ms: seq<Merge>)
    ensures AllFit(snap, ms)
    decreases |snap|
  {
    if snap == [] then []
    else
      var n := |snap| - 1;
      var earlier := OnceMerges(snap[..n], cs, ce);
      assert AllFit(snap, earlier) by {
        forall k | 0 <= k < |earlier| ensures Fits(snap, earlier[k].at) {
          assert Fits(snap[..n], earlier[k].at);
        }
      }
      match FirstCollision(snap[n].timeSlots, cs, ce)
      case None => earlier
      case Some(j) => earlier + [UnionMerge(SlotRef(n, j), snap[n].timeSlots[j], cs, ce)]
  }

  /** The schedule a collision-free one-off save appends. */
  function OnceSchedule(startDate: int, endDate: int, duration: int, mode: Mode): Schedule {
    Schedule("Once", "once", startDate, endDate, duration, Some(mode), 0,
             [TimeSlot(startDate, duration, 0, mode)])
  }

  /** What the recurring branch accumulates: merges queued for colliding
      occurrences, the slots of the new schedule, whether any occurrence has
      collided so far (`collideAsSuch`) and the new schedule's `edited`. */
  datatype Plan = Plan(merges: seq<Merge>, slots: seq<TimeSlot>, collided: bool, edited: int)

  /** The recurring branch over a prefix of the occurrences: the labelled
      break leaves both scan loops, so each occurrence merges at most once,
      into the first slot it collides with; a free occurrence becomes a slot
      of the new schedule, whose `edited` is reset to `collideAsSuch` each time. */
  function RecurringPlan(snap: seq<Schedule>, occs: seq<int>, duration: int, mode: Mode): (p: Plan)
    ensures AllFit(snap, p.merges)
    decreases |occs|
  {
    if occs == [] then Plan([], [], false, 0)
    else
      var p := RecurringPlan(snap, occs[..|occs| - 1], duration, mode);
      var c := occs[|occs| - 1];
      match FirstCollisionAmong(snap, None, c, c + duration)
      case Some(at) =>
        p.(merges := p.merges + [UnionMerge(at, snap[at.sched].timeSlots[at.slot], c, c + duration)],
           collided := true)
      case None =>
        p.(slots := p.slots + [TimeSlot(c, duration, 0, mode)], edited := if p.collided then 1 else 0)
  }

  /** The schedule list a validated save produces. Collisions are checked
      against the snapshot taken before any of the queued updates run. */
  function SaveSchedules(snap: seq<Schedule>, startDate: int, endDate: int, duration: int,
                         frequency: Frequency, scheduleName: string, mode: Mode): seq<Schedule>
  {
    if frequency == Once then
      var ms := OnceMerges(snap, startDate, startDate + duration);
      if ms == [] then snap + [OnceSchedule(startDate, endDate, duration, mode)]
      else ApplyMerges(snap, ms, MarkSlot)
    else
      var occs := Occurrences(startDate, endDate, StepOf(FrequencyName(frequency)));
      var p := RecurringPlan(snap, occs, duration, mode);
      var merged := ApplyMerges(snap, p.merges, MarkSchedule);
      if p.slots == [] then merged
      else merged + [Schedule(scheduleName, FrequencyName(frequency), startDate, endDate, duration,
                              Some(mode), p.edited, p.slots)]
  }

  // ---------------------------------------------------------------------
  // Regenerating a schedule's slots (updateTimeslots)

  /** `timeSlots.find(slot => slot.startTime === t)`. */
  function FindByStart(slots: seq<TimeSlot>, t: int): (r: Option<TimeSlot>)
    ensures r.Some? ==> r.value in slots && r.value.startTime == t
    ensures r.None? <==> forall k :: 0 <= k < |slots| ==> slots[k].startTime != t
  {
    if slots == [] then None
    else if slots[0].startTime == t then Some(slots[0])
    else FindByStart(slots[1..], t)
  }

  /** The slot for occurrence `t`: the prior slot starting at `t` if the first
      such is edited, otherwise a fresh slot with the new duration. */
  function RegeneratedSlot(prior: seq<TimeSlot>, t: int, duration: int, mode: Mode): TimeSlot {
    match FindByStart(prior, t)
    case Some(e) => if e.edited == 1 then TimeSlot(e.startTime, e.duration, 1, e.mode) else TimeSlot(t, duration, 0, mode)
    case None => TimeSlot(t, duration, 0, mode)
  }

  function RegeneratedSlots(prior: seq<TimeSlot>, occs: seq<int>, duration: int, mode: Mode): (r: seq<TimeSlot>)
    ensures |r| == |occs|
    ensures forall k :: 0 <= k < |occs| ==> r[k] == RegeneratedSlot(prior, occs[k], duration, mode)
  {
    seq(|occs|, k requires 0 <= k < |occs| => RegeneratedSlot(prior, occs[k], duration, mode))
  }

  /** Whether the rebuilt schedule still terminates its expansion loop. */
  predicate RegenerationTerminates(newStart: int, newEnd: int, newFrequency: string) {
    newFrequency == "once" || StepOf(newFrequency) > 0 || newStart > newEnd
  }

  /** The slots generated from the new rule. */
  function RuleSlots(prior: seq<TimeSlot>, newStart: int, newEnd: int, newDuration: int,
                     newFrequency: string, mode: Mode): seq<TimeSlot>
    requires RegenerationTerminates(newStart, newEnd, newFrequency)
  {
    if newFrequency == "once" then [TimeSlot(newStart, newDuration, 0, mode)]
    else RegeneratedSlots(prior, Occurrences(newStart, newEnd, StepOf(newFrequency)), newDuration, mode)
  }

  predicate OutsideWindow(t: TimeSlot, newStart: int, newEnd: int) {
    t.edited == 1 && (t.startTime < newStart || t.startTime > newEnd)
  }

  /** The edited prior slots outside `[newStart, newEnd]`, in their order. */
  function KeptEdited(prior: seq<TimeSlot>, newStart: int, newEnd: int): (r: seq<TimeSlot>)
    ensures forall k :: 0 <= k < |r| ==> r[k] in prior && OutsideWindow(r[k], newStart, newEnd)
    ensures forall k :: 0 <= k < |prior| && OutsideWindow(prior[k], newStart, newEnd) ==> prior[k] in r
    decreases |prior|
  {
    if prior == [] then []
    else
      var n := |prior| - 1;
      var earlier := KeptEdited(prior[..n], newStart, newEnd);
      if OutsideWindow(prior[n], newStart, newEnd) then earlier + [prior[n]] else earlier
  }

  function SlotKey(t: TimeSlot): real { t.startTime as real }

  /** updateTimeslots: the rule's slots and the kept edited slots, sorted
      by start time. */
  function Regenerate(prior: seq<TimeSlot>, newStart: int, newEnd: int, newDuration: int,
                      newFrequency: string, mode: Mode): seq<TimeSlot>
    requires RegenerationTerminates(newStart, newEnd, newFrequency)
  {
    SortBy(RuleSlots(prior, newStart, newEnd, newDuration, newFrequency, mode)
           + KeptEdited(prior, newStart, newEnd), SlotKey)
  }

  // ---------------------------------------------------------------------
  // The sorted views (sortSchedules)

  /** A row of the Timeslots view: a slot tagged with its schedule's name. */
  datatype SortedSlot = SortedSlot(scheduleName: string, slot: TimeSlot)

  /** `schedule.name || 'Unnamed Schedule'`. */
  function DisplayName(name: string): string {
    if name == "" then "Unnamed Schedule" else name
  }

  function Tag(s: Schedule): (r: seq<SortedSlot>)
    ensures |r| == |s.timeSlots|
    ensures forall j :: 0 <= j < |r| ==> r[j] == SortedSlot(DisplayName(s.name), s.timeSlots[j])
  {
    seq(|s.timeSlots|, j requires 0 <= j < |s.timeSlots| => SortedSlot(DisplayName(s.name), s.timeSlots[j]))
  }

  /** All slots of all schedules, tagged, schedule by schedule. */
  function Tagged(snap: seq<Schedule>): seq<SortedSlot>
    decreases |snap|
  {
    if snap == [] then [] else Tagged(snap[..|snap| - 1]) + Tag(snap[|snap| - 1])
  }

  function SortedSlotKey(r: SortedSlot): real { r.slot.startTime as real }

  /** The Timeslots view: every slot, tagged, in ascending start order. */
  function SortedView(snap: seq<Schedule>): seq<SortedSlot> {
    SortBy(Tagged(snap), SortedSlotKey)
  }

  // ---------------------------------------------------------------------
  // Editing (handleEditSave)

  const EditConflictMessage: string := "editing in this way would cause a conflict. Please try again"

  /** Timeslots view: in the schedules carrying the row's name, every slot
      starting at the row's start is replaced, and those schedules are marked
      edited. */
  function EditSlotIn(snap: seq<Schedule>, name: string, oldStart: int, newSlot: TimeSlot): (r: seq<Schedule>)
    ensures |r| == |snap|
  {
    seq(|snap|, i requires 0 <= i < |snap| =>
      if snap[i].name == name then
        snap[i].(timeSlots := seq(|snap[i].timeSlots|, j requires 0 <= j < |snap[i].timeSlots| =>
                   if snap[i].timeSlots[j].startTime == oldStart then newSlot else snap[i].timeSlots[j]),
                 edited := 1)
      else snap[i])
  }

  /** Some occurrence of the edited rule collides with a slot of a schedule
      not carrying the typed name. */
  predicate RuleConflicts(snap: seq<Schedule>, exclude: string, occs: seq<int>, duration: int) {
    exists k :: 0 <= k < |occs| && Conflicts(snap, Some(exclude), occs[k], occs[k] + duration)
  }

  /** Extending the occurrence list by one conflicts exactly when the list
      did or the new occurrence does. */
  lemma RuleConflictsSnoc(snap: seq<Schedule>, exclude: string, occs: seq<int>, c: int, duration: int)
    ensures RuleConflicts(snap, exclude, occs + [c], duration)
        <==> RuleConflicts(snap, exclude, occs, duration) || Conflicts(snap, Some(exclude), c, c + duration)
  {
    var e := occs + [c];
    assert e[|occs|] == c;
    assert forall k :: 0 <= k < |occs| ==> e[k] == occs[k];
    if RuleConflicts(snap, exclude, occs, duration) {
      RuleConflictsPrefix(snap, exclude, occs, [c], duration);
    } else if Conflicts(snap, Some(exclude), c, c + duration) {
      assert Conflicts(snap, Some(exclude), e[|occs|], e[|occs|] + duration);
    } else {
      forall k | 0 <= k < |e|
        ensures !Conflicts(snap, Some(exclude), e[k], e[k] + duration)
      {
        if k < |occs| { assert e[k] == occs[k]; }
      }
    }
  }

  /** A conflict among the first occurrences is a conflict of the rule. */
  lemma RuleConflictsPrefix(snap: seq<Schedule>, exclude: string, occs: seq<int>, rest: seq<int>, duration: int)
    requires RuleConflicts(snap, exclude, occs, duration)
    ensures RuleConflicts(snap, exclude, occs + rest, duration)
  {
    var k :| 0 <= k < |occs| && Conflicts(snap, Some(exclude), occs[k], occs[k] + duration);
    assert (occs + rest)[k] == occs[k];
  }

  /** Schedules view: the schedule as the whole-schedule edit rebuilds it.
      The mode variable the handler uses there is an uninitialised shadow,
      so the schedule's mode becomes `undefined` and fresh slots get the
      default mode. */
  function RebuiltSchedule(s: Schedule, newName: string, newFrequency: string, start: int, end: int,
                           duration: int): Schedule
    requires RegenerationTerminates(start, end, newFrequency)
  {
    s.(name := newName, frequency := newFrequency, startTime := start, endTime := end,
       duration := duration, mode := None,
       timeSlots := Regenerate(s.timeSlots, start, end, duration, newFrequency, DefaultMode))
  }

  /** Schedules view: every schedule carrying the target's name is rebuilt. */
  function EditScheduleIn(snap: seq<Schedule>, targetName: string, newName: string, newFrequency: string,
                          start: int, end: int, duration: int): (r: seq<Schedule>)
    requires RegenerationTerminates(start, end, newFrequency)
    ensures |r| == |snap|
  {
    seq(|snap|, i requires 0 <= i < |snap| =>
      if snap[i].name == targetName then RebuiltSchedule(snap[i], newName, newFrequency, start, end, duration)
      else snap[i])
  }

  // ---------------------------------------------------------------------
  // Deleting (handleDelete)

  predicate NonEmpty(s: Schedule) { |s.timeSlots| > 0 }

  /** The test a slot survives a delete at `t` by. */
  function StartsOtherThan(t: int): TimeSlot -> bool {
    (x: TimeSlot) => x.startTime != t
  }

  /** One schedule after the `map` of the Timeslots-view delete: a schedule
      named `name` loses exactly its slots starting at `t`, keeping the
      others in order; any other schedule is untouched. */
  function Pruned(s: Schedule, name: string, t: int): (r: Schedule)
    ensures r == s.(timeSlots := r.timeSlots)
    ensures s.name != name ==> r == s
    ensures s.name == name ==> forall x :: x in r.timeSlots <==> x in s.timeSlots && x.startTime != t
  {
    if s.name == name then s.(timeSlots := Filter(s.timeSlots, StartsOtherThan(t))) else s
  }

  /** Timeslots view: drop every slot starting at `t` from the schedules
      named `name`, then drop every schedule left without slots. */
  function DeleteSlotIn(snap: seq<Schedule>, name: string, t: int): seq<Schedule> {
    Filter(seq(|snap|, i requires 0 <= i < |snap| => Pruned(snap[i], name, t)), NonEmpty)
  }

  /** Schedules view: drop every schedule named `name`. */
  function DeleteScheduleIn(snap: seq<Schedule>, name: string): seq<Schedule> {
    Filter(snap, (s: Schedule) => s.name != name)
  }
}
