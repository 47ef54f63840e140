/** The device side of the scheduler, doover_scheduler.py: the `Schedule` and
    `Timeslot` records read from the `schedules` channel, and the
    `ScheduleController` that keeps them with every slot in start order,
    answers which slot is current and which comes next, and prunes the slots
    that have ended. Instants are the wire's epoch seconds; `now` stands for
    `time.time()`. */
module Controller {
  import opened Common
  import opened Sorting
  import opened Wire

  /** A `Timeslot`: `mode` is the mode's type, `modeParams` the whole mode. */
  datatype Timeslot = Timeslot(startTime: real, endTime: real, duration: real, edited: int,
                               mode: string, modeParams: Mode)

  /** A `Schedule`. */
  datatype Schedule = Schedule(
    name: string,
    frequency: string,
    startTime: real,
    endTime: real,
    duration: real,
    edited: int,
    mode: string,
    modeParams: Mode,
    timeslots: seq<Timeslot>)

  function SlotStart(t: Timeslot): real { t.startTime }

  // ---------------------------------------------------------------------
  // The records

  /** `Schedule(...)`: the constructor sorts the slots it is given by start
      time, in place and stably. */
  function NewSchedule(name: string, frequency: string, startTime: real, endTime: real, duration: real,
                       edited: int, mode: string, modeParams: Mode, timeslots: seq<Timeslot>): (s: Schedule)
    ensures SortedBy(s.timeslots, SlotStart) && multiset(s.timeslots) == multiset(timeslots)
    ensures s.(timeslots := timeslots) == Schedule(name, frequency, startTime, endTime, duration, edited,
                                                   mode, modeParams, timeslots)
  {
    SortByPermutes(timeslots, SlotStart);
    Schedule(name, frequency, startTime, endTime, duration, edited, mode, modeParams, SortBy(timeslots, SlotStart))
  }

  /** `Schedule.__eq__`: name, start, end, duration and mode type agree. */
  predicate SameSchedule(a: Schedule, b: Schedule) {
    && a.name == b.name
    && a.startTime == b.startTime
    && a.endTime == b.endTime
    && a.duration == b.duration
    && a.mode == b.mode
  }

  /** Equality ignores the slots, `edited`, the frequency and the mode's
      parameters: two schedules are equal exactly when they differ in
      nothing else. */
  lemma SameScheduleIgnores(a: Schedule, b: Schedule)
    ensures SameSchedule(a, b)
        <==> a.(timeslots := b.timeslots, edited := b.edited, frequency := b.frequency, modeParams := b.modeParams) == b
  {
  }

  /** `Timeslot.from_data`; reading `data["mode"]["type"]` raises when the
      mode has no type. */
  function TimeslotFromData(w: WireTimeslot): (r: Option<Timeslot>)
    ensures r.Some? <==> "type" in w.mode
    ensures r.Some? ==> && r.value.mode == w.mode["type"] && r.value.modeParams == w.mode
                        && r.value.startTime == w.startTime && r.value.endTime == w.endTime
                        && r.value.duration == w.duration && r.value.edited == w.edited
  {
    if "type" in w.mode then Some(Timeslot(w.startTime, w.endTime, w.duration, w.edited, w.mode["type"], w.mode))
    else None
  }

  /** `[Timeslot.from_data(ts) for ts in data["timeslots"]]`: the first slot
      that cannot be read raises. */
  function TimeslotsFromData(ws: seq<WireTimeslot>): (r: Option<seq<Timeslot>>)
    ensures r.Some? <==> forall k :: 0 <= k < |ws| ==> TimeslotFromData(ws[k]).Some?
    ensures r.Some? ==> |r.value| == |ws| && forall k :: 0 <= k < |ws| ==> Some(r.value[k]) == TimeslotFromData(ws[k])
  {
    if ws == [] then Some([])
    else match (TimeslotFromData(ws[0]), TimeslotsFromData(ws[1..]))
      case (Some(t), Some(rest)) => Some([t] + rest)
      case _ =>
        assert forall k :: 0 <= k < |ws| - 1 ==> ws[1..][k] == ws[k + 1];
        None
  }

  /** `Schedule.from_data`. A mode left out of the record (the component
      drops an undefined one) or without a type raises, as does any slot
      that cannot be read. */
  function ScheduleFromData(w: WireSchedule): (r: Option<Schedule>)
    ensures r.Some? <==> && w.mode.Some? && "type" in w.mode.value
                         && forall k :: 0 <= k < |w.timeslots| ==> "type" in w.timeslots[k].mode
    ensures r.Some? ==> && r.value.name == w.scheduleName && r.value.frequency == w.frequency
                        && r.value.startTime == w.startTime && r.value.endTime == w.endTime
                        && r.value.duration == w.duration && r.value.edited == w.edited
                        && r.value.mode == w.mode.value["type"] && r.value.modeParams == w.mode.value
                        && SortedBy(r.value.timeslots, SlotStart)
                        && multiset(r.value.timeslots) == multiset(TimeslotsFromData(w.timeslots).value)
  {
    match (w.mode, TimeslotsFromData(w.timeslots))
    case (Some(m), Some(slots)) =>
      if "type" in m then
        Some(NewSchedule(w.scheduleName, w.frequency, w.startTime, w.endTime, w.duration, w.edited,
                         m["type"], m, slots))
      else None
    case _ => None
  }

  /** `[Schedule.from_data(s) for s in data.get("schedules", [])]`. */
  function SchedulesFromData(ws: seq<WireSchedule>): (r: Option<seq<Schedule>>)
    ensures r.Some? <==> forall i :: 0 <= i < |ws| ==> ScheduleFromData(ws[i]).Some?
    ensures r.Some? ==> |r.value| == |ws| && forall i :: 0 <= i < |ws| ==> Some(r.value[i]) == ScheduleFromData(ws[i])
  {
    if ws == [] then Some([])
    else match (ScheduleFromData(ws[0]), SchedulesFromData(ws[1..]))
      case (Some(s), Some(rest)) => Some([s] + rest)
      case _ =>
        assert forall i :: 0 <= i < |ws| - 1 ==> ws[1..][i] == ws[i + 1];
        None
  }

  // ---------------------------------------------------------------------
  // The slot queries

  /** `itertools.chain.from_iterable(s.timeslots for s in schedules)`. */
  function AllSlots(schedules: seq<Schedule>): seq<Timeslot> {
    if schedules == [] then [] else schedules[0].timeslots + AllSlots(schedules[1..])
  }

  /** The slots of every schedule, in start order. */
  function SortedSlots(schedules: seq<Schedule>): seq<Timeslot> {
    SortBy(AllSlots(schedules), SlotStart)
  }

  lemma {:induction false} AllSlotsMembers(schedules: seq<Schedule>, t: Timeslot)
    ensures t in AllSlots(schedules) <==> exists i :: 0 <= i < |schedules| && t in schedules[i].timeslots
  {
    if schedules != [] {
      AllSlotsMembers(schedules[1..], t);
      if exists i :: 0 <= i < |schedules| && t in schedules[i].timeslots {
        var i :| 0 <= i < |schedules| && t in schedules[i].timeslots;
        if i > 0 {
          assert schedules[1..][i - 1] == schedules[i];
        }
      }
      if exists i :: 0 <= i < |schedules[1..]| && t in schedules[1..][i].timeslots {
        var i :| 0 <= i < |schedules[1..]| && t in schedules[1..][i].timeslots;
        assert schedules[i + 1] == schedules[1..][i];
      }
    }
  }

  /** The controller's `sorted_slots` hold every slot of every schedule,
      each as often as the schedules hold it, in ascending start order. */
  lemma SortedSlotsShape(schedules: seq<Schedule>)
    ensures var r := SortedSlots(schedules);
      && SortedBy(r, SlotStart)
      && multiset(r) == multiset(AllSlots(schedules))
      && forall t :: t in r <==> exists i :: 0 <= i < |schedules| && t in schedules[i].timeslots
  {
    SortByPermutes(AllSlots(schedules), SlotStart);
    SortByMembers(AllSlots(schedules), SlotStart);
    forall t ensures t in SortedSlots(schedules) <==> exists i :: 0 <= i < |schedules| && t in schedules[i].timeslots {
      AllSlotsMembers(schedules, t);
    }
  }

  /** `current_timeslot`: the first slot in start order, unless it has not
      started yet. Whether it has already ended is not looked at. */
  function CurrentOf(sorted: seq<Timeslot>, now: real): Option<Timeslot> {
    if sorted == [] then None
    else if sorted[0].startTime > now then None
    else Some(sorted[0])
  }

  /** Over slots in start order, there is a current slot exactly when some
      slot has started, and it is one with the earliest start. */
  lemma CurrentIsEarliest(sorted: seq<Timeslot>, now: real)
    requires SortedBy(sorted, SlotStart)
    ensures var r := CurrentOf(sorted, now);
      && (r.Some? <==> exists k :: 0 <= k < |sorted| && sorted[k].startTime <= now)
      && (r.Some? ==> r.value in sorted && r.value.startTime <= now
                      && forall k :: 0 <= k < |sorted| ==> r.value.startTime <= sorted[k].startTime)
  {
    if sorted != [] && sorted[0].startTime > now {
      forall k | 0 <= k < |sorted| ensures sorted[k].startTime > now {
        assert k == 0 || SlotStart(sorted[0]) <= SlotStart(sorted[k]);
      }
    }
    if sorted != [] {
      forall k | 0 <= k < |sorted| ensures sorted[0].startTime <= sorted[k].startTime {
        assert k == 0 || SlotStart(sorted[0]) <= SlotStart(sorted[k]);
      }
    }
  }

  /** The slot `current_timeslot` reports may already be over: a slot from
      0 to 10 is still current at 20. */
  lemma CurrentMayHaveEnded()
    ensures var t := Timeslot(0.0, 10.0, 10.0 / 3600.0, 0, "", DefaultMode);
      CurrentOf([t], 20.0) == Some(t) && t.endTime < 20.0
  {
  }

  /** `next_timeslot`'s search: the first slot, in the order held, that
      starts after `now`; a slot that has started is never returned. */
  method NextOf(sorted: seq<Timeslot>, now: real) returns (r: Option<Timeslot>)
    ensures r.Some? ==> exists k :: (0 <= k < |sorted| && sorted[k] == r.value && r.value.startTime > now
                                     && forall j :: 0 <= j < k ==> sorted[j].startTime <= now)
    ensures r.None? <==> forall k :: 0 <= k < |sorted| ==> sorted[k].startTime <= now
  {
    var k := 0;
    while k < |sorted|
      invariant 0 <= k <= |sorted|
      invariant forall j :: 0 <= j < k ==> sorted[j].startTime <= now
    {
      if sorted[k].startTime > now {
        return Some(sorted[k]);
      }
      k := k + 1;
    }
    return None;
  }

  /** Over slots in start order, the first to start after `now` has the
      least start of all those that do. */
  lemma NextIsSoonest(sorted: seq<Timeslot>, now: real, k: nat)
    requires SortedBy(sorted, SlotStart) && k < |sorted| && sorted[k].startTime > now
    requires forall j :: 0 <= j < k ==> sorted[j].startTime <= now
    ensures forall j :: 0 <= j < |sorted| && sorted[j].startTime > now ==> sorted[k].startTime <= sorted[j].startTime
  {
    forall j | 0 <= j < |sorted| && sorted[j].startTime > now ensures sorted[k].startTime <= sorted[j].startTime {
      if j > k {
        assert SlotStart(sorted[k]) <= SlotStart(sorted[j]);
      }
    }
  }

  // ---------------------------------------------------------------------
  // Clearing expired slots

  /** The test a slot is kept by: `n["end_time"] >= time.time()`. */
  function Unexpired(now: real): WireTimeslot -> bool {
    (n: WireTimeslot) => n.endTime >= now
  }

  function PruneSlots(s: WireSchedule, now: real): WireSchedule {
    s.(timeslots := Filter(s.timeslots, Unexpired(now)))
  }

  function PrunedAll(ws: seq<WireSchedule>, now: real): (r: seq<WireSchedule>)
    ensures |r| == |ws| && forall i :: 0 <= i < |ws| ==> r[i] == PruneSlots(ws[i], now)
  {
    seq(|ws|, i requires 0 <= i < |ws| => PruneSlots(ws[i], now))
  }

  predicate HasSlots(s: WireSchedule) { |s.timeslots| > 0 }

  /** The schedules `clear_expired_timeslots` publishes. */
  function Cleared(ws: seq<WireSchedule>, now: real): seq<WireSchedule> {
    Filter(PrunedAll(ws, now), HasSlots)
  }

  /** Clearing keeps exactly the slots that have not ended, each in its
      schedule and in order, and keeps a schedule exactly when one of its
      slots is left, with its other fields unchanged. */
  lemma ClearedShape(ws: seq<WireSchedule>, now: real)
    ensures var r := Cleared(ws, now);
      && (forall i :: 0 <= i < |r| ==>
            (|r[i].timeslots| > 0 && forall k :: 0 <= k < |r[i].timeslots| ==> r[i].timeslots[k].endTime >= now))
      && (forall s :: s in r <==> exists i :: 0 <= i < |ws| && s == PruneSlots(ws[i], now) && HasSlots(s))
      && (forall i, t :: 0 <= i < |ws| && t in ws[i].timeslots && t.endTime >= now ==> PruneSlots(ws[i], now) in r)
  {
    var pruned := PrunedAll(ws, now);
    var r := Cleared(ws, now);
    forall i | 0 <= i < |r| ensures forall k :: 0 <= k < |r[i].timeslots| ==> r[i].timeslots[k].endTime >= now {
      var j :| 0 <= j < |pruned| && pruned[j] == r[i];
    }
    forall s ensures s in r <==> exists i :: 0 <= i < |ws| && s == PruneSlots(ws[i], now) && HasSlots(s) {
      if s in r {
        var j :| 0 <= j < |pruned| && pruned[j] == s;
      }
      if exists i :: 0 <= i < |ws| && s == PruneSlots(ws[i], now) && HasSlots(s) {
        var i :| 0 <= i < |ws| && s == PruneSlots(ws[i], now) && HasSlots(s);
        assert pruned[i] == s;
      }
    }
    forall i, t | 0 <= i < |ws| && t in ws[i].timeslots && t.endTime >= now ensures PruneSlots(ws[i], now) in r {
      var k :| 0 <= k < |ws[i].timeslots| && ws[i].timeslots[k] == t;
      assert t in PruneSlots(ws[i], now).timeslots;
      assert pruned[i] == PruneSlots(ws[i], now);
    }
  }

  /** `clear_expired_timeslots` on the channel's aggregate `current`: each
      record's `timeslots` is rewritten in turn, then the records left
      without slots are dropped. The publish is left to the caller. */
  method ClearExpiredTimeslots(current: seq<WireSchedule>, now: real) returns (schedules: seq<WireSchedule>)
    ensures schedules == Cleared(current, now)
  {
    var records := current;
    var i := 0;
    while i < |records|
      invariant 0 <= i <= |records| == |current|
      invariant forall j :: 0 <= j < i ==> records[j] == PruneSlots(current[j], now)
      invariant forall j :: i <= j < |records| ==> records[j] == current[j]
    {
      var s := records[i];
      records := records[i := s.(timeslots := Filter(s.timeslots, Unexpired(now)))];
      i := i + 1;
    }
    assert records == PrunedAll(current, now);
    schedules := Filter(records, HasSlots);
  }

  // ---------------------------------------------------------------------
  // The controller

  /** A function handed to `register`, with the flags its decorators set. */
  datatype Callback = Callback(id: nat, onUpdate: bool, onStart: bool, onEnd: bool)

  predicate IsUpdate(c: Callback) { c.onUpdate }
  predicate IsStart(c: Callback) { c.onStart }
  predicate IsEnd(c: Callback) { c.onEnd }

  lemma FilterSnoc<T>(s: seq<T>, x: T, p: T -> bool)
    ensures Filter(s + [x], p) == Filter(s, p) + (if p(x) then [x] else [])
  {
    FilterAppend(s, [x], p);
    assert Filter([x], p) == (if p(x) then [x] else []) + Filter([], p);
  }

  /** The callbacks selected by `p`, built one registration at a time from
      the front: the shape `register`'s loop follows. */
  ghost function Joined(cbs: seq<Callback>, p: Callback -> bool): seq<Callback>
  {
    if cbs == [] then []
    else Joined(cbs[..|cbs| - 1], p) + (if p(cbs[|cbs| - 1]) then [cbs[|cbs| - 1]] else [])
  }

  /** Registering one at a time selects exactly what filtering selects. */
  lemma {:induction false} JoinedIsFilter(cbs: seq<Callback>, p: Callback -> bool)
    ensures Joined(cbs, p) == Filter(cbs, p)
  {
    if cbs != [] {
      var init := cbs[..|cbs| - 1];
      JoinedIsFilter(init, p);
      assert cbs == init + [cbs[|cbs| - 1]];
      FilterSnoc(init, cbs[|cbs| - 1], p);
    }
  }

  /** How a channel update ended: no data, a record that could not be read
      (the exception leaves the state as it was), or new schedules. */
  datatype UpdateOutcome = NoData | Unreadable | Updated

  /** The channel's payload: `schedules` may be absent. */
  datatype ChannelData = ChannelData(schedules: Option<seq<WireSchedule>>)

  class ScheduleController {
    var schedules: seq<Schedule>
    var sortedSlots: seq<Timeslot>
    var updateCallbacks: seq<Callback>
    var onStartCallbacks: seq<Callback>
    var onEndCallbacks: seq<Callback>

    /** `sorted_slots` is always the schedules' slots in start order. */
    predicate Valid()
      reads this
    {
      sortedSlots == SortedSlots(schedules)
    }

    constructor ()
      ensures Valid() && schedules == [] && sortedSlots == []
      ensures updateCallbacks == [] && onStartCallbacks == [] && onEndCallbacks == []
    {
      schedules := [];
      sortedSlots := [];
      updateCallbacks, onStartCallbacks, onEndCallbacks := [], [], [];
    }

    /** `_on_schedule_update`. With no data nothing happens; a record that
        cannot be read raises before anything is assigned; otherwise the
        schedules are replaced, the slots re-sorted, and the update
        callbacks are returned in registration order to be called. */
    method OnScheduleUpdate(data: Option<ChannelData>) returns (outcome: UpdateOutcome, called: seq<Callback>)
      requires Valid()
      modifies this`schedules, this`sortedSlots
      ensures Valid()
      ensures outcome == NoData <==> data.None?
      ensures outcome == Unreadable <==> data.Some? && SchedulesFromData(data.value.schedules.GetOr([])).None?
      ensures outcome != Updated ==> schedules == old(schedules) && called == []
      ensures outcome == Updated ==> Some(schedules) == SchedulesFromData(data.value.schedules.GetOr([]))
                                     && called == updateCallbacks
    {
      called := [];
      if data.None? {
        return NoData, called;
      }
      var parsed := SchedulesFromData(data.value.schedules.GetOr([]));
      if parsed.None? {
        return Unreadable, called;
      }
      schedules := parsed.value;
      var slots := AllSlots(schedules);
      sortedSlots := SortBy(slots, SlotStart);
      called := updateCallbacks;
      outcome := Updated;
    }

    /** `current_timeslot` at `now`. */
    function CurrentTimeslot(now: real): Option<Timeslot>
      reads this
    {
      CurrentOf(sortedSlots, now)
    }

    /** `next_timeslot` at `now`: the first slot in start order that has not
        started, which is the soonest of those to start. */
    method NextTimeslot(now: real) returns (r: Option<Timeslot>)
      requires Valid()
      ensures r.Some? ==> exists k :: (0 <= k < |sortedSlots| && sortedSlots[k] == r.value && r.value.startTime > now
                                       && forall j :: 0 <= j < k ==> sortedSlots[j].startTime <= now)
      ensures r.Some? ==> forall j :: 0 <= j < |sortedSlots| && sortedSlots[j].startTime > now ==>
                            r.value.startTime <= sortedSlots[j].startTime
      ensures r.None? <==> forall k :: 0 <= k < |sortedSlots| ==> sortedSlots[k].startTime <= now
    {
      r := NextOf(sortedSlots, now);
      if r.Some? {
        var k :| 0 <= k < |sortedSlots| && sortedSlots[k] == r.value && r.value.startTime > now
                 && forall j :: 0 <= j < k ==> sortedSlots[j].startTime <= now;
        SortedSlotsShape(schedules);
        NextIsSoonest(sortedSlots, now, k);
      }
    }

    /** One pass of `main_loop`: with slots held and the first in start order
        ended, the channel's aggregate `current` is cleared and the result
        returned for publishing; otherwise nothing is done. */
    method MainLoop(now: real, current: seq<WireSchedule>) returns (published: Option<seq<WireSchedule>>)
      ensures published.Some? <==> |sortedSlots| > 0 && sortedSlots[0].endTime < now
      ensures published.Some? ==> published.value == Cleared(current, now)
    {
      if |sortedSlots| == 0 {
        return None;
      }
      var nextSlot := sortedSlots[0];
      if nextSlot.endTime < now {
        var cleared := ClearExpiredTimeslots(current, now);
        return Some(cleared);
      }
      return None;
    }

    method AddUpdateCallback(callback: Callback)
      modifies this`updateCallbacks
      ensures updateCallbacks == old(updateCallbacks) + [callback]
    {
      updateCallbacks := updateCallbacks + [callback];
    }

    method AddOnStartCallback(callback: Callback)
      modifies this`onStartCallbacks
      ensures onStartCallbacks == old(onStartCallbacks) + [callback]
    {
      onStartCallbacks := onStartCallbacks + [callback];
    }

    method AddOnEndCallback(callback: Callback)
      modifies this`onEndCallbacks
      ensures onEndCallbacks == old(onEndCallbacks) + [callback]
    {
      onEndCallbacks := onEndCallbacks + [callback];
    }

    /** The body of `register`'s loop: the callback joins the lists whose
        flags it carries. */
    method RegisterOne(cb: Callback)
      modifies this`updateCallbacks, this`onStartCallbacks, this`onEndCallbacks
      ensures updateCallbacks == old(updateCallbacks) + (if cb.onUpdate then [cb] else [])
      ensures onStartCallbacks == old(onStartCallbacks) + (if cb.onStart then [cb] else [])
      ensures onEndCallbacks == old(onEndCallbacks) + (if cb.onEnd then [cb] else [])
    {
      if cb.onUpdate {
        AddUpdateCallback(cb);
      }
      if cb.onStart {
        AddOnStartCallback(cb);
      }
      if cb.onEnd {
        AddOnEndCallback(cb);
      }
    }

    /** `register`: each callback joins every list whose flag it carries, in
        the order given; one without flags joins none. */
    method Register(callbacks: seq<Callback>)
      modifies this`updateCallbacks, this`onStartCallbacks, this`onEndCallbacks
      ensures updateCallbacks == old(updateCallbacks) + Filter(callbacks, IsUpdate)
      ensures onStartCallbacks == old(onStartCallbacks) + Filter(callbacks, IsStart)
      ensures onEndCallbacks == old(onEndCallbacks) + Filter(callbacks, IsEnd)
    {
      var k := 0;
      while k < |callbacks|
        invariant 0 <= k <= |callbacks|
        invariant updateCallbacks == old(updateCallbacks) + Joined(callbacks[..k], IsUpdate)
        invariant onStartCallbacks == old(onStartCallbacks) + Joined(callbacks[..k], IsStart)
        invariant onEndCallbacks == old(onEndCallbacks) + Joined(callbacks[..k], IsEnd)
      {
        var cb := callbacks[k];
        assert callbacks[..k + 1][..k] == callbacks[..k];
        RegisterOne(cb);
        k := k + 1;
      }
      assert callbacks[..|callbacks|] == callbacks;
      JoinedIsFilter(callbacks, IsUpdate);
      JoinedIsFilter(callbacks, IsStart);
      JoinedIsFilter(callbacks, IsEnd);
    }
  }

  /** `main_loop` looks only at the slot that starts first: a slot that has
      ended does not trigger clearing while an earlier-starting slot is still
      running. */
  lemma MainLoopSeesFirstOnly()
    ensures var long := Timeslot(0.0, 100.0, 100.0 / 3600.0, 0, "", DefaultMode);
      var short := Timeslot(10.0, 20.0, 10.0 / 3600.0, 0, "", DefaultMode);
      var sorted := [long, short];
      SortedBy(sorted, SlotStart) && short.endTime < 50.0 && !(sorted[0].endTime < 50.0)
  {
  }
}
