/** The `schedules` channel end to end: what the browser component pushes
    (src/SchedulerComponent.js, `pushChanges`) is what the device-side
    controller reads (doover_scheduler.py, `_on_schedule_update`). */
module Pipeline {
  import opened Common
  import opened Wire
  import opened Engine
  import opened WireMapping
  import Controller

  /** Every mode the push writes carries a `type` key. */
  predicate ModesTyped(snap: seq<Schedule>) {
    forall i :: 0 <= i < |snap| ==>
      && snap[i].mode.Some? && "type" in snap[i].mode.value
      && forall j :: 0 <= j < |snap[i].timeSlots| ==> "type" in snap[i].timeSlots[j].mode
  }

  /** The controller accepts a pushed payload exactly when every schedule
      and every slot carries a typed mode; it then holds one schedule per
      pushed schedule, each with as many slots. */
  lemma ControllerReadsPush(snap: seq<Schedule>)
    ensures Controller.SchedulesFromData(Serialise(snap)).Some? <==> ModesTyped(snap)
    ensures var r := Controller.SchedulesFromData(Serialise(snap));
      r.Some? ==> (&& |r.value| == |snap|
                   && forall i :: 0 <= i < |snap| ==>
                        r.value[i].name == snap[i].name && |r.value[i].timeslots| == |snap[i].timeSlots|)
  {
    var ws := Serialise(snap);
    forall i | 0 <= i < |snap|
      ensures Controller.ScheduleFromData(ws[i]).Some? <==>
        (snap[i].mode.Some? && "type" in snap[i].mode.value
         && forall j :: 0 <= j < |snap[i].timeSlots| ==> "type" in snap[i].timeSlots[j].mode)
    {
      assert ws[i].timeslots == SerialiseSlots(snap[i].timeSlots);
    }
    var r := Controller.SchedulesFromData(ws);
    if r.Some? {
      forall i | 0 <= i < |snap|
        ensures r.value[i].name == snap[i].name && |r.value[i].timeslots| == |snap[i].timeSlots|
      {
        assert Some(r.value[i]) == Controller.ScheduleFromData(ws[i]);
        assert |multiset(r.value[i].timeslots)| == |Controller.TimeslotsFromData(ws[i].timeslots).value|;
      }
    }
  }

  /** An edit in the Schedules view stores the rebuilt schedule without a
      mode, so the next push leaves `mode` out of its record and the
      controller rejects the whole update. */
  lemma ScheduleEditUnreadable(snap: seq<Schedule>, targetName: string, newName: string, newFrequency: string,
                               start: int, end: int, duration: int, i: nat)
    requires RegenerationTerminates(start, end, newFrequency)
    requires i < |snap| && snap[i].name == targetName
    ensures Controller.SchedulesFromData(Serialise(EditScheduleIn(snap, targetName, newName, newFrequency,
                                                                  start, end, duration))).None?
  {
    var r := EditScheduleIn(snap, targetName, newName, newFrequency, start, end, duration);
    assert r[i].mode == None;
    ControllerReadsPush(r);
  }
}
