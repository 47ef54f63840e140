/** The mapping between the component's schedules and the JSON records of
    the `schedules` channel: `pushChanges` writes them (src/SchedulerComponent.js),
    `componentDidMount` reads them back, dropping the slots that have ended. */
module WireMapping {
  import opened Common
  import opened Wire
  import opened Engine

  /** A slot as `pushChanges` writes it: epoch seconds, the end computed from
      the duration in hours. */
  function SerialiseSlot(t: TimeSlot): (w: WireTimeslot)
    ensures w.endTime - w.startTime == w.duration * 3600.0
    ensures w.endTime * 1000.0 == SlotEnd(t) as real
  {
    WireTimeslot(Seconds(t.startTime), Seconds(t.startTime) + Hours(t.duration) * 3600.0,
                 Hours(t.duration), t.mode, t.edited)
  }

  function SerialiseSlots(slots: seq<TimeSlot>): (r: seq<WireTimeslot>)
    ensures |r| == |slots|
    ensures forall j :: 0 <= j < |slots| ==> r[j] == SerialiseSlot(slots[j])
  {
    seq(|slots|, j requires 0 <= j < |slots| => SerialiseSlot(slots[j]))
  }

  /** A schedule as `pushChanges` writes it; the colour fields are not
      part of this model. */
  function SerialiseSchedule(s: Schedule): WireSchedule {
    WireSchedule(s.name, s.frequency, Seconds(s.startTime), Seconds(s.endTime), Hours(s.duration),
                 s.mode, s.edited, SerialiseSlots(s.timeSlots))
  }

  /** The `schedules` list of the posted payload. */
  function Serialise(snap: seq<Schedule>): (r: seq<WireSchedule>)
    ensures |r| == |snap|
    ensures forall i :: 0 <= i < |snap| ==> r[i] == SerialiseSchedule(snap[i])
  {
    seq(|snap|, i requires 0 <= i < |snap| => SerialiseSchedule(snap[i]))
  }

  /** A wire slot read back: the Date constructor drops the fractional
      milliseconds. */
  function DeserialiseSlot(w: WireTimeslot): TimeSlot {
    TimeSlot(Trunc(w.startTime * 1000.0), Trunc((w.endTime - w.startTime) * 1000.0), w.edited, w.mode)
  }

  /** The `forEach` over a schedule's wire slots: those ending strictly after
      `now` are added, in order. */
  function LoadSlots(ws: seq<WireTimeslot>, now: int): (r: seq<TimeSlot>)
    ensures var live := Filter(ws, Live(now));
      |r| == |live| && forall k :: 0 <= k < |r| ==> r[k] == DeserialiseSlot(live[k])
  {
    if ws == [] then []
    else (if Live(now)(ws[0]) then [DeserialiseSlot(ws[0])] else []) + LoadSlots(ws[1..], now)
  }

  /** The test at load time: the slot ends strictly after `now`. */
  function Live(now: int): WireTimeslot -> bool {
    (w: WireTimeslot) => w.endTime > Seconds(now)
  }

  /** A wire schedule read back: a missing mode becomes the default one and
      `edited` starts at 0, the constructor's default. */
  function DeserialiseSchedule(w: WireSchedule, now: int): (s: Schedule)
    ensures s.edited == 0 && s.mode.Some? && s.name == w.scheduleName
  {
    Schedule(w.scheduleName, w.frequency, Trunc(w.startTime * 1000.0), Trunc(w.endTime * 1000.0),
             Trunc(w.duration * 3600000.0), Some(w.mode.GetOr(DefaultMode)), 0, LoadSlots(w.timeslots, now))
  }

  function Deserialise(ws: seq<WireSchedule>, now: int): (r: seq<Schedule>)
    ensures |r| == |ws|
    ensures forall i :: 0 <= i < |ws| ==> r[i] == DeserialiseSchedule(ws[i], now)
  {
    seq(|ws|, i requires 0 <= i < |ws| => DeserialiseSchedule(ws[i], now))
  }

  /** What a reload is meant to give back: the same schedules with their
      `edited` flags reset, a missing mode replaced by the default, and only
      the slots still running or to come. */
  function Reloaded(s: Schedule, now: int): Schedule {
    s.(mode := Some(s.mode.GetOr(DefaultMode)), edited := 0,
       timeSlots := Filter(s.timeSlots, (t: TimeSlot) => SlotEnd(t) > now))
  }

  lemma SlotRoundTrip(t: TimeSlot)
    ensures DeserialiseSlot(SerialiseSlot(t)) == t
  {
    var w := SerialiseSlot(t);
    assert w.startTime * 1000.0 == t.startTime as real;
    assert (w.endTime - w.startTime) * 1000.0 == t.duration as real;
  }

  /** A slot survives the reload exactly when it ends after `now`. */
  lemma SlotExpiry(t: TimeSlot, now: int)
    ensures SerialiseSlot(t).endTime > Seconds(now) <==> SlotEnd(t) > now
  {
    var w := SerialiseSlot(t);
    assert w.endTime == SlotEnd(t) as real / 1000.0;
  }

  lemma {:induction false} LoadSerialisedSlots(slots: seq<TimeSlot>, now: int)
    ensures LoadSlots(SerialiseSlots(slots), now) == Filter(slots, (t: TimeSlot) => SlotEnd(t) > now)
  {
    if slots != [] {
      assert SerialiseSlots(slots)[1..] == SerialiseSlots(slots[1..]);
      LoadSerialisedSlots(slots[1..], now);
      SlotExpiry(slots[0], now);
      SlotRoundTrip(slots[0]);
    }
  }

  /** Pushing the schedules and loading them again gives back every schedule
      in order with its fields intact, except that `edited` is reset, the
      mode is filled in, and the slots that ended by `now` are gone. */
  lemma ReloadAfterPush(snap: seq<Schedule>, now: int)
    ensures Deserialise(Serialise(snap), now)
         == seq(|snap|, i requires 0 <= i < |snap| => Reloaded(snap[i], now))
  {
    forall i | 0 <= i < |snap|
      ensures DeserialiseSchedule(SerialiseSchedule(snap[i]), now) == Reloaded(snap[i], now)
    {
      var s := snap[i];
      LoadSerialisedSlots(s.timeSlots, now);
      assert Seconds(s.startTime) * 1000.0 == s.startTime as real;
      assert Seconds(s.endTime) * 1000.0 == s.endTime as real;
      assert Hours(s.duration) * 3600000.0 == s.duration as real;
    }
  }
}
