/** The one-off merge of src/SchedulerComponent.js as written. The scan
    variables `valStart`/`valEnd` of the one-off branch are declared once,
    before both loops, and the queued state updates read them only when they
    run, after the handler has returned; by then they hold the bounds of the
    last slot the scan visited, not those of the slot that collided. The
    recurring branch declares them inside its loop body, so its updates see
    their own occurrence's bounds. Module Engine models the evidently intended
    merge, which the rest of the model uses. */
module OnceCapture {
  import opened Common
  import opened Engine

  /** The last slot the one-off scan reads: each schedule's slots are read up
      to and including the first colliding one, or all of them. */
  function LastVisited(snap: seq<Schedule>, cs: int, ce: int): Option<TimeSlot>
    decreases |snap|
  {
    if snap == [] then None
    else
      var s := snap[|snap| - 1];
      if s.timeSlots == [] then LastVisited(snap[..|snap| - 1], cs, ce)
      else match FirstCollision(s.timeSlots, cs, ce)
        case Some(j) => Some(s.timeSlots[j])
        case None => Some(s.timeSlots[|s.timeSlots| - 1])
  }

  /** The merges the one-off updates apply as written: the positions of the
      intended merges, each with the union span of the candidate and the last
      visited slot. */
  function OnceMergesAsWritten(snap: seq<Schedule>, cs: int, ce: int): (ms: seq<Merge>)
    ensures AllFit(snap, ms)
    ensures |ms| == |OnceMerges(snap, cs, ce)|
  {
    var intended := OnceMerges(snap, cs, ce);
    match LastVisited(snap, cs, ce)
    case None => intended
    case Some(v) => seq(|intended|, k requires 0 <= k < |intended| => UnionMerge(intended[k].at, v, cs, ce))
  }

  /** A one-off save as written. */
  function OnceSaveAsWritten(snap: seq<Schedule>, startDate: int, endDate: int, duration: int, mode: Mode): seq<Schedule> {
    var ms := OnceMergesAsWritten(snap, startDate, startDate + duration);
    if ms == [] then snap + [OnceSchedule(startDate, endDate, duration, mode)]
    else ApplyMerges(snap, ms, MarkSlot)
  }

  const Plain: Mode := DefaultMode
  const Early: Schedule := Schedule("Early", "once", 0, 0, 10, Some(Plain), 0, [TimeSlot(0, 10, 0, Plain)])
  const Late: Schedule := Schedule("Late", "once", 100, 100, 10, Some(Plain), 0, [TimeSlot(100, 10, 0, Plain)])

  /** Slots `[0, 10)` and `[100, 110)`; a one-off `[5, 12)` collides with the
      first only. As written the first slot becomes `[5, 110)`, the union with
      the later slot the scan read last; the intended merge makes it `[0, 12)`. */
  lemma CapturedBoundsCounterexample()
    ensures OnceSaveAsWritten([Early, Late], 5, 5, 7, Plain)[0].timeSlots[0] == TimeSlot(5, 105, 1, Plain)
    ensures SaveSchedules([Early, Late], 5, 5, 7, Once, "", Plain)[0].timeSlots[0] == TimeSlot(0, 12, 1, Plain)
  {
    var snap := [Early, Late];
    assert FirstCollision(Early.timeSlots, 5, 12) == Some(0);
    assert FirstCollision(Late.timeSlots, 5, 12) == None;
    assert snap[..1] == [Early];
    assert OnceMerges([Early], 5, 12) == [UnionMerge(SlotRef(0, 0), TimeSlot(0, 10, 0, Plain), 5, 12)];
    assert OnceMerges(snap, 5, 12) == [UnionMerge(SlotRef(0, 0), TimeSlot(0, 10, 0, Plain), 5, 12)];
    assert LastVisited(snap, 5, 12) == Some(TimeSlot(100, 10, 0, Plain));
    var written := OnceMergesAsWritten(snap, 5, 12);
    assert written == [Merge(SlotRef(0, 0), 5, 105)];
    assert written[..0] == [];
    assert ApplyMerges(snap, written, MarkSlot) == ApplyMerge(snap, written[0], MarkSlot);
    var intended := OnceMerges(snap, 5, 12);
    assert intended == [Merge(SlotRef(0, 0), 0, 12)];
    assert intended[..0] == [];
  }

  /** The two agree whenever the slot the scan read last is the one that
      collided, for instance when there is a single slot. */
  lemma SingleSlotAgrees(t: TimeSlot, s: Schedule, startDate: int, endDate: int, duration: int, mode: Mode)
    requires s.timeSlots == [t]
    ensures OnceSaveAsWritten([s], startDate, endDate, duration, mode)
         == SaveSchedules([s], startDate, endDate, duration, Once, "", mode)
  {
    var cs := startDate;
    var ce := startDate + duration;
    assert [s][..0] == [];
    var intended := OnceMerges([s], cs, ce);
    assert OnceMerges([], cs, ce) == [];
    assert [s][0] == s;
    if FirstCollision(s.timeSlots, cs, ce).Some? {
      assert FirstCollision(s.timeSlots, cs, ce) == Some(0);
      assert LastVisited([s], cs, ce) == Some(t);
      assert intended == [UnionMerge(SlotRef(0, 0), t, cs, ce)];
      assert OnceMergesAsWritten([s], cs, ce) == intended;
    } else {
      assert intended == [];
    }
  }
}
