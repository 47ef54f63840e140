/** The earlier draft of the scheduler component, src/tempstore.js. It keeps
    `Schedule` objects whose slot lists its handlers change in place: a save
    expands the rule with no collision check and posts a payload numbering
    the slots, an edit overwrites one slot, a delete splices one out and
    drops the schedule's name when the schedule runs empty. Instants are
    milliseconds; a slot's duration is the dialog's number of hours. */
module TempStore {
  import opened Common
  import opened Sorting
  import opened Paging

  /** `new TimeSlot(startTime, duration)`. */
  datatype Slot = Slot(startTime: int, duration: real)

  /** The fields of one `Schedule` object. */
  datatype ScheduleValue = ScheduleValue(name: string, frequency: string, timeSlots: seq<Slot>)

  /** The test of `schedules.filter(sch => sch.name !== name)`. */
  function OtherThan(name: string): ScheduleValue -> bool {
    (v: ScheduleValue) => v.name != name
  }

  /** A row of `sortedTimeSlots`: a copy of a slot tagged with its schedule's name. */
  datatype Row = Row(startTime: int, duration: real, scheduleName: string)

  /** A `timeslots` entry of the posted payload, in epoch seconds. */
  datatype PayloadTimeslot = PayloadTimeslot(startTime: real, endTime: real, frequency: string, scheduleId: int)

  /** The one record the posted payload holds. */
  datatype PayloadSchedule = PayloadSchedule(startTime: real, endTime: real, frequency: string,
                                             scheduleName: string, timeslots: seq<PayloadTimeslot>)

  // ---------------------------------------------------------------------
  // Array helpers

  /** `s.splice(index, 1)`: removes the element at the position `splice`
      starts from, if there is one; a negative index counts from the end. */
  function SpliceOne<T>(s: seq<T>, index: int): (r: seq<T>)
    ensures |r| == if SliceIndex(index, |s|) < |s| then |s| - 1 else |s|
  {
    var k := SliceIndex(index, |s|);
    if k < |s| then s[..k] + s[k + 1..] else s
  }

  /** An index in `[-|s|, |s|)` removes exactly one element, the one it
      names; `-1`, what a failed `findIndex` gives, removes the last. */
  lemma SpliceOneRemoves<T>(s: seq<T>, index: int)
    requires -|s| <= index < |s|
    ensures var k := if index < 0 then |s| + index else index;
      multiset(SpliceOne(s, index)) + multiset{s[k]} == multiset(s)
    ensures s != [] ==> SpliceOne(s, -1) == s[..|s| - 1]
  {
    var k := if index < 0 then |s| + index else index;
    assert s == s[..k] + [s[k]] + s[k + 1..];
  }

  /** `timeSlots.findIndex(slot => slot.startTime === start)`. */
  function FindStart(slots: seq<Slot>, start: int): (r: int)
    ensures -1 <= r < |slots|
    ensures r >= 0 ==> slots[r].startTime == start
  {
    if slots == [] then -1
    else if slots[0].startTime == start then 0
    else
      var k := FindStart(slots[1..], start);
      if k < 0 then -1 else k + 1
  }

  /** findIndex gives the first slot with the start, and `-1` exactly when
      there is none. */
  lemma {:induction false} FindStartIsFirst(slots: seq<Slot>, start: int)
    ensures var r := FindStart(slots, start);
      && (forall j :: 0 <= j < r ==> slots[j].startTime != start)
      && (r == -1 <==> forall j :: 0 <= j < |slots| ==> slots[j].startTime != start)
  {
    if slots != [] && slots[0].startTime != start {
      FindStartIsFirst(slots[1..], start);
      forall j | 1 <= j < |slots| ensures slots[j] == slots[1..][j - 1] { }
    }
  }

  /** `schedules.find(sch => sch.name === name)`, as a position. */
  function FindNamed(vals: seq<ScheduleValue>, name: string): (r: Option<nat>)
    ensures r.Some? ==> r.value < |vals| && vals[r.value].name == name
  {
    if vals == [] then None
    else if vals[0].name == name then Some(0)
    else match FindNamed(vals[1..], name)
      case None => None
      case Some(i) => Some(i + 1)
  }

  /** find gives the first schedule with the name, and nothing exactly when
      no schedule has it. */
  lemma {:induction false} FindNamedIsFirst(vals: seq<ScheduleValue>, name: string)
    ensures var r := FindNamed(vals, name);
      && (r.Some? ==> forall i :: 0 <= i < r.value ==> vals[i].name != name)
      && (r.None? <==> forall i :: 0 <= i < |vals| ==> vals[i].name != name)
  {
    if vals != [] && vals[0].name != name {
      FindNamedIsFirst(vals[1..], name);
      forall i | 1 <= i < |vals| ensures vals[i] == vals[1..][i - 1] { }
    }
  }

  /** find stops at a schedule carrying the name when none before it does. */
  lemma {:induction false} FindNamedFirstAt(vals: seq<ScheduleValue>, name: string, k: nat)
    requires k < |vals| && vals[k].name == name
    requires forall n :: 0 <= n < k ==> vals[n].name != name
    ensures FindNamed(vals, name) == Some(k)
  {
    if k > 0 {
      assert vals[1..][k - 1] == vals[k];
      forall n | 0 <= n < k - 1 ensures vals[1..][n].name != name {
        assert vals[1..][n] == vals[n + 1];
      }
      FindNamedFirstAt(vals[1..], name, k - 1);
    }
  }

  /** A filter that drops position `i` before and after it changes gives
      the same list. */
  lemma FilterSkipsUpdate<T>(s: seq<T>, i: nat, v: T, p: T -> bool)
    requires i < |s| && !p(s[i]) && !p(v)
    ensures Filter(s[i := v], p) == Filter(s, p)
  {
    var u := s[i := v];
    assert s == s[..i] + [s[i]] + s[i + 1..];
    assert u == s[..i] + [v] + s[i + 1..];
    FilterAppend(s[..i] + [s[i]], s[i + 1..], p);
    FilterAppend(s[..i], [s[i]], p);
    FilterAppend(s[..i] + [v], s[i + 1..], p);
    FilterAppend(s[..i], [v], p);
    assert Filter([s[i]], p) == [] && Filter([v], p) == [];
  }

  // ---------------------------------------------------------------------
  // sortSchedules

  /** `schedule.timeSlots.map(slot => ({...slot, scheduleName: schedule.name}))`. */
  function TagRows(v: ScheduleValue): (r: seq<Row>)
    ensures |r| == |v.timeSlots|
    ensures forall j :: 0 <= j < |r| ==> r[j] == Row(v.timeSlots[j].startTime, v.timeSlots[j].duration, v.name)
  {
    seq(|v.timeSlots|, j requires 0 <= j < |v.timeSlots| => Row(v.timeSlots[j].startTime, v.timeSlots[j].duration, v.name))
  }

  /** The `flatMap` over the schedules. */
  function Rows(vals: seq<ScheduleValue>): seq<Row> {
    if vals == [] then [] else TagRows(vals[0]) + Rows(vals[1..])
  }

  function RowKey(r: Row): real { r.startTime as real }

  /** The rows in start order; `a.startTime - b.startTime` compares the instants. */
  function SortedRows(vals: seq<ScheduleValue>): seq<Row> {
    SortBy(Rows(vals), RowKey)
  }

  /** A row is listed exactly when some schedule owns a slot with its start
      and duration and carries its name. */
  lemma {:induction false} RowsMembers(vals: seq<ScheduleValue>, r: Row)
    ensures r in Rows(vals) <==> (exists i, j :: (0 <= i < |vals| && 0 <= j < |vals[i].timeSlots| &&
      r == Row(vals[i].timeSlots[j].startTime, vals[i].timeSlots[j].duration, vals[i].name)))
  {
    if vals != [] {
      RowsMembers(vals[1..], r);
      if r in TagRows(vals[0]) {
        var j :| 0 <= j < |TagRows(vals[0])| && TagRows(vals[0])[j] == r;
        assert r == Row(vals[0].timeSlots[j].startTime, vals[0].timeSlots[j].duration, vals[0].name);
      }
      if exists i, j :: 0 <= i < |vals| && 0 <= j < |vals[i].timeSlots| &&
          r == Row(vals[i].timeSlots[j].startTime, vals[i].timeSlots[j].duration, vals[i].name) {
        var i, j :| 0 <= i < |vals| && 0 <= j < |vals[i].timeSlots| &&
          r == Row(vals[i].timeSlots[j].startTime, vals[i].timeSlots[j].duration, vals[i].name);
        if i == 0 {
          assert TagRows(vals[0])[j] == r;
        } else {
          assert vals[1..][i - 1] == vals[i];
        }
      }
    }
  }

  /** sortSchedules lists every slot once, tagged with its schedule's name,
      in ascending start order. */
  lemma SortedRowsShape(vals: seq<ScheduleValue>)
    ensures SortedBy(SortedRows(vals), RowKey)
    ensures multiset(SortedRows(vals)) == multiset(Rows(vals))
    ensures forall r :: r in SortedRows(vals) <==> (exists i, j :: (0 <= i < |vals| && 0 <= j < |vals[i].timeSlots| &&
      r == Row(vals[i].timeSlots[j].startTime, vals[i].timeSlots[j].duration, vals[i].name)))
  {
    SortByPermutes(Rows(vals), RowKey);
    SortByMembers(Rows(vals), RowKey);
    forall r ensures r in Rows(vals) <==> (exists i, j :: (0 <= i < |vals| && 0 <= j < |vals[i].timeSlots| &&
      r == Row(vals[i].timeSlots[j].startTime, vals[i].timeSlots[j].duration, vals[i].name)))
    {
      RowsMembers(vals, r);
    }
  }

  lemma {:induction false} RowsAppend(a: seq<ScheduleValue>, b: seq<ScheduleValue>)
    ensures Rows(a + b) == Rows(a) + Rows(b)
  {
    if a != [] {
      assert (a + b)[1..] == a[1..] + b;
      RowsAppend(a[1..], b);
    } else {
      assert a + b == b;
    }
  }

  /** The rows of a list are those before position `i`, those of schedule
      `i`, and those after it. */
  lemma RowsSplit(vals: seq<ScheduleValue>, i: nat)
    requires i < |vals|
    ensures Rows(vals) == Rows(vals[..i]) + TagRows(vals[i]) + Rows(vals[i + 1..])
  {
    var pre, tail := vals[..i], vals[i..];
    assert vals == pre + tail;
    RowsAppend(pre, tail);
    assert tail[0] == vals[i] && tail[1..] == vals[i + 1..];
    assert Rows(tail) == TagRows(vals[i]) + Rows(vals[i + 1..]);
  }

  /** Replacing one schedule replaces its rows and no others. */
  lemma RowsUpdate(vals: seq<ScheduleValue>, i: nat, v: ScheduleValue)
    requires i < |vals|
    ensures multiset(Rows(vals[i := v])) + multiset(TagRows(vals[i])) == multiset(Rows(vals)) + multiset(TagRows(v))
  {
    var u := vals[i := v];
    RowsSplit(vals, i);
    RowsSplit(u, i);
    assert u[..i] == vals[..i] && u[i + 1..] == vals[i + 1..];
  }

  /** A slot replaced in a schedule replaces its row. */
  lemma TagRowsUpdate(v: ScheduleValue, k: nat, t: Slot)
    requires k < |v.timeSlots|
    ensures multiset(TagRows(v.(timeSlots := v.timeSlots[k := t]))) + multiset{Row(v.timeSlots[k].startTime, v.timeSlots[k].duration, v.name)}
         == multiset(TagRows(v)) + multiset{Row(t.startTime, t.duration, v.name)}
  {
    var before := TagRows(v);
    var after := TagRows(v.(timeSlots := v.timeSlots[k := t]));
    assert after == before[k := Row(t.startTime, t.duration, v.name)];
    assert before == before[..k] + [before[k]] + before[k + 1..];
    assert after == before[..k] + [Row(t.startTime, t.duration, v.name)] + before[k + 1..];
  }

  /** A slot spliced out of a schedule takes its row with it. */
  lemma TagRowsSplice(v: ScheduleValue, k: nat)
    requires k < |v.timeSlots|
    ensures multiset(TagRows(v.(timeSlots := v.timeSlots[..k] + v.timeSlots[k + 1..])))
            + multiset{Row(v.timeSlots[k].startTime, v.timeSlots[k].duration, v.name)}
         == multiset(TagRows(v))
  {
    var before := TagRows(v);
    var after := TagRows(v.(timeSlots := v.timeSlots[..k] + v.timeSlots[k + 1..]));
    assert after == before[..k] + before[k + 1..];
    assert before == before[..k] + [before[k]] + before[k + 1..];
  }

  /** After filtering out a name no row carries it. */
  lemma {:induction false} RowsFilteredName(vals: seq<ScheduleValue>, name: string)
    ensures forall r :: r in Rows(Filter(vals, OtherThan(name))) ==> r.scheduleName != name
  {
    var p := OtherThan(name);
    forall r | r in Rows(Filter(vals, p)) ensures r.scheduleName != name {
      RowsMembers(Filter(vals, p), r);
    }
  }

  // ---------------------------------------------------------------------
  // handleSave

  /** `frequency === 'once' ? 'Once' : scheduleName || 'Unnamed Schedule'`. */
  function SaveName(frequency: Frequency, scheduleName: string): string {
    if frequency == Once then "Once"
    else if scheduleName == "" then "Unnamed Schedule"
    else scheduleName
  }

  /** The instants the save creates slots at: the start alone for a one-off,
      otherwise every step from the start up to the end. */
  function SaveInstants(startDate: int, endDate: int, frequency: Frequency): seq<int> {
    if frequency == Once then [startDate]
    else Occurrences(startDate, endDate, StepOf(FrequencyName(frequency)))
  }

  function SlotsAt(instants: seq<int>, duration: real): (r: seq<Slot>)
    ensures |r| == |instants|
  {
    seq(|instants|, k requires 0 <= k < |instants| => Slot(instants[k], duration))
  }

  /** The payload timeslot of an instant: `start_time` in epoch seconds,
      `end_time` `duration * 3600` later, and the running `schedule_id`. */
  function PayloadSlotAt(instant: int, duration: real, frequency: string, scheduleId: int): PayloadTimeslot {
    PayloadTimeslot(Seconds(instant), Seconds(instant) + duration * 3600.0, frequency, scheduleId)
  }

  function PayloadSlots(instants: seq<int>, duration: real, frequency: string): (r: seq<PayloadTimeslot>)
    ensures |r| == |instants|
  {
    seq(|instants|, k requires 0 <= k < |instants| => PayloadSlotAt(instants[k], duration, frequency, k + 1))
  }

  /** The schedule a save appends. */
  function SavedValue(startDate: int, endDate: int, duration: real, frequency: Frequency, scheduleName: string): ScheduleValue {
    ScheduleValue(SaveName(frequency, scheduleName), FrequencyName(frequency),
                  SlotsAt(SaveInstants(startDate, endDate, frequency), duration))
  }

  /** The record a save posts; it carries the name as typed. */
  function SavePayload(startDate: int, endDate: int, duration: real, frequency: Frequency, scheduleName: string): PayloadSchedule {
    PayloadSchedule(Seconds(startDate), Seconds(endDate), FrequencyName(frequency), scheduleName,
                    PayloadSlots(SaveInstants(startDate, endDate, frequency), duration, FrequencyName(frequency)))
  }

  /** The appended schedule's name is `Once` for a one-off and otherwise the
      typed name, `Unnamed Schedule` standing in for an empty one; a one-off
      has the single slot at its start, a recurring rule one slot per
      occurrence `startDate + k * step <= endDate`, each of the typed
      duration. */
  lemma SavedValueShape(startDate: int, endDate: int, duration: real, frequency: Frequency, scheduleName: string)
    ensures var v := SavedValue(startDate, endDate, duration, frequency, scheduleName);
      && (frequency == Once ==> v.name == "Once" && v.timeSlots == [Slot(startDate, duration)])
      && (frequency != Once ==> v.name == (if scheduleName == "" then "Unnamed Schedule" else scheduleName))
      && (frequency != Once ==> var step := StepOf(FrequencyName(frequency));
            && (forall k :: 0 <= k < |v.timeSlots| ==> v.timeSlots[k] == Slot(OccurrenceAt(startDate, step, k), duration))
            && (forall k: nat :: OccurrenceAt(startDate, step, k) <= endDate <==> k < |v.timeSlots|))
  {
    if frequency != Once {
      var step := StepOf(FrequencyName(frequency));
      OccurrencesFormula(startDate, endDate, step);
      var r := Occurrences(startDate, endDate, step);
      OccurrencesShape(startDate, endDate, step);
      forall k: nat | k < |r| ensures OccurrenceAt(startDate, step, k) <= endDate {
        assert r[k] == OccurrenceAt(startDate, step, k);
      }
    }
  }

  /** The payload's timeslots line up with the new schedule's slots, one for
      one and in order: each starts at its slot's instant in seconds, ends
      `duration * 3600` seconds later, and the ids run `1, 2, 3, ...`. */
  lemma PayloadMatchesSlots(startDate: int, endDate: int, duration: real, frequency: Frequency, scheduleName: string)
    ensures var v := SavedValue(startDate, endDate, duration, frequency, scheduleName);
      var p := SavePayload(startDate, endDate, duration, frequency, scheduleName);
      && |p.timeslots| == |v.timeSlots|
      && p.scheduleName == scheduleName
      && (frequency == Once ==> |p.timeslots| == 1 && p.timeslots[0].scheduleId == 1)
      && forall k :: 0 <= k < |v.timeSlots| ==>
           && p.timeslots[k].startTime * 1000.0 == v.timeSlots[k].startTime as real
           && p.timeslots[k].endTime - p.timeslots[k].startTime == v.timeSlots[k].duration * 3600.0
           && p.timeslots[k].scheduleId == k + 1
  {
  }

  // ---------------------------------------------------------------------
  // handleEditSave and handleDelete

  /** The schedules after an edit of row `editIndex`, or `None` when the
      handler changes nothing: the row is missing (reading it throws) or no
      schedule carries its name. A slot index of `-1` assigns a property of
      the array that is not an element, so the slots stay as they were. */
  function EditResult(vals: seq<ScheduleValue>, rows: seq<Row>, editIndex: int, startDate: int, duration: real)
    : Option<seq<ScheduleValue>>
  {
    if !(0 <= editIndex < |rows|) then None
    else match FindNamed(vals, rows[editIndex].scheduleName)
      case None => None
      case Some(i) =>
        var k := FindStart(vals[i].timeSlots, rows[editIndex].startTime);
        Some(if k >= 0 then vals[i := vals[i].(timeSlots := vals[i].timeSlots[k := Slot(startDate, duration)])] else vals)
  }

  /** The schedules after a delete of row `deleteIndex`, or `None` when the
      handler changes nothing. One slot is spliced out of the first schedule
      with the row's name; if that leaves it empty, every schedule with the
      name is dropped. */
  function DeleteResult(vals: seq<ScheduleValue>, rows: seq<Row>, deleteIndex: int): Option<seq<ScheduleValue>> {
    if !(0 <= deleteIndex < |rows|) then None
    else
      var name := rows[deleteIndex].scheduleName;
      match FindNamed(vals, name)
      case None => None
      case Some(i) =>
        var left := SpliceOne(vals[i].timeSlots, FindStart(vals[i].timeSlots, rows[deleteIndex].startTime));
        if left == [] then Some(Filter(vals, OtherThan(name)))
        else Some(vals[i := vals[i].(timeSlots := left)])
  }

  /** With the row's schedule found at `i`, the outcome splices the slot
      that `FindStart` picks. */
  lemma DeleteResultFound(vals: seq<ScheduleValue>, rows: seq<Row>, deleteIndex: int, i: nat)
    requires 0 <= deleteIndex < |rows|
    requires FindNamed(vals, rows[deleteIndex].scheduleName) == Some(i)
    ensures i < |vals|
    ensures var left := SpliceOne(vals[i].timeSlots, FindStart(vals[i].timeSlots, rows[deleteIndex].startTime));
      DeleteResult(vals, rows, deleteIndex)
        == Some(if left == [] then Filter(vals, OtherThan(rows[deleteIndex].scheduleName))
                else vals[i := vals[i].(timeSlots := left)])
  {
  }

  function SlotCount(vals: seq<ScheduleValue>): nat {
    if vals == [] then 0 else |vals[0].timeSlots| + SlotCount(vals[1..])
  }

  lemma {:induction false} SlotCountUpdate(vals: seq<ScheduleValue>, i: nat, v: ScheduleValue)
    requires i < |vals|
    ensures SlotCount(vals[i := v]) + |vals[i].timeSlots| == SlotCount(vals) + |v.timeSlots|
  {
    if i == 0 {
      assert vals[i := v][1..] == vals[1..];
    } else {
      assert vals[i := v][1..] == vals[1..][i - 1 := v];
      SlotCountUpdate(vals[1..], i - 1, v);
    }
  }

  /** An edit keeps every schedule and the number of slots, touches only the
      first schedule carrying the row's name, and in it only the first slot
      starting where the row starts, which takes the dialog's start and
      duration: the listed rows lose that slot's row and gain the new one. */
  lemma EditTouchesOneSlot(vals: seq<ScheduleValue>, rows: seq<Row>, editIndex: int, startDate: int, duration: real)
    requires EditResult(vals, rows, editIndex, startDate, duration).Some?
    ensures var r := EditResult(vals, rows, editIndex, startDate, duration).value;
      var row := rows[editIndex];
      var i := FindNamed(vals, row.scheduleName).value;
      var k := FindStart(vals[i].timeSlots, row.startTime);
      && |r| == |vals| && SlotCount(r) == SlotCount(vals)
      && (forall n :: 0 <= n < |vals| && n != i ==> r[n] == vals[n])
      && (forall n :: 0 <= n < i ==> vals[n].name != row.scheduleName)
      && r[i].name == vals[i].name && |r[i].timeSlots| == |vals[i].timeSlots|
      && (forall j :: 0 <= j < |vals[i].timeSlots| && j != k ==> r[i].timeSlots[j] == vals[i].timeSlots[j])
      && (k >= 0 ==> && (forall j :: 0 <= j < k ==> vals[i].timeSlots[j].startTime != row.startTime)
                     && r[i].timeSlots[k] == Slot(startDate, duration)
                     && multiset(Rows(r)) + multiset{Row(row.startTime, vals[i].timeSlots[k].duration, row.scheduleName)}
                        == multiset(Rows(vals)) + multiset{Row(startDate, duration, row.scheduleName)})
      && (k < 0 ==> r == vals)
  {
    var row := rows[editIndex];
    var i := FindNamed(vals, row.scheduleName).value;
    var k := FindStart(vals[i].timeSlots, row.startTime);
    FindNamedIsFirst(vals, row.scheduleName);
    FindStartIsFirst(vals[i].timeSlots, row.startTime);
    if k >= 0 {
      ReplaceSlot(vals, i, k, Slot(startDate, duration));
    }
  }

  /** Overwriting slot `k` of schedule `i` keeps the slot count, and the
      listed rows trade that slot's row for the new slot's. */
  lemma ReplaceSlot(vals: seq<ScheduleValue>, i: nat, k: nat, t: Slot)
    requires i < |vals| && k < |vals[i].timeSlots|
    ensures var r := vals[i := vals[i].(timeSlots := vals[i].timeSlots[k := t])];
      && SlotCount(r) == SlotCount(vals)
      && multiset(Rows(r)) + multiset{Row(vals[i].timeSlots[k].startTime, vals[i].timeSlots[k].duration, vals[i].name)}
         == multiset(Rows(vals)) + multiset{Row(t.startTime, t.duration, vals[i].name)}
  {
    var v := vals[i].(timeSlots := vals[i].timeSlots[k := t]);
    SlotCountUpdate(vals, i, v);
    RowsUpdate(vals, i, v);
    TagRowsUpdate(vals[i], k, t);
    var after, before := multiset(Rows(vals[i := v])), multiset(Rows(vals));
    var tagOld, tagNew := multiset(TagRows(vals[i])), multiset(TagRows(v));
    var gone := multiset{Row(vals[i].timeSlots[k].startTime, vals[i].timeSlots[k].duration, vals[i].name)};
    var come := multiset{Row(t.startTime, t.duration, vals[i].name)};
    assert after + gone == before + come by {
      forall x ensures (after + gone)[x] == (before + come)[x] {
        assert (after + tagOld)[x] == (before + tagNew)[x];
        assert (tagNew + gone)[x] == (tagOld + come)[x];
      }
    }
  }

  /** A delete that leaves the schedule with slots removes exactly one slot,
      and its row, from the first schedule with the row's name and keeps the
      list's length; one that empties it removes every schedule with the
      name, so no row with the name is left. */
  lemma DeleteShape(vals: seq<ScheduleValue>, rows: seq<Row>, deleteIndex: int)
    requires DeleteResult(vals, rows, deleteIndex).Some?
    ensures var r := DeleteResult(vals, rows, deleteIndex).value;
      var row := rows[deleteIndex];
      var i := FindNamed(vals, row.scheduleName).value;
      var k := SliceIndex(FindStart(vals[i].timeSlots, row.startTime), |vals[i].timeSlots|);
      && (|vals[i].timeSlots| > 1 ==>
            && k < |vals[i].timeSlots|
            && |r| == |vals| && SlotCount(r) + 1 == SlotCount(vals)
            && (forall n :: 0 <= n < |vals| && n != i ==> r[n] == vals[n])
            && multiset(Rows(r)) + multiset{Row(vals[i].timeSlots[k].startTime, vals[i].timeSlots[k].duration, row.scheduleName)}
               == multiset(Rows(vals)))
      && (|vals[i].timeSlots| <= 1 ==>
            && r == Filter(vals, OtherThan(row.scheduleName))
            && |r| < |vals|
            && forall x :: x in Rows(r) ==> x.scheduleName != row.scheduleName)
  {
    var row := rows[deleteIndex];
    var name := row.scheduleName;
    var i := FindNamed(vals, name).value;
    var slots := vals[i].timeSlots;
    var k := SliceIndex(FindStart(slots, row.startTime), |slots|);
    if |slots| > 1 {
      SpliceSlot(vals, i, k);
    } else {
      RowsFilteredName(vals, name);
      FilterDropsMatch(vals, i, OtherThan(name));
    }
  }

  /** Splicing slot `k` out of schedule `i` removes one slot and its row. */
  lemma SpliceSlot(vals: seq<ScheduleValue>, i: nat, k: nat)
    requires i < |vals| && k < |vals[i].timeSlots|
    ensures var r := vals[i := vals[i].(timeSlots := vals[i].timeSlots[..k] + vals[i].timeSlots[k + 1..])];
      && SlotCount(r) + 1 == SlotCount(vals)
      && multiset(Rows(r)) + multiset{Row(vals[i].timeSlots[k].startTime, vals[i].timeSlots[k].duration, vals[i].name)}
         == multiset(Rows(vals))
  {
    var v := vals[i].(timeSlots := vals[i].timeSlots[..k] + vals[i].timeSlots[k + 1..]);
    SlotCountUpdate(vals, i, v);
    RowsUpdate(vals, i, v);
    TagRowsSplice(vals[i], k);
    var after, before := multiset(Rows(vals[i := v])), multiset(Rows(vals));
    var tagOld, tagNew := multiset(TagRows(vals[i])), multiset(TagRows(v));
    var gone := multiset{Row(vals[i].timeSlots[k].startTime, vals[i].timeSlots[k].duration, vals[i].name)};
    assert after + gone == before by {
      forall x ensures (after + gone)[x] == before[x] {
        assert (after + tagOld)[x] == (before + tagNew)[x];
        assert (tagNew + gone)[x] == tagOld[x];
      }
    }
  }

  /** Filtering out an element that is present shortens the list. */
  lemma {:induction false} FilterDropsMatch<T>(s: seq<T>, i: nat, p: T -> bool)
    requires i < |s| && !p(s[i])
    ensures |Filter(s, p)| < |s|
  {
    if i == 0 {
      assert |Filter(s[1..], p)| <= |s[1..]|;
    } else {
      FilterDropsMatch(s[1..], i - 1, p);
    }
  }

  const OnceAt9: ScheduleValue := ScheduleValue("Once", "once", [Slot(9, 1.0)])
  const OnceAt5: ScheduleValue := ScheduleValue("Once", "once", [Slot(5, 1.0)])

  /** Every one-off is called `Once`, so deleting the row of the second one
      splices the last slot out of the first (findIndex misses it), empties
      it, and then drops both. */
  lemma DeleteSecondOnceDropsBoth()
    ensures SortedRows([OnceAt9, OnceAt5]) == [Row(5, 1.0, "Once"), Row(9, 1.0, "Once")]
    ensures DeleteResult([OnceAt9, OnceAt5], SortedRows([OnceAt9, OnceAt5]), 0) == Some([])
  {
    var vals := [OnceAt9, OnceAt5];
    assert Rows(vals) == [Row(9, 1.0, "Once"), Row(5, 1.0, "Once")] by {
      assert vals[1..] == [OnceAt5];
      assert Rows([OnceAt5]) == TagRows(OnceAt5) + Rows([]);
    }
    assert SortBy([Row(5, 1.0, "Once")], RowKey) == [Row(5, 1.0, "Once")];
    assert SortBy(Rows(vals), RowKey) == Insert(Row(9, 1.0, "Once"), [Row(5, 1.0, "Once")], RowKey);
    assert FindStart(OnceAt9.timeSlots, 5) == -1;
    assert SpliceOne(OnceAt9.timeSlots, -1) == [];
    var p := OtherThan("Once");
    assert Filter(vals, p) == Filter(vals[1..], p);
    assert vals[1..][1..] == [];
  }

  // ---------------------------------------------------------------------
  // componentDidMount

  /** A payload timeslot read back: `new Date(start_time * 1000)` and the
      duration `(end_time - start_time) / 3600` hours. */
  function LoadSlot(t: PayloadTimeslot): Slot {
    Slot(Trunc(t.startTime * 1000.0), (t.endTime - t.startTime) / 3600.0)
  }

  function LoadSlots(ts: seq<PayloadTimeslot>): (r: seq<Slot>)
    ensures |r| == |ts|
  {
    seq(|ts|, j requires 0 <= j < |ts| => LoadSlot(ts[j]))
  }

  /** The schedules rebuilt from the stored records; every timeslot is
      kept, whether or not it has ended. */
  function Load(data: seq<PayloadSchedule>): (r: seq<ScheduleValue>)
    ensures |r| == |data|
  {
    seq(|data|, n requires 0 <= n < |data| => ScheduleValue(data[n].scheduleName, data[n].frequency, LoadSlots(data[n].timeslots)))
  }

  /** Reading back what a save posted gives the saved schedule's slots
      exactly, but under the name as typed: the names agree only for a
      named recurring rule or a one-off typed as `Once`. */
  lemma LoadAfterSave(startDate: int, endDate: int, duration: real, frequency: Frequency, scheduleName: string)
    ensures var v := SavedValue(startDate, endDate, duration, frequency, scheduleName);
      Load([SavePayload(startDate, endDate, duration, frequency, scheduleName)]) == [v.(name := scheduleName)]
    ensures SavedValue(startDate, endDate, duration, frequency, scheduleName).name == scheduleName
        <==> (frequency != Once && scheduleName != "") || (frequency == Once && scheduleName == "Once")
  {
    var v := SavedValue(startDate, endDate, duration, frequency, scheduleName);
    var p := SavePayload(startDate, endDate, duration, frequency, scheduleName);
    forall j | 0 <= j < |p.timeslots| ensures LoadSlot(p.timeslots[j]) == v.timeSlots[j] {
      var instant := SaveInstants(startDate, endDate, frequency)[j];
      assert Seconds(instant) * 1000.0 == instant as real;
      assert (Seconds(instant) + duration * 3600.0 - Seconds(instant)) / 3600.0 == duration;
    }
    assert LoadSlots(p.timeslots) == v.timeSlots;
  }

  // ---------------------------------------------------------------------
  // The objects

  /** A `Schedule` object. */
  class Sched {
    var name: string
    var frequency: string
    var timeSlots: seq<Slot>

    constructor (name: string, frequency: string)
      ensures this.name == name && this.frequency == frequency && timeSlots == []
    {
      this.name := name;
      this.frequency := frequency;
      timeSlots := [];
    }

    function Value(): ScheduleValue
      reads this
    {
      ScheduleValue(name, frequency, timeSlots)
    }

    method AddTimeSlot(timeSlot: Slot)
      modifies this`timeSlots
      ensures timeSlots == old(timeSlots) + [timeSlot]
    {
      timeSlots := timeSlots + [timeSlot];
    }

    method RemoveTimeSlot(index: int)
      modifies this`timeSlots
      ensures timeSlots == SpliceOne(old(timeSlots), index)
    {
      timeSlots := SpliceOne(timeSlots, index);
    }

    /** `timeSlots[index] = timeSlot`. */
    method SetSlot(index: nat, timeSlot: Slot)
      requires index < |timeSlots|
      modifies this`timeSlots
      ensures timeSlots == old(timeSlots)[index := timeSlot]
    {
      timeSlots := timeSlots[index := timeSlot];
    }

    predicate IsEmpty()
      reads this`timeSlots
    {
      |timeSlots| == 0
    }
  }

  /** The fields of the objects, in list order. */
  function Values(ss: seq<Sched>): (r: seq<ScheduleValue>)
    reads ss
    ensures |r| == |ss|
    ensures forall k :: 0 <= k < |ss| ==> r[k] == ss[k].Value()
  {
    if ss == [] then [] else [ss[0].Value()] + Values(ss[1..])
  }

  predicate Distinct(ss: seq<Sched>) {
    forall i, j :: 0 <= i < j < |ss| ==> ss[i] != ss[j]
  }

  /** When every object but the one at position `i` still has its former
      value, the values are the former ones with position `i` replaced. */
  lemma ValuesReplaced(ss: seq<Sched>, i: nat, before: seq<ScheduleValue>)
    requires i < |ss| == |before|
    requires forall k :: 0 <= k < |ss| && k != i ==> ss[k].Value() == before[k]
    ensures Values(ss) == before[i := ss[i].Value()]
  {
  }

  /** `schedules.filter(sch => sch.name !== name)`. */
  function KeepOthers(ss: seq<Sched>, name: string): (r: seq<Sched>)
    reads ss
  {
    if ss == [] then []
    else if ss[0].name != name then [ss[0]] + KeepOthers(ss[1..], name)
    else KeepOthers(ss[1..], name)
  }

  /** The filter keeps the objects' order and fields, and so the values
      of the objects it keeps are the filtered values. */
  lemma {:induction false} KeepOthersValues(ss: seq<Sched>, name: string)
    ensures Values(KeepOthers(ss, name)) == Filter(Values(ss), OtherThan(name))
  {
    if ss != [] {
      KeepOthersValues(ss[1..], name);
      assert Values(ss)[1..] == Values(ss[1..]);
      if ss[0].name != name {
        assert Values([ss[0]] + KeepOthers(ss[1..], name)) == [ss[0].Value()] + Values(KeepOthers(ss[1..], name));
      }
    }
  }

  /** The filter keeps only listed objects, each at most once. */
  lemma {:induction false} KeepOthersDistinct(ss: seq<Sched>, name: string)
    requires Distinct(ss)
    ensures Distinct(KeepOthers(ss, name))
    ensures forall x :: x in KeepOthers(ss, name) ==> x in ss
  {
    if ss != [] {
      assert Distinct(ss[1..]);
      KeepOthersDistinct(ss[1..], name);
      var rest := KeepOthers(ss[1..], name);
      if ss[0].name != name {
        assert ss[0] !in ss[1..] by {
          forall j | 0 <= j < |ss| - 1 ensures ss[1..][j] != ss[0] {
            assert ss[1..][j] == ss[j + 1];
          }
        }
        var r := [ss[0]] + rest;
        forall i, j | 0 <= i < j < |r| ensures r[i] != r[j] {
          if i > 0 {
            assert r[i] == rest[i - 1] && r[j] == rest[j - 1];
          }
        }
      }
    }
  }

  // ---------------------------------------------------------------------
  // The component

  class RemoteComponent {
    var schedules: seq<Sched>
    var sortedTimeSlots: seq<Row>
    var currentPage: int

    /** Each schedule object is listed once, and the rows show the current
        slots (every handler that changes them ends with sortSchedules). */
    predicate Valid()
      reads this, schedules
    {
      Distinct(schedules) && sortedTimeSlots == SortedRows(Values(schedules))
    }

    function Contents(): seq<ScheduleValue>
      reads this, schedules
    {
      Values(schedules)
    }

    constructor ()
      ensures Valid() && schedules == [] && currentPage == 0
    {
      schedules := [];
      sortedTimeSlots := [];
      currentPage := 0;
    }

    method SortSchedules()
      modifies this`sortedTimeSlots
      ensures sortedTimeSlots == SortedRows(Contents())
    {
      sortedTimeSlots := SortBy(Rows(Values(schedules)), RowKey);
    }

    /** handleSave: the new schedule and the posted payload are built, then
        the schedule is appended whatever it collides with. */
    method HandleSave(startDate: int, endDate: int, duration: real, frequency: Frequency, scheduleName: string)
      returns (payload: seq<PayloadSchedule>)
      requires Valid()
      modifies this`schedules, this`sortedTimeSlots
      ensures Valid()
      ensures Contents() == old(Contents()) + [SavedValue(startDate, endDate, duration, frequency, scheduleName)]
      ensures payload == [SavePayload(startDate, endDate, duration, frequency, scheduleName)]
    {
      var newSchedule, timeslots := BuildSchedule(startDate, endDate, duration, frequency, scheduleName);
      payload := [PayloadSchedule(Seconds(startDate), Seconds(endDate), FrequencyName(frequency), scheduleName, timeslots)];
      Append(newSchedule);
      SortSchedules();
    }

    /** `schedules = [...schedules, newSchedule]` for an object not yet listed. */
    method Append(newSchedule: Sched)
      requires Distinct(schedules) && newSchedule !in schedules
      modifies this`schedules
      ensures Distinct(schedules)
      ensures Values(schedules) == old(Values(schedules)) + [newSchedule.Value()]
    {
      schedules := schedules + [newSchedule];
    }

    /** handleEditSave: the first slot starting where the row starts, in the
        first schedule carrying the row's name, is overwritten in place. A
        row index that names no row throws before anything changes. */
    method HandleEditSave(editIndex: int, startDate: int, duration: real)
      requires Valid()
      modifies this`sortedTimeSlots, schedules
      ensures Valid() && schedules == old(schedules)
      ensures Contents() == old(EditResult(Contents(), sortedTimeSlots, editIndex, startDate, duration)).GetOr(old(Contents()))
    {
      ghost var vals := Contents();
      ghost var result := EditResult(vals, sortedTimeSlots, editIndex, startDate, duration);
      if !(0 <= editIndex < |sortedTimeSlots|) {
        return;
      }
      var row := sortedTimeSlots[editIndex];
      var i := FindSchedule(schedules, row.scheduleName);
      if i.Some? {
        var schedule := schedules[i.value];
        var slotIndex := FindStart(schedule.timeSlots, row.startTime);
        assert vals[i.value] == schedule.Value();
        if slotIndex >= 0 {
          var t := Slot(startDate, duration);
          assert result == Some(vals[i.value := vals[i.value].(timeSlots := vals[i.value].timeSlots[slotIndex := t])]);
          schedule.SetSlot(slotIndex, t);
          ValuesReplaced(schedules, i.value, vals);
        }
        SortSchedules();
      }
    }

    /** handleDelete: one slot is spliced out of the first schedule carrying
        the row's name (the last one when no slot starts where the row
        starts); when that empties it, every schedule with the name leaves
        the list. */
    method HandleDelete(deleteIndex: int)
      requires Valid()
      modifies this`schedules, this`sortedTimeSlots, schedules
      ensures Valid()
      ensures Contents() == old(DeleteResult(Contents(), sortedTimeSlots, deleteIndex)).GetOr(old(Contents()))
    {
      if !(0 <= deleteIndex < |sortedTimeSlots|) {
        return;
      }
      var row := sortedTimeSlots[deleteIndex];
      var i := FindSchedule(schedules, row.scheduleName);
      if i.Some? {
        DeleteResultFound(Values(schedules), sortedTimeSlots, deleteIndex, i.value);
        DeleteFrom(i.value, row.startTime);
        SortSchedules();
      }
    }

    /** The body of handleDelete once the schedule is found at `i`: one slot
        is spliced out of it, and when that empties it every schedule with
        its name leaves the list. */
    method DeleteFrom(i: nat, startTime: int)
      requires Distinct(schedules) && i < |schedules|
      modifies this`schedules, schedules
      ensures Distinct(schedules)
      ensures var vals := old(Values(schedules));
        var left := SpliceOne(vals[i].timeSlots, FindStart(vals[i].timeSlots, startTime));
        Values(schedules) == if left == [] then Filter(vals, OtherThan(vals[i].name))
                             else vals[i := vals[i].(timeSlots := left)]
    {
      ghost var before := Values(schedules);
      var schedule := schedules[i];
      var slotIndex := FindStart(schedule.timeSlots, startTime);
      SpliceIn(schedules, i, slotIndex, before);
      if schedule.IsEmpty() {
        DropNamed(schedule.name, i, before);
      }
    }

    /** `schedules = schedules.filter(sch => sch.name !== name)`, once the
        object at `i` carrying the name has changed from `before[i]`. */
    method DropNamed(name: string, i: nat, ghost before: seq<ScheduleValue>)
      requires Distinct(schedules) && i < |schedules| == |before|
      requires schedules[i].name == name && before[i].name == name
      requires Values(schedules) == before[i := schedules[i].Value()]
      modifies this`schedules
      ensures Distinct(schedules)
      ensures Values(schedules) == Filter(before, OtherThan(name))
    {
      KeepOthersValues(schedules, name);
      KeepOthersDistinct(schedules, name);
      FilterSkipsUpdate(before, i, schedules[i].Value(), OtherThan(name));
      schedules := KeepOthers(schedules, name);
    }

    /** handleClearAll. */
    method HandleClearAll()
      modifies this`schedules, this`sortedTimeSlots, this`currentPage
      ensures Valid() && Contents() == [] && sortedTimeSlots == [] && currentPage == 0
    {
      schedules := [];
      currentPage := 0;
      sortedTimeSlots := [];
    }
  }

  /** `schedule.timeSlots.splice(index, 1)` on the object at `i`: only its
      value changes, since every object is listed once. */
  method SpliceIn(ss: seq<Sched>, i: nat, index: int, ghost before: seq<ScheduleValue>)
    requires Distinct(ss) && i < |ss| && before == Values(ss)
    modifies ss[i]
    ensures Values(ss) == before[i := before[i].(timeSlots := SpliceOne(before[i].timeSlots, index))]
  {
    ss[i].RemoveTimeSlot(index);
    ValuesReplaced(ss, i, before);
  }

  /** `schedules.find(sch => sch.name === name)`: the loop stops at the first
      schedule carrying the name. */
  method FindSchedule(ss: seq<Sched>, name: string) returns (r: Option<nat>)
    ensures r == FindNamed(Values(ss), name)
  {
    var k := 0;
    while k < |ss|
      invariant 0 <= k <= |ss|
      invariant forall n :: 0 <= n < k ==> ss[n].name != name
    {
      if ss[k].name == name {
        FindNamedFirstAt(Values(ss), name, k);
        return Some(k);
      }
      k := k + 1;
    }
    FindNamedIsFirst(Values(ss), name);
    return None;
  }

  /** The build of the new schedule: the one-off branch adds one slot, the
      recurring branch walks the occurrences, each adding a slot and a payload
      timeslot with the next `schedule_id`. */
  method BuildSchedule(startDate: int, endDate: int, duration: real, frequency: Frequency, scheduleName: string)
    returns (newSchedule: Sched, timeslots: seq<PayloadTimeslot>)
    ensures fresh(newSchedule)
    ensures newSchedule.Value() == SavedValue(startDate, endDate, duration, frequency, scheduleName)
    ensures timeslots == PayloadSlots(SaveInstants(startDate, endDate, frequency), duration, FrequencyName(frequency))
  {
    var name := if frequency == Once then "Once" else if scheduleName == "" then "Unnamed Schedule" else scheduleName;
    newSchedule := new Sched(name, FrequencyName(frequency));
    timeslots := [];
    if frequency == Once {
      var startEpoch := Seconds(startDate);
      var endEpoch := startEpoch + duration * 3600.0;
      newSchedule.AddTimeSlot(Slot(startDate, duration));
      timeslots := timeslots + [PayloadTimeslot(startEpoch, endEpoch, FrequencyName(frequency), 1)];
    } else {
      var step := if frequency == Daily then DayMs else WeekMs;
      var currentDate := startDate;
      var scheduleId := 1;
      ghost var visited: seq<int> := [];
      while currentDate <= endDate
        invariant SaveInstants(startDate, endDate, frequency) == visited + Occurrences(currentDate, endDate, step)
        invariant newSchedule.timeSlots == SlotsAt(visited, duration)
        invariant timeslots == PayloadSlots(visited, duration, FrequencyName(frequency))
        invariant scheduleId == |visited| + 1
        invariant newSchedule.name == name && newSchedule.frequency == FrequencyName(frequency)
        decreases endDate - currentDate
      {
        var startEpoch := Seconds(currentDate);
        var endEpoch := startEpoch + duration * 3600.0;
        newSchedule.AddTimeSlot(Slot(currentDate, duration));
        timeslots := timeslots + [PayloadTimeslot(startEpoch, endEpoch, FrequencyName(frequency), scheduleId)];
        scheduleId := scheduleId + 1;
        OccurrencesStep(visited, currentDate, endDate, step);
        visited := visited + [currentDate];
        currentDate := currentDate + step;
      }
      assert visited + [] == visited;
    }
  }
}
