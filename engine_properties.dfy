/** What the engine of src/SchedulerComponent.js promises, proved about the
    definitions in module Engine. */
module EngineProperties {
  import opened Common
  import opened Sorting
  import opened Engine

  // ---------------------------------------------------------------------
  // Collision

  /** For well-formed intervals the test detects every overlapping or
      touching pair except a candidate strictly inside the existing slot and a
      candidate that starts exactly where a slot that began earlier ends. */
  lemma CollidesCharacterised(cs: int, ce: int, vs: int, ve: int)
    requires cs <= ce && vs <= ve
    ensures Collides(cs, ce, vs, ve) <==>
      (cs <= ve && vs <= ce) && !(vs < cs && ce < ve) && !(vs < cs && cs == ve)
  {
  }

  /** A candidate ending exactly where a slot starts collides with it. */
  lemma TouchingCollides(cs: int, ce: int, vs: int, ve: int)
    requires cs <= ce && ce == vs
    ensures Collides(cs, ce, vs, ve)
  {
  }

  /** A candidate strictly inside an existing slot is not detected. */
  lemma ContainedMissed(cs: int, ce: int, vs: int, ve: int)
    requires vs < cs && ce < ve
    ensures !Collides(cs, ce, vs, ve)
  {
  }

  /** A candidate starting exactly where an earlier slot ends does not collide. */
  lemma FollowingMissed(cs: int, ce: int, vs: int, ve: int)
    requires vs < cs && cs == ve
    ensures !Collides(cs, ce, vs, ve)
  {
  }

  /** A slot collides with any candidate starting at its own start. */
  lemma SameStartCollides(t: TimeSlot, ce: int)
    requires t.startTime <= ce
    ensures CollidesWith(t, t.startTime, ce)
  {
  }

  // ---------------------------------------------------------------------
  // Queued merges

  /** The union span covers both the candidate and the old slot, and no more. */
  lemma UnionSpan(at: SlotRef, v: TimeSlot, cs: int, ce: int)
    requires cs <= ce && v.duration >= 0
    ensures var m := UnionMerge(at, v, cs, ce);
      && m.start == Min(cs, v.startTime) && m.start + m.duration == Max(ce, SlotEnd(v))
      && m.start <= cs && ce <= m.start + m.duration
      && m.start <= v.startTime && SlotEnd(v) <= m.start + m.duration
      && m.duration >= v.duration && m.duration >= ce - cs
  {
  }

  /** Merges against a list of schedules apply unchanged after a schedule is
      appended to it. */
  lemma {:induction false} ApplyMergesAppend(p: seq<Schedule>, x: Schedule, ms: seq<Merge>, kind: MergeKind)
    requires AllFit(p, ms)
    ensures AllFit(p + [x], ms)
    ensures ApplyMerges(p + [x], ms, kind) == ApplyMerges(p, ms, kind) + [x]
    decreases |ms|
  {
    assert AllFit(p + [x], ms) by {
      forall k | 0 <= k < |ms| ensures Fits(p + [x], ms[k].at) {
        assert Fits(p, ms[k].at);
      }
    }
    if ms != [] {
      var init := ms[..|ms| - 1];
      AllFitInit(p, ms);
      ApplyMergesAppend(p, x, init, kind);
    }
  }

  /** The last queued merge aimed at a position, if any. */
  function LastMergeAt(ms: seq<Merge>, at: SlotRef): Option<Merge>
    decreases |ms|
  {
    if ms == [] then None
    else if ms[|ms| - 1].at == at then Some(ms[|ms| - 1])
    else LastMergeAt(ms[..|ms| - 1], at)
  }

  /** Whether some merge in the queue touches schedule `i`. */
  predicate MergesSchedule(ms: seq<Merge>, i: nat) {
    exists k :: 0 <= k < |ms| && ms[k].at.sched == i
  }

  /** Overwriting a slot twice is overwriting it with the second merge. */
  lemma MergedSlotTwice(t: TimeSlot, m1: Merge, m2: Merge, kind: MergeKind)
    ensures MergedSlot(MergedSlot(t, m1, kind), m2, kind) == MergedSlot(t, m2, kind)
  {
  }

  /** One queued update changes only the slot it is aimed at, and only the
      `edited` flag of the schedule owning it. */
  lemma ApplyMergeStep(prev: seq<Schedule>, m: Merge, kind: MergeKind)
    requires Fits(prev, m.at)
    ensures var r := ApplyMerge(prev, m, kind);
      forall i, j :: 0 <= i < |prev| && 0 <= j < |prev[i].timeSlots| ==>
        r[i].timeSlots[j] == if m.at == SlotRef(i, j) then MergedSlot(prev[i].timeSlots[j], m, kind) else prev[i].timeSlots[j]
    ensures var r := ApplyMerge(prev, m, kind);
      forall i :: 0 <= i < |prev| ==>
        r[i] == prev[i].(timeSlots := r[i].timeSlots,
                         edited := if kind == MarkSchedule && m.at.sched == i then 1 else prev[i].edited)
  {
  }

  /** After the queued updates, a slot holds the last merge aimed at it,
      computed from the snapshot's slot (later writes to the same position
      win), and every other slot is the snapshot's. */
  lemma {:induction false} ApplyMergesSlots(snap: seq<Schedule>, ms: seq<Merge>, kind: MergeKind)
    requires AllFit(snap, ms)
    ensures var r := ApplyMerges(snap, ms, kind);
      forall i, j :: 0 <= i < |snap| && 0 <= j < |snap[i].timeSlots| ==>
        r[i].timeSlots[j] == match LastMergeAt(ms, SlotRef(i, j))
          case None => snap[i].timeSlots[j]
          case Some(m) => MergedSlot(snap[i].timeSlots[j], m, kind)
    decreases |ms|
  {
    if ms != [] {
      var init := ms[..|ms| - 1];
      var m := ms[|ms| - 1];
      AllFitInit(snap, ms);
      ApplyMergesSlots(snap, init, kind);
      var prev := ApplyMerges(snap, init, kind);
      ApplyMergeStep(prev, m, kind);
      var r := ApplyMerges(snap, ms, kind);
      assert r == ApplyMerge(prev, m, kind);
      forall i, j | 0 <= i < |snap| && 0 <= j < |snap[i].timeSlots|
        ensures r[i].timeSlots[j] == match LastMergeAt(ms, SlotRef(i, j))
          case None => snap[i].timeSlots[j]
          case Some(m') => MergedSlot(snap[i].timeSlots[j], m', kind)
      {
        if m.at != SlotRef(i, j) {
          assert LastMergeAt(ms, SlotRef(i, j)) == LastMergeAt(init, SlotRef(i, j));
        } else {
          match LastMergeAt(init, SlotRef(i, j))
          case None =>
          case Some(m1) => MergedSlotTwice(snap[i].timeSlots[j], m1, m, kind);
        }
      }
    }
  }

  /** The queued updates keep each schedule's name and rule; a recurring
      merge marks the schedule it lands in edited. */
  lemma {:induction false} ApplyMergesSchedules(snap: seq<Schedule>, ms: seq<Merge>, kind: MergeKind)
    requires AllFit(snap, ms)
    ensures var r := ApplyMerges(snap, ms, kind);
      forall i :: 0 <= i < |snap| ==>
        r[i] == snap[i].(timeSlots := r[i].timeSlots,
                         edited := if kind == MarkSchedule && MergesSchedule(ms, i) then 1 else snap[i].edited)
    decreases |ms|
  {
    if ms != [] {
      var init := ms[..|ms| - 1];
      var m := ms[|ms| - 1];
      AllFitInit(snap, ms);
      ApplyMergesSchedules(snap, init, kind);
      var prev := ApplyMerges(snap, init, kind);
      ApplyMergeStep(prev, m, kind);
      MergesScheduleLast(ms);
      var r := ApplyMerges(snap, ms, kind);
      assert r == ApplyMerge(prev, m, kind);
      forall i | 0 <= i < |snap|
        ensures r[i] == snap[i].(timeSlots := r[i].timeSlots,
                                 edited := if kind == MarkSchedule && MergesSchedule(ms, i) then 1 else snap[i].edited)
      {
        assert r[i] == prev[i].(timeSlots := r[i].timeSlots,
                                edited := if kind == MarkSchedule && m.at.sched == i then 1 else prev[i].edited);
      }
    }
  }

  /** The merges but the last fit wherever all of them do. */
  lemma AllFitInit(snap: seq<Schedule>, ms: seq<Merge>)
    requires ms != [] && AllFit(snap, ms)
    ensures AllFit(snap, ms[..|ms| - 1])
  {
    var init := ms[..|ms| - 1];
    forall k | 0 <= k < |init| ensures Fits(snap, init[k].at) { assert init[k] == ms[k]; }
  }

  /** A queue touches a schedule exactly when its last merge or one of the
      earlier ones does. */
  lemma MergesScheduleLast(ms: seq<Merge>)
    requires ms != []
    ensures forall i: nat :: MergesSchedule(ms, i) <==> (MergesSchedule(ms[..|ms| - 1], i) || ms[|ms| - 1].at.sched == i)
  {
    var init := ms[..|ms| - 1];
    forall i: nat ensures MergesSchedule(ms, i) <==> (MergesSchedule(init, i) || ms[|ms| - 1].at.sched == i) {
      if MergesSchedule(ms, i) {
        var k :| 0 <= k < |ms| && ms[k].at.sched == i;
        if k < |init| { assert init[k] == ms[k]; }
      }
      if MergesSchedule(init, i) {
        var k :| 0 <= k < |init| && init[k].at.sched == i;
        assert ms[k] == init[k];
      }
    }
  }

  // ---------------------------------------------------------------------
  // One-off save

  /** A one-off merge as the component intends it: the colliding slot
      becomes the union of itself and the candidate, marked edited. */
  function OnceMerged(t: TimeSlot, cs: int, ce: int): TimeSlot {
    TimeSlot(Min(cs, t.startTime), Max(ce, SlotEnd(t)) - Min(cs, t.startTime), 1, t.mode)
  }

  /** A schedule after a one-off collision: its first colliding slot merged. */
  function MergeFirstCollision(s: Schedule, cs: int, ce: int): Schedule {
    match FirstCollision(s.timeSlots, cs, ce)
    case None => s
    case Some(j) => s.(timeSlots := s.timeSlots[j := OnceMerged(s.timeSlots[j], cs, ce)])
  }

  /** A one-off save queues no merge exactly when no slot collides. */
  lemma {:induction false} OnceMergesEmpty(snap: seq<Schedule>, cs: int, ce: int)
    ensures OnceMerges(snap, cs, ce) == [] <==>
      forall i :: 0 <= i < |snap| ==> FirstCollision(snap[i].timeSlots, cs, ce).None?
    decreases |snap|
  {
    if snap != [] {
      var n := |snap| - 1;
      OnceMergesEmpty(snap[..n], cs, ce);
      forall i | 0 <= i < n ensures snap[..n][i] == snap[i] { }
    }
  }

  /** Applying a one-off save's merges merges the first colliding slot of
      every schedule that has one, and leaves every other schedule alone:
      the plain `break` ends only the scan of one schedule. */
  lemma {:induction false} OnceMergesPointwise(snap: seq<Schedule>, cs: int, ce: int)
    ensures ApplyMerges(snap, OnceMerges(snap, cs, ce), MarkSlot)
         == seq(|snap|, i requires 0 <= i < |snap| => MergeFirstCollision(snap[i], cs, ce))
    decreases |snap|
  {
    var goal := seq(|snap|, i requires 0 <= i < |snap| => MergeFirstCollision(snap[i], cs, ce));
    if snap != [] {
      var n := |snap| - 1;
      var p := snap[..n];
      var x := snap[n];
      assert snap == p + [x];
      OnceMergesPointwise(p, cs, ce);
      var mp := OnceMerges(p, cs, ce);
      ApplyMergesAppend(p, x, mp, MarkSlot);
      var q := ApplyMerges(p, mp, MarkSlot);
      assert q == goal[..n];
      match FirstCollision(x.timeSlots, cs, ce)
      case None =>
        assert OnceMerges(snap, cs, ce) == mp;
        assert q + [x] == goal;
      case Some(j) =>
        var m := UnionMerge(SlotRef(n, j), x.timeSlots[j], cs, ce);
        var ms := mp + [m];
        assert OnceMerges(snap, cs, ce) == ms;
        assert ms[..|ms| - 1] == mp;
        assert ApplyMerges(snap, ms, MarkSlot) == ApplyMerge(q + [x], m, MarkSlot);
        assert MergedSlot(x.timeSlots[j], m, MarkSlot) == OnceMerged(x.timeSlots[j], cs, ce);
        assert ApplyMerge(q + [x], m, MarkSlot) == goal;
    }
  }

  /** A one-off save: with no collision exactly one schedule named "Once"
      holding the single slot is appended and the others are untouched;
      otherwise no schedule is added and every schedule's first colliding
      slot is merged. */
  lemma OnceSave(snap: seq<Schedule>, startDate: int, endDate: int, duration: int, name: string, mode: Mode)
    ensures var cs := startDate; var ce := startDate + duration;
      var r := SaveSchedules(snap, startDate, endDate, duration, Once, name, mode);
      if forall i :: 0 <= i < |snap| ==> FirstCollision(snap[i].timeSlots, cs, ce).None? then
        r == snap + [Schedule("Once", "once", startDate, endDate, duration, Some(mode), 0,
                              [TimeSlot(startDate, duration, 0, mode)])]
      else
        |r| == |snap| && forall i :: 0 <= i < |snap| ==> r[i] == MergeFirstCollision(snap[i], cs, ce)
  {
    var cs := startDate;
    var ce := startDate + duration;
    var ms := OnceMerges(snap, cs, ce);
    OnceMergesEmpty(snap, cs, ce);
    if ms != [] {
      OnceMergesPointwise(snap, cs, ce);
      assert SaveSchedules(snap, startDate, endDate, duration, Once, name, mode) == ApplyMerges(snap, ms, MarkSlot);
    } else {
      assert SaveSchedules(snap, startDate, endDate, duration, Once, name, mode)
          == snap + [OnceSchedule(startDate, endDate, duration, mode)];
    }
  }

  // ---------------------------------------------------------------------
  // Recurring save

  /** Whether occurrence `c` meets no existing slot. */
  predicate Free(snap: seq<Schedule>, c: int, duration: int) {
    FirstCollisionAmong(snap, None, c, c + duration).None?
  }

  /** The free occurrences, in order. */
  function FreeOccurrences(snap: seq<Schedule>, occs: seq<int>, duration: int): (r: seq<int>)
    ensures forall k :: 0 <= k < |r| ==> Free(snap, r[k], duration)
    decreases |occs|
  {
    if occs == [] then []
    else
      var c := occs[|occs| - 1];
      FreeOccurrences(snap, occs[..|occs| - 1], duration) + (if Free(snap, c, duration) then [c] else [])
  }

  /** The occurrences that collide, in order. */
  function TakenOccurrences(snap: seq<Schedule>, occs: seq<int>, duration: int): (r: seq<int>)
    ensures forall k :: 0 <= k < |r| ==> !Free(snap, r[k], duration)
    decreases |occs|
  {
    if occs == [] then []
    else
      var c := occs[|occs| - 1];
      TakenOccurrences(snap, occs[..|occs| - 1], duration) + (if Free(snap, c, duration) then [] else [c])
  }

  /** The merge an occurrence queues: its first collision's union span. */
  function MergeFor(snap: seq<Schedule>, c: int, duration: int): Merge
    requires !Free(snap, c, duration)
  {
    var at := FirstCollisionAmong(snap, None, c, c + duration).value;
    UnionMerge(at, snap[at.sched].timeSlots[at.slot], c, c + duration)
  }

  function FreshSlots(cs: seq<int>, duration: int, mode: Mode): (r: seq<TimeSlot>)
    ensures |r| == |cs|
  {
    seq(|cs|, k requires 0 <= k < |cs| => TimeSlot(cs[k], duration, 0, mode))
  }

  /** One more occurrence either appends a fresh slot or queues one merge. */
  lemma RecurringPlanStep(snap: seq<Schedule>, init: seq<int>, c: int, duration: int, mode: Mode)
    ensures var p0 := RecurringPlan(snap, init, duration, mode);
      var p := RecurringPlan(snap, init + [c], duration, mode);
      if FirstCollisionAmong(snap, None, c, c + duration).None? then
        p == p0.(slots := p0.slots + [TimeSlot(c, duration, 0, mode)], edited := if p0.collided then 1 else 0)
      else
        p == p0.(merges := p0.merges + [MergeFor(snap, c, duration)], collided := true)
  {
    var occs := init + [c];
    assert occs[..|occs| - 1] == init;
    assert occs[|occs| - 1] == c;
  }

  /** The free occurrences, in order, become the new schedule's slots. */
  lemma {:induction false} RecurringSlots(snap: seq<Schedule>, occs: seq<int>, duration: int, mode: Mode)
    ensures RecurringPlan(snap, occs, duration, mode).slots == FreshSlots(FreeOccurrences(snap, occs, duration), duration, mode)
    decreases |occs|
  {
    if occs != [] {
      var n := |occs| - 1;
      var init := occs[..n];
      var c := occs[n];
      assert occs == init + [c];
      RecurringSlots(snap, init, duration, mode);
      RecurringPlanStep(snap, init, c, duration, mode);
      var free0 := FreeOccurrences(snap, init, duration);
      if Free(snap, c, duration) {
        assert FreshSlots(free0 + [c], duration, mode) == FreshSlots(free0, duration, mode) + [TimeSlot(c, duration, 0, mode)];
      }
    }
  }

  /** Every other occurrence queues exactly one merge, in order, into its
      first collision (the labelled break leaves both scan loops). */
  lemma {:induction false} RecurringMerges(snap: seq<Schedule>, occs: seq<int>, duration: int, mode: Mode)
    ensures var p := RecurringPlan(snap, occs, duration, mode);
      var taken := TakenOccurrences(snap, occs, duration);
      |p.merges| == |taken| && forall k :: 0 <= k < |taken| ==> p.merges[k] == MergeFor(snap, taken[k], duration)
    decreases |occs|
  {
    if occs != [] {
      var n := |occs| - 1;
      var init := occs[..n];
      var c := occs[n];
      assert occs == init + [c];
      RecurringMerges(snap, init, duration, mode);
      RecurringPlanStep(snap, init, c, duration, mode);
      var taken0 := TakenOccurrences(snap, init, duration);
      var p0 := RecurringPlan(snap, init, duration, mode);
      var p := RecurringPlan(snap, occs, duration, mode);
      if !Free(snap, c, duration) {
        var taken := taken0 + [c];
        assert TakenOccurrences(snap, occs, duration) == taken;
        assert p.merges == p0.merges + [MergeFor(snap, c, duration)];
        forall k | 0 <= k < |taken| ensures p.merges[k] == MergeFor(snap, taken[k], duration) {
          if k < |taken0| {
            assert taken[k] == taken0[k] && p.merges[k] == p0.merges[k];
          }
        }
      } else {
        assert TakenOccurrences(snap, occs, duration) == taken0;
        assert p.merges == p0.merges;
      }
    }
  }

  /** Free and taken occurrences account for every occurrence, each lists
      only occurrences of its kind, and each lists all of them. */
  lemma OccurrencePartition(snap: seq<Schedule>, occs: seq<int>, duration: int)
    ensures var free := FreeOccurrences(snap, occs, duration);
      var taken := TakenOccurrences(snap, occs, duration);
      && |free| + |taken| == |occs|
      && (forall k :: 0 <= k < |free| ==> free[k] in occs && Free(snap, free[k], duration))
      && (forall k :: 0 <= k < |taken| ==> taken[k] in occs && !Free(snap, taken[k], duration))
      && (forall k :: 0 <= k < |occs| && Free(snap, occs[k], duration) ==> occs[k] in free)
      && (forall k :: 0 <= k < |occs| && !Free(snap, occs[k], duration) ==> occs[k] in taken)
  {
    OccurrenceCounts(snap, occs, duration);
    FreeMembers(snap, occs, duration);
    TakenMembers(snap, occs, duration);
  }

  lemma {:induction false} OccurrenceCounts(snap: seq<Schedule>, occs: seq<int>, duration: int)
    ensures |FreeOccurrences(snap, occs, duration)| + |TakenOccurrences(snap, occs, duration)| == |occs|
    decreases |occs|
  {
    if occs != [] {
      OccurrenceCounts(snap, occs[..|occs| - 1], duration);
    }
  }

  /** The free occurrences are exactly the occurrences that are free. */
  lemma {:induction false} FreeMembers(snap: seq<Schedule>, occs: seq<int>, duration: int)
    ensures var free := FreeOccurrences(snap, occs, duration);
      && (forall k :: 0 <= k < |free| ==> free[k] in occs)
      && (forall k :: 0 <= k < |occs| && Free(snap, occs[k], duration) ==> occs[k] in free)
    decreases |occs|
  {
    if occs != [] {
      var n := |occs| - 1;
      var init := occs[..n];
      var c := occs[n];
      assert occs == init + [c];
      FreeMembers(snap, init, duration);
      var r0 := FreeOccurrences(snap, init, duration);
      var r := FreeOccurrences(snap, occs, duration);
      assert r == r0 + (if Free(snap, c, duration) then [c] else []);
      forall k | 0 <= k < |r| ensures r[k] in occs {
        if k < |r0| {
          assert r[k] == r0[k];
          assert r0[k] in init;
        } else {
          assert r[k] == c;
        }
      }
      forall k | 0 <= k < |occs| && Free(snap, occs[k], duration) ensures occs[k] in r {
        if k < n {
          assert occs[k] == init[k];
          assert init[k] in r0;
        } else {
          assert r[|r| - 1] == c;
        }
      }
    }
  }

  /** The taken occurrences are exactly the occurrences that collide. */
  lemma {:induction false} TakenMembers(snap: seq<Schedule>, occs: seq<int>, duration: int)
    ensures var taken := TakenOccurrences(snap, occs, duration);
      && (forall k :: 0 <= k < |taken| ==> taken[k] in occs)
      && (forall k :: 0 <= k < |occs| && !Free(snap, occs[k], duration) ==> occs[k] in taken)
    decreases |occs|
  {
    if occs != [] {
      var n := |occs| - 1;
      var init := occs[..n];
      var c := occs[n];
      assert occs == init + [c];
      TakenMembers(snap, init, duration);
      var r0 := TakenOccurrences(snap, init, duration);
      var r := TakenOccurrences(snap, occs, duration);
      assert r == r0 + (if !Free(snap, c, duration) then [c] else []);
      forall k | 0 <= k < |r| ensures r[k] in occs {
        if k < |r0| {
          assert r[k] == r0[k];
          assert r0[k] in init;
        } else {
          assert r[k] == c;
        }
      }
      forall k | 0 <= k < |occs| && !Free(snap, occs[k], duration) ensures occs[k] in r {
        if k < n {
          assert occs[k] == init[k];
          assert init[k] in r0;
        } else {
          assert r[|r| - 1] == c;
        }
      }
    }
  }

  /** Sublists picked in order from a strictly ascending list ascend strictly. */
  lemma {:induction false} FreeOccurrencesAscending(snap: seq<Schedule>, occs: seq<int>, duration: int)
    requires forall i, j :: 0 <= i < j < |occs| ==> occs[i] < occs[j]
    ensures var free := FreeOccurrences(snap, occs, duration);
      forall i, j :: 0 <= i < j < |free| ==> free[i] < free[j]
    decreases |occs|
  {
    if occs != [] {
      var n := |occs| - 1;
      var init := occs[..n];
      assert occs == init + [occs[n]];
      FreeOccurrencesAscending(snap, init, duration);
      OccurrencePartition(snap, init, duration);
      var free0 := FreeOccurrences(snap, init, duration);
      forall k | 0 <= k < |free0| ensures free0[k] < occs[n] {
        var i :| 0 <= i < |init| && init[i] == free0[k];
      }
    }
  }

  /** The scan has collided iff some occurrence is taken, and the new
      schedule is marked edited only after a collision. */
  lemma {:induction false} RecurringFlags(snap: seq<Schedule>, occs: seq<int>, duration: int, mode: Mode)
    ensures var p := RecurringPlan(snap, occs, duration, mode);
      && (p.collided <==> TakenOccurrences(snap, occs, duration) != [])
      && (p.edited == 1 ==> p.collided) && (p.edited == 0 || p.edited == 1)
    decreases |occs|
  {
    if occs != [] {
      var n := |occs| - 1;
      var init := occs[..n];
      var c := occs[n];
      assert occs == init + [c];
      RecurringFlags(snap, init, duration, mode);
      RecurringPlanStep(snap, init, c, duration, mode);
    }
  }

  /** The recurring branch in one statement: the free occurrences become the
      new schedule's slots in ascending order, every taken one queues exactly
      one merge into its first collision, and together they account for every
      occurrence. */
  lemma RecurringPlanShape(snap: seq<Schedule>, startDate: int, endDate: int, step: int, duration: int, mode: Mode)
    requires step > 0
    ensures var occs := Occurrences(startDate, endDate, step);
      var p := RecurringPlan(snap, occs, duration, mode);
      var free := FreeOccurrences(snap, occs, duration);
      var taken := TakenOccurrences(snap, occs, duration);
      && p.slots == FreshSlots(free, duration, mode)
      && (forall i, j :: 0 <= i < j < |p.slots| ==> p.slots[i].startTime < p.slots[j].startTime)
      && |p.merges| == |taken|
      && (forall k :: 0 <= k < |taken| ==> p.merges[k] == MergeFor(snap, taken[k], duration))
      && |p.merges| + |p.slots| == |occs|
      && (p.collided <==> taken != [])
      && (p.edited == 1 ==> p.collided) && (p.edited == 0 || p.edited == 1)
  {
    var occs := Occurrences(startDate, endDate, step);
    var p := RecurringPlan(snap, occs, duration, mode);
    var free := FreeOccurrences(snap, occs, duration);
    RecurringSlots(snap, occs, duration, mode);
    RecurringMerges(snap, occs, duration, mode);
    RecurringFlags(snap, occs, duration, mode);
    assert |free| + |TakenOccurrences(snap, occs, duration)| == |occs| by {
      OccurrencePartition(snap, occs, duration);
    }
    assert forall i, j :: 0 <= i < j < |free| ==> free[i] < free[j] by {
      OccurrencesAscending(startDate, endDate, step);
      assert forall i, j :: 0 <= i < j < |Occurrences(startDate, endDate, step)| ==>
        Occurrences(startDate, endDate, step)[i] < Occurrences(startDate, endDate, step)[j];
      FreeOccurrencesAscending(snap, occs, duration);
    }
    assert forall i :: 0 <= i < |p.slots| ==> p.slots[i].startTime == free[i];
  }

  /** A recurring save appends a schedule iff some occurrence is free, and
      the earlier schedules are the snapshot with the merges applied. */
  lemma RecurringSaveAppendsIffFree(snap: seq<Schedule>, startDate: int, endDate: int, duration: int,
                                    frequency: Frequency, name: string, mode: Mode)
    requires frequency != Once
    ensures var occs := Occurrences(startDate, endDate, StepOf(FrequencyName(frequency)));
      var r := SaveSchedules(snap, startDate, endDate, duration, frequency, name, mode);
      var free := FreeOccurrences(snap, occs, duration);
      && |r| == |snap| + (if free == [] then 0 else 1)
      && r[..|snap|] == ApplyMerges(snap, RecurringPlan(snap, occs, duration, mode).merges, MarkSchedule)
      && (free != [] ==> r[|snap|].name == name && r[|snap|].timeSlots == FreshSlots(free, duration, mode))
  {
    var occs := Occurrences(startDate, endDate, StepOf(FrequencyName(frequency)));
    RecurringSlots(snap, occs, duration, mode);
  }

  /** The free occurrences are all of them when none collides. */
  lemma {:induction false} AllFree(snap: seq<Schedule>, occs: seq<int>, duration: int)
    requires forall k :: 0 <= k < |occs| ==> Free(snap, occs[k], duration)
    ensures FreeOccurrences(snap, occs, duration) == occs
    ensures TakenOccurrences(snap, occs, duration) == []
    decreases |occs|
  {
    if occs != [] {
      var n := |occs| - 1;
      assert occs == occs[..n] + [occs[n]];
      AllFree(snap, occs[..n], duration);
    }
  }

  /** With no existing slot overlapping the rule's span, a recurring save
      appends one schedule holding every occurrence, unedited, and changes
      nothing else. */
  lemma RecurringSaveNoCollision(snap: seq<Schedule>, startDate: int, endDate: int, duration: int,
                                 frequency: Frequency, name: string, mode: Mode)
    requires frequency != Once && startDate <= endDate
    requires forall i, j :: 0 <= i < |snap| && 0 <= j < |snap[i].timeSlots| ==> snap[i].timeSlots[j].duration >= 0
    requires forall i, j :: 0 <= i < |snap| && 0 <= j < |snap[i].timeSlots| ==>
      !(snap[i].timeSlots[j].startTime <= endDate + duration && startDate <= SlotEnd(snap[i].timeSlots[j]))
    ensures var occs := Occurrences(startDate, endDate, StepOf(FrequencyName(frequency)));
      SaveSchedules(snap, startDate, endDate, duration, frequency, name, mode)
        == snap + [Schedule(name, FrequencyName(frequency), startDate, endDate, duration, Some(mode), 0,
                            FreshSlots(occs, duration, mode))]
  {
    var step := StepOf(FrequencyName(frequency));
    var occs := Occurrences(startDate, endDate, step);
    OccurrencesShape(startDate, endDate, step);
    forall k | 0 <= k < |occs| ensures Free(snap, occs[k], duration) {
      var c := occs[k];
      assert startDate <= c <= endDate;
      forall i | 0 <= i < |snap| ensures FirstCollision(snap[i].timeSlots, c, c + duration).None? {
        forall j | 0 <= j < |snap[i].timeSlots| ensures !CollidesWith(snap[i].timeSlots[j], c, c + duration) {
          var t := snap[i].timeSlots[j];
          assert !(t.startTime <= endDate + duration && startDate <= SlotEnd(t));
        }
      }
    }
    AllFree(snap, occs, duration);
    RecurringSlots(snap, occs, duration, mode);
    RecurringMerges(snap, occs, duration, mode);
    RecurringFlags(snap, occs, duration, mode);
  }

  // ---------------------------------------------------------------------
  // Regeneration

  /** The first old slot starting at `t`, by index. */
  predicate FirstStartingAt(prior: seq<TimeSlot>, t: int, k: int) {
    0 <= k < |prior| && prior[k].startTime == t && forall i :: 0 <= i < k ==> prior[i].startTime != t
  }

  lemma {:induction false} FindByStartFirst(prior: seq<TimeSlot>, t: int, k: int)
    requires FirstStartingAt(prior, t, k)
    ensures FindByStart(prior, t) == Some(prior[k])
    decreases |prior|
  {
    if k > 0 {
      assert FirstStartingAt(prior[1..], t, k - 1) by {
        forall i | 0 <= i < k - 1 ensures prior[1..][i].startTime != t { assert prior[1..][i] == prior[i + 1]; }
      }
      FindByStartFirst(prior[1..], t, k - 1);
    }
  }

  /** An occurrence keeps the first old slot starting there when that slot
      is edited (its own duration and mode, still edited); otherwise it gets a
      fresh unedited slot with the new duration. */
  lemma RegeneratedSlotKeepsEdited(prior: seq<TimeSlot>, t: int, duration: int, mode: Mode)
    ensures forall k :: FirstStartingAt(prior, t, k) ==>
      RegeneratedSlot(prior, t, duration, mode)
        == if prior[k].edited == 1 then prior[k] else TimeSlot(t, duration, 0, mode)
    ensures (forall k :: 0 <= k < |prior| ==> prior[k].startTime != t) ==>
      RegeneratedSlot(prior, t, duration, mode) == TimeSlot(t, duration, 0, mode)
  {
    forall k | FirstStartingAt(prior, t, k)
      ensures RegeneratedSlot(prior, t, duration, mode)
        == if prior[k].edited == 1 then prior[k] else TimeSlot(t, duration, 0, mode)
    {
      FindByStartFirst(prior, t, k);
    }
  }

  /** Every slot the rule yields that is not edited is a fresh one inside
      the new window. */
  lemma RuleSlotsFresh(prior: seq<TimeSlot>, newStart: int, newEnd: int, newDuration: int,
                       newFrequency: string, mode: Mode)
    requires StepOf(newFrequency) > 0
    ensures var rule := RuleSlots(prior, newStart, newEnd, newDuration, newFrequency, mode);
      forall i :: 0 <= i < |rule| && rule[i].edited != 1 ==>
        rule[i] == TimeSlot(rule[i].startTime, newDuration, 0, mode) && newStart <= rule[i].startTime <= newEnd
  {
    var occs := Occurrences(newStart, newEnd, StepOf(newFrequency));
    var rule := RuleSlots(prior, newStart, newEnd, newDuration, newFrequency, mode);
    OccurrencesShape(newStart, newEnd, StepOf(newFrequency));
    forall i | 0 <= i < |rule| && rule[i].edited != 1
      ensures rule[i] == TimeSlot(rule[i].startTime, newDuration, 0, mode) && newStart <= rule[i].startTime <= newEnd
    {
      assert rule[i] == RegeneratedSlot(prior, occs[i], newDuration, mode);
    }
  }

  /** The kept slots are all edited. */
  lemma KeptAreEdited(prior: seq<TimeSlot>, newStart: int, newEnd: int)
    ensures forall x :: x in KeptEdited(prior, newStart, newEnd) ==> x.edited == 1
  {
    var kept := KeptEdited(prior, newStart, newEnd);
    forall x | x in kept ensures x.edited == 1 {
      var i :| 0 <= i < |kept| && kept[i] == x;
    }
  }

  /** The rebuilt list is in start order, holds one slot per occurrence plus
      the kept edited slots and nothing else, keeps every edited slot outside the
      new window, and every unedited slot in it is a fresh one from the rule. */
  lemma RegenerateShape(prior: seq<TimeSlot>, newStart: int, newEnd: int, newDuration: int,
                        newFrequency: string, mode: Mode)
    requires StepOf(newFrequency) > 0
    ensures var occs := Occurrences(newStart, newEnd, StepOf(newFrequency));
      var r := Regenerate(prior, newStart, newEnd, newDuration, newFrequency, mode);
      && SortedBy(r, SlotKey)
      && |r| == |occs| + |KeptEdited(prior, newStart, newEnd)|
      && (forall k :: 0 <= k < |prior| && OutsideWindow(prior[k], newStart, newEnd) ==> prior[k] in r)
      && (forall k :: 0 <= k < |occs| ==> RegeneratedSlot(prior, occs[k], newDuration, mode) in r)
      && (forall k :: 0 <= k < |r| && r[k].edited != 1 ==>
            r[k] == TimeSlot(r[k].startTime, newDuration, 0, mode) && newStart <= r[k].startTime <= newEnd)
  {
    var occs := Occurrences(newStart, newEnd, StepOf(newFrequency));
    var rule := RuleSlots(prior, newStart, newEnd, newDuration, newFrequency, mode);
    var kept := KeptEdited(prior, newStart, newEnd);
    var r := Regenerate(prior, newStart, newEnd, newDuration, newFrequency, mode);
    assert r == SortBy(rule + kept, SlotKey);
    SortByPermutes(rule + kept, SlotKey);
    SortByMembers(rule + kept, SlotKey);
    forall k | 0 <= k < |prior| && OutsideWindow(prior[k], newStart, newEnd) ensures prior[k] in r {
      assert prior[k] in rule + kept;
    }
    forall k | 0 <= k < |occs| ensures RegeneratedSlot(prior, occs[k], newDuration, mode) in r {
      assert rule[k] in rule + kept;
    }
    RuleSlotsFresh(prior, newStart, newEnd, newDuration, newFrequency, mode);
    KeptAreEdited(prior, newStart, newEnd);
    forall k | 0 <= k < |r| && r[k].edited != 1
      ensures r[k] == TimeSlot(r[k].startTime, newDuration, 0, mode) && newStart <= r[k].startTime <= newEnd
    {
      assert r[k] in rule + kept;
      var i :| 0 <= i < |rule| && rule[i] == r[k];
    }
  }

  // ---------------------------------------------------------------------
  // Sorted view

  /** All slots of all schedules. */
  function SlotCount(snap: seq<Schedule>): nat
    decreases |snap|
  {
    if snap == [] then 0 else SlotCount(snap[..|snap| - 1]) + |snap[|snap| - 1].timeSlots|
  }

  predicate RowOf(snap: seq<Schedule>, row: SortedSlot) {
    exists i, j :: 0 <= i < |snap| && 0 <= j < |snap[i].timeSlots|
      && row == SortedSlot(DisplayName(snap[i].name), snap[i].timeSlots[j])
  }

  /** The listed rows are the slots of the schedules, each with its
      schedule's display name, and there are as many. */
  lemma TaggedShape(snap: seq<Schedule>)
    ensures |Tagged(snap)| == SlotCount(snap)
    ensures forall row :: row in Tagged(snap) <==> RowOf(snap, row)
  {
    TaggedCount(snap);
    forall row ensures row in Tagged(snap) <==> RowOf(snap, row) {
      if row in Tagged(snap) {
        TaggedRowOwned(snap, row);
      }
      if RowOf(snap, row) {
        var i, j :| 0 <= i < |snap| && 0 <= j < |snap[i].timeSlots| && row == SortedSlot(DisplayName(snap[i].name), snap[i].timeSlots[j]);
        TaggedListsSlot(snap, i, j);
      }
    }
  }

  lemma {:induction false} TaggedCount(snap: seq<Schedule>)
    ensures |Tagged(snap)| == SlotCount(snap)
    decreases |snap|
  {
    if snap != [] {
      TaggedCount(snap[..|snap| - 1]);
    }
  }

  /** A listed row belongs to some schedule. */
  lemma {:induction false} TaggedRowOwned(snap: seq<Schedule>, row: SortedSlot)
    requires row in Tagged(snap)
    ensures RowOf(snap, row)
    decreases |snap|
  {
    var n := |snap| - 1;
    var p := snap[..n];
    if row in Tagged(p) {
      TaggedRowOwned(p, row);
      var i, j :| 0 <= i < |p| && 0 <= j < |p[i].timeSlots| && row == SortedSlot(DisplayName(p[i].name), p[i].timeSlots[j]);
      assert snap[i] == p[i];
    } else {
      var j :| 0 <= j < |snap[n].timeSlots| && Tag(snap[n])[j] == row;
      assert row == SortedSlot(DisplayName(snap[n].name), snap[n].timeSlots[j]);
    }
  }

  /** Every slot of every schedule is listed. */
  lemma {:induction false} TaggedListsSlot(snap: seq<Schedule>, i: int, j: int)
    requires 0 <= i < |snap| && 0 <= j < |snap[i].timeSlots|
    ensures SortedSlot(DisplayName(snap[i].name), snap[i].timeSlots[j]) in Tagged(snap)
    decreases |snap|
  {
    var n := |snap| - 1;
    var p := snap[..n];
    if i < n {
      assert p[i] == snap[i];
      TaggedListsSlot(p, i, j);
    } else {
      assert Tag(snap[n])[j] == SortedSlot(DisplayName(snap[i].name), snap[i].timeSlots[j]);
    }
  }

  /** The Timeslots view lists every slot of every schedule exactly as often
      as the schedules hold it, each tagged with its schedule's display name,
      in ascending start order. */
  lemma SortedViewShape(snap: seq<Schedule>)
    ensures var v := SortedView(snap);
      && SortedBy(v, SortedSlotKey)
      && multiset(v) == multiset(Tagged(snap))
      && |v| == SlotCount(snap)
      && (forall row :: row in v <==> RowOf(snap, row))
  {
    TaggedShape(snap);
    SortByPermutes(Tagged(snap), SortedSlotKey);
    SortByMembers(Tagged(snap), SortedSlotKey);
  }

  /** With no schedules the Timeslots view is empty. */
  lemma SortedViewEmpty()
    ensures SortedView([]) == []
  {
    assert Tagged([]) == [];
  }

  // ---------------------------------------------------------------------
  // Edit

  /** Timeslots view: only slots of schedules carrying the row's name that
      start at the row's start are replaced, those schedules alone are marked
      edited, and every other schedule and slot is unchanged. */
  lemma EditSlotTouchesOnlyTarget(snap: seq<Schedule>, name: string, oldStart: int, newSlot: TimeSlot)
    ensures var r := EditSlotIn(snap, name, oldStart, newSlot);
      && |r| == |snap|
      && (forall i :: 0 <= i < |snap| && snap[i].name != name ==> r[i] == snap[i])
      && (forall i :: 0 <= i < |snap| && snap[i].name == name ==>
            r[i].edited == 1 && r[i].name == name && r[i].frequency == snap[i].frequency
            && r[i].startTime == snap[i].startTime && r[i].endTime == snap[i].endTime
            && r[i].duration == snap[i].duration
            && r[i].mode == snap[i].mode && |r[i].timeSlots| == |snap[i].timeSlots|
            && forall j :: 0 <= j < |snap[i].timeSlots| ==>
                 r[i].timeSlots[j] == (if snap[i].timeSlots[j].startTime == oldStart then newSlot else snap[i].timeSlots[j]))
      && SlotCount(r) == SlotCount(snap)
  {
    var r := EditSlotIn(snap, name, oldStart, newSlot);
    EditKeepsCount(snap, name, oldStart, newSlot);
  }

  lemma {:induction false} EditKeepsCount(snap: seq<Schedule>, name: string, oldStart: int, newSlot: TimeSlot)
    ensures SlotCount(EditSlotIn(snap, name, oldStart, newSlot)) == SlotCount(snap)
    decreases |snap|
  {
    if snap != [] {
      var n := |snap| - 1;
      EditKeepsCount(snap[..n], name, oldStart, newSlot);
      assert EditSlotIn(snap, name, oldStart, newSlot)[..n] == EditSlotIn(snap[..n], name, oldStart, newSlot);
    }
  }

  /** Schedules view: every schedule carrying the target's name is rebuilt
      under the new name, rule and window, with its mode `undefined`, its
      `edited` flag kept and its slots regenerated from its old ones; the
      others are unchanged. For a daily or weekly rule the regenerated slots
      are in start order, hold one slot per occurrence of the rule plus the
      kept edited slots, and keep every edited slot outside the new window. */
  lemma EditScheduleRebuildsNamed(snap: seq<Schedule>, targetName: string, newName: string, newFrequency: string,
                                  start: int, end: int, duration: int)
    requires RegenerationTerminates(start, end, newFrequency)
    ensures var r := EditScheduleIn(snap, targetName, newName, newFrequency, start, end, duration);
      && |r| == |snap|
      && (forall i :: 0 <= i < |snap| && snap[i].name != targetName ==> r[i] == snap[i])
      && (forall i :: 0 <= i < |snap| && snap[i].name == targetName ==>
            r[i].name == newName && r[i].mode == None && r[i].frequency == newFrequency
            && r[i].startTime == start && r[i].endTime == end && r[i].duration == duration
            && r[i].edited == snap[i].edited
            && r[i].timeSlots == Regenerate(snap[i].timeSlots, start, end, duration, newFrequency, DefaultMode))
      && (StepOf(newFrequency) > 0 ==>
            var occs := Occurrences(start, end, StepOf(newFrequency));
            forall i :: 0 <= i < |snap| && snap[i].name == targetName ==>
              && SortedBy(r[i].timeSlots, SlotKey)
              && |r[i].timeSlots| == |occs| + |KeptEdited(snap[i].timeSlots, start, end)|
              && (forall k :: 0 <= k < |occs| ==>
                    RegeneratedSlot(snap[i].timeSlots, occs[k], duration, DefaultMode) in r[i].timeSlots)
              && (forall k :: 0 <= k < |snap[i].timeSlots| && OutsideWindow(snap[i].timeSlots[k], start, end) ==>
                    snap[i].timeSlots[k] in r[i].timeSlots))
  {
    var r := EditScheduleIn(snap, targetName, newName, newFrequency, start, end, duration);
    if StepOf(newFrequency) > 0 {
      var occs := Occurrences(start, end, StepOf(newFrequency));
      forall i | 0 <= i < |snap| && snap[i].name == targetName
        ensures SortedBy(r[i].timeSlots, SlotKey)
        ensures |r[i].timeSlots| == |occs| + |KeptEdited(snap[i].timeSlots, start, end)|
        ensures forall k :: 0 <= k < |occs| ==>
                  RegeneratedSlot(snap[i].timeSlots, occs[k], duration, DefaultMode) in r[i].timeSlots
        ensures forall k :: 0 <= k < |snap[i].timeSlots| && OutsideWindow(snap[i].timeSlots[k], start, end) ==>
                  snap[i].timeSlots[k] in r[i].timeSlots
      {
        RegenerateShape(snap[i].timeSlots, start, end, duration, newFrequency, DefaultMode);
      }
    }
  }

  // ---------------------------------------------------------------------
  // Delete

  /** A row of a schedule with the empty name carries the display name
      `Unnamed Schedule`, which that schedule's own name never equals, so
      editing or deleting the row leaves the schedule as it was. */
  lemma UnnamedRowsUntouched(snap: seq<Schedule>, t: int, newSlot: TimeSlot)
    ensures forall i :: 0 <= i < |snap| && snap[i].name == "" ==>
              EditSlotIn(snap, DisplayName(""), t, newSlot)[i] == snap[i]
    ensures forall i :: 0 <= i < |snap| && snap[i].name == "" && |snap[i].timeSlots| > 0 ==>
              snap[i] in DeleteSlotIn(snap, DisplayName(""), t)
  {
    DeleteSlotShape(snap, DisplayName(""), t);
  }

  /** Deleting a row removes every slot with that start from the schedules
      carrying the row's name, leaves no empty schedule, and keeps every
      schedule of another name that had slots. The result holds exactly the
      pruned schedules that still have slots: nothing new, and none lost. */
  lemma DeleteSlotShape(snap: seq<Schedule>, name: string, t: int)
    ensures var r := DeleteSlotIn(snap, name, t);
      && |r| <= |snap|
      && (forall k :: 0 <= k < |r| ==> |r[k].timeSlots| > 0)
      && (forall k, j :: 0 <= k < |r| && r[k].name == name && 0 <= j < |r[k].timeSlots| ==>
            r[k].timeSlots[j].startTime != t)
      && (forall i :: 0 <= i < |snap| && snap[i].name != name && |snap[i].timeSlots| > 0 ==> snap[i] in r)
      && (forall k :: 0 <= k < |r| ==> exists i :: 0 <= i < |snap| && r[k] == Pruned(snap[i], name, t))
      && (forall i :: 0 <= i < |snap| && |Pruned(snap[i], name, t).timeSlots| > 0 ==> Pruned(snap[i], name, t) in r)
  {
    var mapped := seq(|snap|, i requires 0 <= i < |snap| => Pruned(snap[i], name, t));
    var r := DeleteSlotIn(snap, name, t);
    assert r == Filter(mapped, NonEmpty);
    forall k | 0 <= k < |r| ensures exists i :: 0 <= i < |snap| && r[k] == Pruned(snap[i], name, t) {
      assert r[k] in mapped;
      var i :| 0 <= i < |mapped| && mapped[i] == r[k];
      assert r[k] == Pruned(snap[i], name, t);
    }
    forall k, j | 0 <= k < |r| && r[k].name == name && 0 <= j < |r[k].timeSlots|
      ensures r[k].timeSlots[j].startTime != t
    {
      assert r[k] in mapped;
      var i :| 0 <= i < |mapped| && mapped[i] == r[k];
      assert snap[i].name == name;
      assert r[k].timeSlots[j] in r[k].timeSlots;
    }
    forall i | 0 <= i < |snap| && |Pruned(snap[i], name, t).timeSlots| > 0 ensures Pruned(snap[i], name, t) in r {
      assert NonEmpty(mapped[i]);
    }
    forall i | 0 <= i < |snap| && snap[i].name != name && |snap[i].timeSlots| > 0 ensures snap[i] in r {
      assert mapped[i] == snap[i];
      assert NonEmpty(mapped[i]);
    }
  }

  /** The delete treats each schedule on its own and keeps the survivors in
      their order: deleting from a concatenation concatenates the results. */
  lemma DeleteSlotAppend(a: seq<Schedule>, b: seq<Schedule>, name: string, t: int)
    ensures DeleteSlotIn(a + b, name, t) == DeleteSlotIn(a, name, t) + DeleteSlotIn(b, name, t)
  {
    var ma := seq(|a|, i requires 0 <= i < |a| => Pruned(a[i], name, t));
    var mb := seq(|b|, i requires 0 <= i < |b| => Pruned(b[i], name, t));
    var mab := seq(|a + b|, i requires 0 <= i < |a + b| => Pruned((a + b)[i], name, t));
    assert mab == ma + mb;
    FilterAppend(ma, mb, NonEmpty);
  }

  /** A single schedule survives the delete, pruned, exactly when some slot
      at another start is left. */
  lemma DeleteSlotSingle(s: Schedule, name: string, t: int)
    ensures DeleteSlotIn([s], name, t)
         == if |Pruned(s, name, t).timeSlots| > 0 then [Pruned(s, name, t)] else []
  {
    var m := seq(1, i requires 0 <= i < 1 => Pruned([s][i], name, t));
    assert m == [Pruned(s, name, t)];
    assert m[1..] == [];
  }

  /** Deleting a schedule removes every schedule carrying its name and keeps
      every other one. */
  lemma DeleteScheduleShape(snap: seq<Schedule>, name: string)
    ensures var r := DeleteScheduleIn(snap, name);
      && (forall k :: 0 <= k < |r| ==> r[k].name != name)
      && (forall i :: 0 <= i < |snap| && snap[i].name != name ==> snap[i] in r)
      && ((exists i :: 0 <= i < |snap| && snap[i].name == name) ==> |r| < |snap|)
  {
    var r := DeleteScheduleIn(snap, name);
    if exists i :: 0 <= i < |snap| && snap[i].name == name {
      var i :| 0 <= i < |snap| && snap[i].name == name;
      FilterDropsCount(snap, (s: Schedule) => s.name != name, i);
    }
  }

  /** A filter that rejects some element is strictly shorter. */
  lemma {:induction false} FilterDropsCount<T>(s: seq<T>, p: T -> bool, i: int)
    requires 0 <= i < |s| && !p(s[i])
    ensures |Filter(s, p)| < |s|
  {
    if i > 0 {
      assert s[1..][i - 1] == s[i];
      FilterDropsCount(s[1..], p, i - 1);
    }
  }
}
