/** Shared vocabulary of the scheduler model: optional values, mode payloads,
    time units, the recurrence cadences the UI offers and the expansion of a
    recurrence rule into occurrence instants. */
module Common {

  datatype Option<T> = None | Some(value: T) {
    function GetOr(default: T): T {
      match this
      case Some(v) => v
      case None => default
    }
  }

  /** A mode payload `{type: ..., <param>: ...}`; the engine does not interpret it.
      Parameter values are kept as strings. */
  type Mode = map<string, string>

  /** `{ type: '' }`, the default mode of a new slot or schedule. */
  const DefaultMode: Mode := map["type" := ""]

  // Time units. In-memory instants and durations are integer milliseconds.
  const SecondMs: int := 1000
  const MinuteMs: int := 60 * SecondMs
  const HourMs: int := 60 * MinuteMs
  const DayMs: int := 24 * HourMs
  const WeekMs: int := 7 * DayMs

  /** JavaScript's conversion of a fractional millisecond count to a Date
      value: truncation toward zero. */
  function Trunc(x: real): (r: int)
    ensures x >= 0.0 ==> r as real <= x < r as real + 1.0
    ensures x < 0.0 ==> r as real - 1.0 < x <= r as real
  {
    if x >= 0.0 then x.Floor else -((-x).Floor)
  }

  /** Milliseconds as the epoch seconds written on the wire. */
  function Seconds(ms: int): real {
    ms as real / 1000.0
  }

  /** A duration in milliseconds as the fractional hours written on the wire. */
  function Hours(ms: int): real {
    ms as real / 3600000.0
  }

  /** The elements of `s` satisfying `p`, in their original order
      (`Array.prototype.filter`, a list comprehension with a condition). */
  function Filter<T>(s: seq<T>, p: T -> bool): (r: seq<T>)
    ensures |r| <= |s|
    ensures forall k :: 0 <= k < |r| ==> r[k] in s && p(r[k])
    ensures forall k :: 0 <= k < |s| && p(s[k]) ==> s[k] in r
  {
    if s == [] then [] else (if p(s[0]) then [s[0]] else []) + Filter(s[1..], p)
  }

  /** Filtering distributes over concatenation, so survivors keep their
      relative order. */
  lemma {:induction false} FilterAppend<T>(a: seq<T>, b: seq<T>, p: T -> bool)
    ensures Filter(a + b, p) == Filter(a, p) + Filter(b, p)
  {
    if a != [] {
      assert (a + b)[1..] == a[1..] + b;
      FilterAppend(a[1..], b, p);
    } else {
      assert a + b == b;
    }
  }

  /** Filtering keeps everything when everything passes and drops
      everything when nothing does. */
  lemma {:induction false} FilterAllOrNone<T>(s: seq<T>, p: T -> bool)
    ensures (forall k :: 0 <= k < |s| ==> p(s[k])) ==> Filter(s, p) == s
    ensures (forall k :: 0 <= k < |s| ==> !p(s[k])) ==> Filter(s, p) == []
  {
    if s != [] {
      FilterAllOrNone(s[1..], p);
      assert s == [s[0]] + s[1..];
    }
  }

  function Min(a: int, b: int): int { if a <= b then a else b }
  function Max(a: int, b: int): int { if a >= b then a else b }

  /** The cadences offered by the creation dialog's radio group. */
  datatype Frequency = Once | Daily | Weekly

  function FrequencyName(f: Frequency): (r: string)
    ensures f == Once <==> r == "once"
  {
    match f
    case Once => "once"
    case Daily => "daily"
    case Weekly => "weekly"
  }

  /** How far one iteration of a recurrence loop advances for a stored
      frequency string: a day for "daily", a week for "weekly", and nothing
      for any other value (the loops have no other branch). */
  function StepOf(frequency: string): (r: nat)
    ensures r > 0 <==> frequency == "daily" || frequency == "weekly"
  {
    if frequency == "daily" then DayMs
    else if frequency == "weekly" then WeekMs
    else 0
  }

  /** The instants `start, start + step, ...` that are `<= end`. A loop that
      does not advance terminates only when it does not start. */
  function Occurrences(start: int, end: int, step: int): seq<int>
    requires step > 0 || start > end
    decreases if start <= end then end - start + 1 else 0
  {
    if start > end then [] else [start] + Occurrences(start + step, end, step)
  }

  /** Occurrence number `k` of a rule. */
  function OccurrenceAt(start: int, step: int, k: nat): int {
    start + k * step
  }

  /** Occurrences lie in `[start, end]`, are `step` apart, and the next step
      after the last one overshoots `end`. */
  lemma {:induction false} OccurrencesShape(start: int, end: int, step: int)
    requires step > 0
    ensures var r := Occurrences(start, end, step);
      && (|r| > 0 <==> start <= end)
      && (|r| > 0 ==> r[0] == start && r[|r| - 1] + step > end)
      && (forall k :: 0 <= k < |r| ==> start <= r[k] <= end)
      && (forall k :: 0 <= k < |r| - 1 ==> r[k + 1] == r[k] + step)
    decreases if start <= end then end - start + 1 else 0
  {
    if start <= end {
      OccurrencesShape(start + step, end, step);
    }
  }

  /** Occurrences ascend strictly. */
  lemma OccurrencesAscending(start: int, end: int, step: int)
    requires step > 0
    ensures var r := Occurrences(start, end, step);
      forall i, j :: 0 <= i < j < |r| ==> r[i] < r[j]
  {
    var r := Occurrences(start, end, step);
    OccurrencesShape(start, end, step);
    forall i, j | 0 <= i < j < |r| ensures r[i] < r[j] {
      var k := i;
      while k < j
        invariant i <= k <= j
        invariant r[i] <= r[k]
        invariant k > i ==> r[i] < r[k]
      {
        k := k + 1;
      }
    }
  }

  /** Occurrence `k` is `start + k * step`, and an instant is an occurrence
      exactly when it is `start + k * step <= end` for some `k`. */
  lemma {:induction false} OccurrencesFormula(start: int, end: int, step: int)
    requires step > 0
    ensures var r := Occurrences(start, end, step);
      && (forall k :: 0 <= k < |r| ==> r[k] == OccurrenceAt(start, step, k))
      && (forall k: nat :: OccurrenceAt(start, step, k) <= end ==> k < |r|)
    decreases if start <= end then end - start + 1 else 0
  {
    var r := Occurrences(start, end, step);
    if start <= end {
      var rest := Occurrences(start + step, end, step);
      OccurrencesFormula(start + step, end, step);
      assert r == [start] + rest;
      forall k | 0 <= k < |r| ensures r[k] == OccurrenceAt(start, step, k) {
        if k > 0 {
          assert r[k] == rest[k - 1] == OccurrenceAt(start + step, step, k - 1);
          assert (k - 1) * step + step == k * step;
        }
      }
      forall k: nat | OccurrenceAt(start, step, k) <= end ensures k < |r| {
        if k > 0 {
          assert (k - 1) * step + step == k * step;
          assert OccurrenceAt(start + step, step, k - 1) == OccurrenceAt(start, step, k);
        }
      }
    } else {
      forall k: nat ensures OccurrenceAt(start, step, k) > end {
        assert k * step >= 0;
      }
    }
  }

  /** One pass of a `while (current <= end)` loop: the occurrences from
      `current` on are `current` followed by those from the next one on. */
  lemma OccurrencesStep(visited: seq<int>, current: int, end: int, step: int)
    requires step > 0 && current <= end
    ensures visited + Occurrences(current, end, step) == (visited + [current]) + Occurrences(current + step, end, step)
  {
    var rest := Occurrences(current + step, end, step);
    assert Occurrences(current, end, step) == [current] + rest;
    assert visited + ([current] + rest) == (visited + [current]) + rest;
  }

  /** A weekly rule from day 0 to day 14 yields the days 0, 7 and 14. */
  lemma WeeklyTwoWeeks()
    ensures Occurrences(0, 14 * DayMs, WeekMs) == [0, WeekMs, 2 * WeekMs]
  {
    assert Occurrences(3 * WeekMs, 14 * DayMs, WeekMs) == [];
    assert Occurrences(2 * WeekMs, 14 * DayMs, WeekMs) == [2 * WeekMs];
    assert Occurrences(WeekMs, 14 * DayMs, WeekMs) == [WeekMs, 2 * WeekMs];
  }

  /** A daily rule from Monday 09:00 to Wednesday 09:00 yields Monday,
      Tuesday and Wednesday at 09:00. */
  lemma DailyMondayToWednesday(monday9: int)
    ensures Occurrences(monday9, monday9 + 2 * DayMs, DayMs)
         == [monday9, monday9 + DayMs, monday9 + 2 * DayMs]
  {
    var e := monday9 + 2 * DayMs;
    assert Occurrences(monday9 + 3 * DayMs, e, DayMs) == [];
    assert Occurrences(monday9 + 2 * DayMs, e, DayMs) == [monday9 + 2 * DayMs];
    assert Occurrences(monday9 + DayMs, e, DayMs) == [monday9 + DayMs, monday9 + 2 * DayMs];
  }
}
