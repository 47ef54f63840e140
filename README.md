# doover_scheduler: a Dafny model of the schedule bookkeeping

doover_scheduler has two parts. A browser widget lets an operator create, edit
and delete recurring schedules of timeslots for a remote device. A Python
controller on the device reads the same schedules from the `schedules` channel
and picks the slot that is running and the next one to come. This project
models the bookkeeping of both parts, stripped of rendering and network calls,
and proves properties of that model.

The modules:

- `Common`, `Sorting`: time units, the recurrence expansion, `filter`, and a
  stable sort by key. The stable sort stands for `Array.prototype.sort` and
  Python's `sorted`.
- `Engine`, `EngineProperties`: the logic of `src/SchedulerComponent.js`, written
  as functions over the pre-commit snapshot of `schedules`:
  - the collision test;
  - the one-off and recurring saves, with their merges;
  - `updateTimeslots` regeneration;
  - the Timeslots and Schedules views;
  - edits and deletes.
- `SchedulerComponent`: the handlers as imperative methods. The scanning loops
  are proved equal to the `Engine` functions. The class `RemoteComponent`
  holds the component state.
- `Form`, `Paging`: the 15-minute round-up, the mode helpers, page slices, and
  the page jump with its `parseInt`.
- `Wire`, `WireMapping`: the JSON records that `pushChanges` writes and
  `componentDidMount` reads back.
- `OnceCapture`: the one-off merge exactly as written (see Findings).
- `TempStore`: the earlier draft `src/tempstore.js`. `Sched` objects are
  updated in place, and `RemoteComponent` holds a list of them.
- `Controller`: `doover_scheduler.py`, covering the `Schedule`/`Timeslot`
  records, `from_data` and the `ScheduleController` class.
- `Pipeline`: what the widget pushes, as the controller reads it.

Units:

- In the widget, instants and durations are integer milliseconds. The source
  keeps durations in hours and multiplies by `3600 * 1000` at each use.
- On the wire, and in the controller, they are `real` seconds and hours.
- Reading a wire instant back truncates toward zero, as the `Date` constructor
  does.
- `addDays`/`addWeeks` are fixed steps of 86 400 000 ms and 7 × 86 400 000 ms.
- Clocks are a `now` parameter.
- A slot is identified by its schedule's name and its start. Every one-off
  schedule is named `Once`, so "the schedule" means every schedule with that
  name.

Behaviour the code has and a reader might not expect. The model follows the
code in each case:

- The one-off save scans every schedule. Its `break` only leaves the inner
  loop, so each schedule can contribute one merge; more than one collision can
  merge per save.
- The Timeslots-view edit checks the new interval against every slot,
  including the slot being edited. An edit that keeps a slot's start always
  conflicts (`EditKeepingStartConflicts`).
- The Schedules-view edit skips the schedules carrying the name typed in the
  form, not the original name.
- Its conflict loop advances only for `daily` and `weekly`. For any other
  frequency with start ≤ end it never ends unless the first check conflicts.
  This is the `Hangs` outcome, and nothing changes.
- The same edit stores the schedule's mode as `undefined`, because
  `let modeObject` at line 662 shadows the value computed at line 616. The push
  then omits `mode`, and the controller's `from_data` raises on the whole
  update (`Pipeline.ScheduleEditUnreadable`).
- `current_timeslot` returns the first slot once it has started, even if it
  has already ended.
- `main_loop` looks only at the first slot in start order.
- In `src/tempstore.js`, an edit or delete whose start matches no slot uses
  index −1:
  - the edit writes a property named `-1` that no slot reads, so the slots
    are unchanged;
  - the delete's `splice(-1, 1)` removes the last slot.
- The Timeslots view shows a schedule with the empty name as
  `Unnamed Schedule`, and its edit and delete match schedules by that shown
  name. Their rows can therefore never edit or delete a schedule whose stored
  name is empty (`EngineProperties.UnnamedRowsUntouched`).

## Model

| member | source | states |
|---|---|---|
| Common.Trunc | src/SchedulerComponent.js:979 | a wire instant becomes a whole millisecond count by truncation toward zero (within one millisecond, on the side of zero) |
| Common.Filter | src/SchedulerComponent.js:758 | filtering keeps exactly the elements passing the test, and keeps nothing else |
| Common.FilterAppend | src/SchedulerComponent.js:771 | filtering distributes over concatenation, so survivors keep their relative order |
| Common.FilterAllOrNone | src/SchedulerComponent.js:758 | a filter that every element passes is the identity; one that none passes gives the empty list |
| Common.FrequencyName | src/SchedulerComponent.js:400 | only the `Once` choice is written `"once"`, the value the save branches on |
| Common.StepOf | src/SchedulerComponent.js:533-537 | a recurrence loop advances exactly for `daily` and `weekly` |
| Common.OccurrencesShape | src/SchedulerComponent.js:474-537 | occurrences exist iff start ≤ end; they start at `startDate`, lie in `[start, end]`, are one step apart, and one more step overshoots the end |
| Common.OccurrencesAscending | src/SchedulerComponent.js:480 | occurrences are strictly increasing |
| Common.OccurrencesFormula | src/SchedulerComponent.js:480-537 | occurrence k is `start + k·step`, and every such value ≤ end is an occurrence |
| Common.OccurrencesStep | src/SchedulerComponent.js:533-537 | one loop iteration moves the current date from the pending occurrences to the visited ones |
| Common.WeeklyTwoWeeks | src/SchedulerComponent.js:535-536 | a weekly rule over 14 days yields three occurrences |
| Common.DailyMondayToWednesday | src/SchedulerComponent.js:533-534 | a daily rule from Monday to Wednesday at the same hour yields three occurrences |
| Sorting.SortByPermutes | src/SchedulerComponent.js:930 | sorting by start gives a sorted permutation of the slots |
| Sorting.SortByMembers | src/SchedulerComponent.js:930 | sorting neither adds nor loses an element |
| Sorting.SortBySorted | src/SchedulerComponent.js:601 | sorting an already sorted list leaves it unchanged |
| Sorting.InsertStable | src/SchedulerComponent.js:930 | an inserted element goes in front of every element with the same key |
| Sorting.SortByStable | src/SchedulerComponent.js:930 | the sort is stable: for every key, the elements carrying it come out in the order they went in |
| Sorting.SortByIdempotent | src/SchedulerComponent.js:930 | sorting twice is sorting once |
| Sorting.SortByHeadIsLeast | doover_scheduler.py:271-273 | the first sorted element has the least key |
| Engine.FirstCollision | src/SchedulerComponent.js:407-411 | a slot found collides with the candidate interval |
| Engine.FirstCollisionIsFirst | src/SchedulerComponent.js:407-411 | the slot scan stops at the first colliding slot, and finds none iff no slot collides |
| Engine.FirstCollisionAmong | src/SchedulerComponent.js:487-493 | a collision found lies in a schedule that is not skipped, at that schedule's first colliding slot |
| Engine.FirstCollisionAmongIsFirst | src/SchedulerComponent.js:486-522 | the labelled scan finds the first schedule that has a collision, and finds nothing iff no schedule that is not skipped has one |
| Engine.FirstCollisionAmongAt | src/SchedulerComponent.js:669-683 | when schedule i is the first that collides, the scan reports its first colliding slot |
| Engine.ApplyMerge | src/SchedulerComponent.js:413-434 | one queued update keeps every schedule and every slot count |
| Engine.ApplyMerges | src/SchedulerComponent.js:413-434 | applying queued merges keeps every schedule and every slot count |
| Engine.ApplyMergesPrefixStep | src/SchedulerComponent.js:494-515 | the queued updates run one after another, each on the result of the previous one |
| Engine.OnceMerges | src/SchedulerComponent.js:406-440 | every one-off merge addresses an existing slot of the snapshot |
| Engine.RecurringPlan | src/SchedulerComponent.js:480-538 | every merge the recurring loop queues addresses an existing slot |
| Engine.FindByStart | src/SchedulerComponent.js:576-578 | `find` returns a prior slot starting at the occurrence, and nothing iff no prior slot starts there |
| Engine.RegeneratedSlots | src/SchedulerComponent.js:575-591 | each occurrence yields the regenerated slot for that occurrence, in order |
| Engine.KeptEdited | src/SchedulerComponent.js:595-599 | exactly the edited prior slots outside `[newStart, newEnd]` are kept |
| Engine.Tag | src/SchedulerComponent.js:923-929 | each slot is listed once, tagged with its schedule's name, or `Unnamed Schedule` when the name is empty |
| Engine.EditSlotIn | src/SchedulerComponent.js:639-653 | a Timeslots-view edit keeps the number of schedules |
| Engine.Pruned | src/SchedulerComponent.js:744-754 | a schedule with the row's name loses exactly its slots at the row's start; every other field, and every other schedule, is untouched |
| Engine.RuleConflictsSnoc | src/SchedulerComponent.js:664-689 | a rule conflicts over one more occurrence iff it conflicted before or the new occurrence conflicts |
| Engine.RuleConflictsPrefix | src/SchedulerComponent.js:679-680 | once an occurrence conflicts, the rule conflicts whatever follows |
| Engine.EditScheduleIn | src/SchedulerComponent.js:695-719 | a Schedules-view edit keeps the number of schedules |
| EngineProperties.CollidesCharacterised | src/SchedulerComponent.js:410-411 | the test holds iff the intervals meet, except when the candidate lies strictly inside the slot or starts exactly where the slot ends |
| EngineProperties.TouchingCollides | src/SchedulerComponent.js:410 | a candidate ending where a slot starts collides |
| EngineProperties.ContainedMissed | src/SchedulerComponent.js:410-411 | a candidate strictly inside a slot is not detected |
| EngineProperties.FollowingMissed | src/SchedulerComponent.js:411 | a candidate starting exactly where a slot ends is not detected |
| EngineProperties.SameStartCollides | src/SchedulerComponent.js:410 | any candidate starting with a slot collides with it |
| EngineProperties.UnionSpan | src/SchedulerComponent.js:419-421 | the merged slot starts at `min(cs, vs)`, ends at `max(ce, ve)`, and covers both intervals |
| EngineProperties.MergedSlotTwice | src/SchedulerComponent.js:417 | of two merges into one slot, the later write wins |
| EngineProperties.ApplyMergeStep | src/SchedulerComponent.js:494-515 | one merge replaces only its slot; a recurring merge sets only its schedule's `edited` |
| EngineProperties.ApplyMergesSlots | src/SchedulerComponent.js:413-434 | after all merges, each slot is the last merge aimed at it, or unchanged |
| EngineProperties.ApplyMergesSchedules | src/SchedulerComponent.js:505-509 | after all merges, a schedule differs only in its slots, and its `edited` is 1 iff a recurring merge hit it |
| EngineProperties.ApplyMergesAppend | src/SchedulerComponent.js:546 | merges on the snapshot commute with appending the new schedule |
| EngineProperties.OnceMergesEmpty | src/SchedulerComponent.js:441 | a one-off save queues no merge iff no slot collides |
| EngineProperties.OnceMergesPointwise | src/SchedulerComponent.js:406-440 | each schedule gets its first colliding slot merged (edited 1), and no other change |
| EngineProperties.OnceSave | src/SchedulerComponent.js:400-470 | a one-off save appends one `Once` schedule with the single slot iff nothing collides; otherwise it only merges each schedule's first colliding slot |
| EngineProperties.FreeOccurrences | src/SchedulerComponent.js:523 | the listed occurrences are all free |
| EngineProperties.TakenOccurrences | src/SchedulerComponent.js:491-493 | the listed occurrences all collide |
| EngineProperties.RecurringPlanStep | src/SchedulerComponent.js:480-537 | a free occurrence adds one fresh slot and sets `edited` from `collideAsSuch`; a colliding one queues one merge |
| EngineProperties.RecurringSlots | src/SchedulerComponent.js:523-532 | the new schedule's slots are the free occurrences, in order |
| EngineProperties.RecurringMerges | src/SchedulerComponent.js:494-519 | one merge per colliding occurrence, in order |
| EngineProperties.OccurrencePartition | src/SchedulerComponent.js:480-537 | every occurrence is either free or colliding, never both, and none is lost |
| EngineProperties.OccurrenceCounts | src/SchedulerComponent.js:480-537 | free plus colliding occurrences number the occurrences |
| EngineProperties.FreeMembers | src/SchedulerComponent.js:523-532 | an occurrence is listed as free iff it is free |
| EngineProperties.TakenMembers | src/SchedulerComponent.js:491-519 | an occurrence is listed as colliding iff it collides |
| EngineProperties.FreeOccurrencesAscending | src/SchedulerComponent.js:529 | the new schedule's slots are in ascending start order |
| EngineProperties.RecurringFlags | src/SchedulerComponent.js:518-530 | `collideAsSuch` is set iff some occurrence collided; the new schedule's `edited` is 0 or 1, and 1 only after a collision |
| EngineProperties.RecurringPlanShape | src/SchedulerComponent.js:474-538 | slots ascending and fresh, one merge per colliding occurrence, flags as above |
| EngineProperties.RecurringSaveAppendsIffFree | src/SchedulerComponent.js:539-553 | the new schedule is appended iff some occurrence was free; the earlier schedules are the merged snapshot |
| EngineProperties.AllFree | src/SchedulerComponent.js:523 | with no collision, every occurrence is free and none is taken |
| EngineProperties.RecurringSaveNoCollision | src/SchedulerComponent.js:474-553 | a rule clear of every slot appends one schedule with one fresh slot per occurrence and changes nothing else |
| EngineProperties.FindByStartFirst | src/SchedulerComponent.js:576-578 | `find` returns the first prior slot starting at the occurrence |
| EngineProperties.RegeneratedSlotKeepsEdited | src/SchedulerComponent.js:580-584 | an edited prior slot at an occurrence is kept as it was; otherwise the occurrence gets a fresh slot |
| EngineProperties.RuleSlotsFresh | src/SchedulerComponent.js:583 | every regenerated slot that is not kept has the new duration, `edited` 0, and a start in the window |
| EngineProperties.KeptAreEdited | src/SchedulerComponent.js:596-597 | every kept slot outside the window is an edited one |
| EngineProperties.RegenerateShape | src/SchedulerComponent.js:568-604 | the result is sorted by start; it holds one slot per occurrence plus the kept edited slots, each edited prior slot outside the window, and each regenerated occurrence |
| EngineProperties.TaggedShape | src/SchedulerComponent.js:923-929 | the rows are exactly the slots of the schedules, tagged, and as many |
| EngineProperties.TaggedCount | src/SchedulerComponent.js:923 | there is one row per slot |
| EngineProperties.TaggedRowOwned | src/SchedulerComponent.js:924-928 | every row is some schedule's slot |
| EngineProperties.TaggedListsSlot | src/SchedulerComponent.js:923-929 | every slot of every schedule is listed |
| EngineProperties.SortedViewShape | src/SchedulerComponent.js:911-945 | the Timeslots view is sorted by start, a permutation of the tagged slots, and one row per slot |
| EngineProperties.SortedViewEmpty | src/SchedulerComponent.js:912-917 | no schedules give an empty view |
| EngineProperties.EditSlotTouchesOnlyTarget | src/SchedulerComponent.js:639-653 | only the target-named schedules change: each is marked edited and has every slot at the old start replaced by the new slot, and keeps its name, frequency, start, end, duration and mode; the other schedules are unchanged |
| EngineProperties.EditKeepsCount | src/SchedulerComponent.js:644-648 | a slot edit keeps the number of slots |
| EngineProperties.EditScheduleRebuildsNamed | src/SchedulerComponent.js:693-719 | target-named schedules are renamed and get the new frequency, start, end and duration, no mode, their old `edited`, and slots regenerated from their old ones; for a daily or weekly rule those slots are in start order, one per occurrence plus the kept edited slots, keeping every edited slot outside the new window; the others are unchanged |
| EngineProperties.UnnamedRowsUntouched | src/SchedulerComponent.js:923-929 | a schedule with the empty name is left as it was by an edit or a delete of a row shown as `Unnamed Schedule` |
| EngineProperties.DeleteSlotShape | src/SchedulerComponent.js:740-767 | the result holds exactly the pruned schedules that still have slots, nothing else: no schedule is left empty, no slot at the start remains in the named schedules, and other non-empty schedules survive unchanged |
| EngineProperties.DeleteSlotAppend | src/SchedulerComponent.js:744-758 | each schedule is pruned on its own and the survivors keep their order: deleting from a concatenation concatenates the results |
| EngineProperties.DeleteSlotSingle | src/SchedulerComponent.js:744-758 | one schedule survives the delete, pruned, exactly when a slot at another start remains |
| EngineProperties.DeleteScheduleShape | src/SchedulerComponent.js:768-777 | no schedule carries the name afterwards; every other schedule survives; the list shrinks when the name was present |
| EngineProperties.FilterDropsCount | src/SchedulerComponent.js:758 | a filter that drops one element shortens the list |
| SchedulerComponent.ScanSlots | src/SchedulerComponent.js:407-439 | the inner loop with `break` finds the first colliding slot |
| SchedulerComponent.ScanSchedules | src/SchedulerComponent.js:486-522 | the nested loops find the first collision among the schedules not skipped |
| SchedulerComponent.RunMerges | src/SchedulerComponent.js:413-434 | running the queued updates in order gives the merged snapshot |
| SchedulerComponent.ScanOnce | src/SchedulerComponent.js:406-440 | the one-off scan queues exactly the intended merges |
| SchedulerComponent.ScanRecurring | src/SchedulerComponent.js:474-538 | the recurring loop's merges, slots and `edited` are those of the plan |
| SchedulerComponent.ExpandRule | src/SchedulerComponent.js:574-591 | the regeneration loop yields the occurrence slots |
| SchedulerComponent.KeepEdited | src/SchedulerComponent.js:595-599 | the `forEach` keeps the edited slots outside the window |
| SchedulerComponent.UpdateTimeslots | src/SchedulerComponent.js:568-604 | `updateTimeslots` returns the regenerated, sorted slots |
| SchedulerComponent.ConflictsIffScan | src/SchedulerComponent.js:624-635 | the conflict scan returns early iff some slot conflicts |
| SchedulerComponent.EditKeepingStartConflicts | src/SchedulerComponent.js:624-633 | a Timeslots-view edit keeping a listed slot's start collides with that slot and is rejected |
| SchedulerComponent.RowConflicts | src/SchedulerComponent.js:624-633 | a candidate starting at a listed slot's start conflicts with the schedules |
| SchedulerComponent.ScanRule | src/SchedulerComponent.js:664-689 | the Schedules-view loop reports a conflict iff some occurrence conflicts with another schedule |
| SchedulerComponent.RebuildNamed | src/SchedulerComponent.js:695-719 | the `map` rebuilds the target-named schedules |
| SchedulerComponent.Save | src/SchedulerComponent.js:400-564 | the save's scans and updates give the intended post-save schedules |
| SchedulerComponent.EditSave | src/SchedulerComponent.js:607-734 | the edit gives exactly one of conflict, hang, no target, or the edited schedules |
| SchedulerComponent.Delete | src/SchedulerComponent.js:737-778 | the delete gives the filtered schedules of the view shown |
| SchedulerComponent.RemoteComponent.constructor | src/SchedulerComponent.js:57-100 | the initial state: no schedules, Timeslots view, page 0, empty input and errors |
| SchedulerComponent.RemoteComponent.SortSchedules | src/SchedulerComponent.js:911-945 | the views are recomputed from the schedules |
| SchedulerComponent.RemoteComponent.HandleSave | src/SchedulerComponent.js:383-565 | a start more than 24 h past, or a recurring rule ending no later than it starts, sets the matching error and changes nothing; otherwise the schedules become the save's result and the dialog fields reset. The one-off branch uses the corrected merge of `Engine.SaveSchedules` (each slot widened by its own bounds); `OnceCapture.OnceSaveAsWritten` is the code as written (see Findings) |
| SchedulerComponent.RemoteComponent.CommitSave | src/SchedulerComponent.js:545-562 | the saved schedules are stored and the views re-sorted |
| SchedulerComponent.RemoteComponent.HandleEditSave | src/SchedulerComponent.js:607-734 | a conflict sets `editError` and changes nothing; a hang changes nothing; a successful edit stores the edited schedules |
| SchedulerComponent.RemoteComponent.CommitEdit | src/SchedulerComponent.js:641-657 | the edited schedules are stored and the error cleared |
| SchedulerComponent.RemoteComponent.HandleDelete | src/SchedulerComponent.js:737-778 | the schedules become the delete's result for the view shown; an index naming no row leaves them unchanged, where the source throws (see Left out) |
| SchedulerComponent.RemoteComponent.HandleDeleteRow | src/SchedulerComponent.js:1413 | the delete button of a row on the page shown, offset by the page (see Findings): in the Timeslots view the slot deleted is exactly the slot shown on that row |
| SchedulerComponent.RemoteComponent.HandleClearAll | src/SchedulerComponent.js:780-790 | no schedules, empty views, page 0 |
| SchedulerComponent.RemoteComponent.HandleNextPage | src/SchedulerComponent.js:815-821 | the page advances by one and the page input closes |
| SchedulerComponent.RemoteComponent.HandlePreviousPage | src/SchedulerComponent.js:823-834 | with the input closed the page goes back by one; otherwise only the input closes |
| SchedulerComponent.RemoteComponent.HandlePageInputToggle | src/SchedulerComponent.js:836-841 | the input toggles and is cleared |
| SchedulerComponent.RemoteComponent.HandlePageInputChange | src/SchedulerComponent.js:843-845 | the typed text is stored |
| SchedulerComponent.RemoteComponent.HandleJumpToPage | src/SchedulerComponent.js:847-864 | the page becomes the typed page when it exists, otherwise stays; the input closes |
| SchedulerComponent.RemoteComponent.HandleViewChange | src/SchedulerComponent.js:229-234 | the view flips, the page resets to 0, the views are re-sorted |
| SchedulerComponent.RemoteComponent.PushPayload | src/SchedulerComponent.js:304-343 | one record per schedule |
| SchedulerComponent.RemoteComponent.LoadPayload | src/SchedulerComponent.js:947-1019 | the schedules become the payload read back at `now`, the modes the payload's |
| Form.RoundedStart | src/SchedulerComponent.js:103-105 | the default start is a multiple of 15 minutes, later than one minute before `now` and at most 14 minutes after it |
| Form.OpenDraft | src/SchedulerComponent.js:102-116 | the new-schedule dialog starts one-off, one hour long, at the rounded start, with the default mode |
| Form.ModeParams | src/SchedulerComponent.js:122-130 | the parameters are every key of the mode except `type`, with its value |
| Form.ExtractModeParams | src/SchedulerComponent.js:122-130 | the `for…in` loop copies exactly those parameters |
| Form.FindMode | src/SchedulerComponent.js:292 | `find` returns a listed mode with the name, and nothing iff none has it |
| Form.CopyParams | src/SchedulerComponent.js:294-298 | a declared parameter that was typed is copied; nothing else is added |
| Form.FormatModeObject | src/SchedulerComponent.js:288-302 | the mode object carries `type` and the declared parameters that were typed |
| Form.EditDialogModeRoundTrip | src/SchedulerComponent.js:148-149 | a mode whose parameters are all declared by its type (and `type` is not one of them) comes back unchanged after opening the edit dialog and formatting again |
| Form.UnlistedParamDropped | src/SchedulerComponent.js:293-298 | a parameter the mode does not declare never reaches the mode object |
| Paging.SliceIndex | src/SchedulerComponent.js:800 | `slice` bounds: negatives count from the end, and everything is clamped to the length |
| Paging.JsSlice | src/SchedulerComponent.js:800 | `slice` returns the elements from the clamped start, at most `end − start` of them |
| Paging.PageGettersAgree | src/SchedulerComponent.js:796-813 | the two page getters return the same rows |
| Paging.TotalPages | src/SchedulerComponent.js:849 | `ceil(n / 10)`: the fewest pages of ten that hold n rows |
| Paging.PageContents | src/SchedulerComponent.js:796-801 | an existing page holds 1 to 10 rows, ten unless it is the last, at offset `page·10` |
| Paging.PagePastEndEmpty | src/SchedulerComponent.js:796-801 | a page past the end is empty |
| Paging.PagesPartitionRows | src/SchedulerComponent.js:796-801 | the pages in order are all the rows |
| Paging.ParseIntNeedsDigit | src/SchedulerComponent.js:850 | `parseInt` gives a number only for text holding a digit |
| Paging.ParseDecimal | src/SchedulerComponent.js:850 | `parseInt` reads back a written page number |
| Paging.JumpTarget | src/SchedulerComponent.js:852-857 | a jump lands only on an existing page |
| Paging.JumpToTypedPage | src/SchedulerComponent.js:847-864 | typing the one-based number of an existing page jumps to it, and that page is not empty |
| Paging.PageIndexMissesShownRow | src/SchedulerComponent.js:1339-1413 | as written, on any page after the first, the index a row button passes names a different row of the whole list than the row clicked |
| Paging.ShownRowIndexIsShown | src/SchedulerComponent.js:796-801 | the index offset by `page·10` names, in the whole list, exactly the row shown at that position of the page |
| OnceCapture.OnceMergesAsWritten | src/SchedulerComponent.js:403-434 | the merges as written address existing slots, as many as the intended merges |
| OnceCapture.CapturedBoundsCounterexample | src/SchedulerComponent.js:403-421 | the one-off merge as written widens a slot to the last slot the scan read; the intended merge does not |
| OnceCapture.SingleSlotAgrees | src/SchedulerComponent.js:403-421 | as written and intended agree when a single slot is scanned |
| WireMapping.SerialiseSlot | src/SchedulerComponent.js:334-340 | a pushed slot's end is its start plus duration hours, and equals the slot's end in seconds |
| WireMapping.SerialiseSlots | src/SchedulerComponent.js:332-341 | one record per slot, in order |
| WireMapping.Serialise | src/SchedulerComponent.js:316-343 | one record per schedule, in order |
| WireMapping.SlotRoundTrip | src/SchedulerComponent.js:973-984 | a pushed slot reads back as itself |
| WireMapping.SlotExpiry | src/SchedulerComponent.js:971 | a pushed slot is reloaded iff it ends after `now` |
| WireMapping.LoadSlots | src/SchedulerComponent.js:969-986 | exactly the wire slots ending after `now` are loaded, in order, each read back by `DeserialiseSlot` |
| WireMapping.DeserialiseSchedule | src/SchedulerComponent.js:959-967 | a reloaded schedule keeps its name, gets a mode, and has `edited` 0 |
| WireMapping.Deserialise | src/SchedulerComponent.js:951-992 | one schedule per record, in order |
| WireMapping.LoadSerialisedSlots | src/SchedulerComponent.js:969-986 | reloading pushed slots gives exactly the slots ending after `now`, in order |
| WireMapping.ReloadAfterPush | src/SchedulerComponent.js:316-343 | push then reload gives each schedule back with `edited` reset, a mode filled in, and its expired slots dropped |
| TempStore.SpliceOneRemoves | src/tempstore.js:34-36 | `splice(index, 1)` removes exactly one slot; index −1 removes the last |
| TempStore.FindStart | src/tempstore.js:208 | `findIndex` gives −1 or the index of a slot with the start |
| TempStore.FindStartIsFirst | src/tempstore.js:223 | `findIndex` gives the first slot with the start, and −1 iff none has it |
| TempStore.FindNamedIsFirst | src/tempstore.js:206 | `find` gives the first schedule with the name, and nothing iff none has it |
| TempStore.TagRows | src/tempstore.js:250-255 | each slot becomes one row tagged with its schedule's name |
| TempStore.SortedRowsShape | src/tempstore.js:249-259 | the rows are sorted by start, and are a permutation of all slots with their names |
| TempStore.RowsUpdate | src/tempstore.js:249-259 | replacing one schedule replaces its rows and keeps the others |
| TempStore.RowsFilteredName | src/tempstore.js:228 | after the name filter, no row carries the name |
| TempStore.SavedValueShape | src/tempstore.js:129-171 | the name is `Once`, the schedule name, or `Unnamed Schedule`; one slot for a one-off save, one per occurrence otherwise |
| TempStore.PayloadMatchesSlots | src/tempstore.js:136-179 | the payload keeps the raw name and has one timeslot per slot, in order, with end = start + duration·3600 and ids 1, 2, 3, … |
| TempStore.EditTouchesOneSlot | src/tempstore.js:203-215 | an edit overwrites the first slot with the row's start in the first schedule of the row's name, keeping every other slot and the slot count; a start matching no slot changes nothing |
| TempStore.DeleteShape | src/tempstore.js:217-238 | deleting from a schedule with several slots removes exactly one slot and keeps the other schedules; deleting its last slot drops every schedule of that name, and no row of it remains |
| TempStore.DeleteSecondOnceDropsBoth | src/tempstore.js:226-230 | emptying one `Once` schedule removes every `Once` schedule |
| TempStore.Load | src/tempstore.js:350-366 | one schedule per record |
| TempStore.LoadAfterSave | src/tempstore.js:350-366 | loading a saved payload gives back the saved schedule under the raw name |
| TempStore.Sched.constructor | src/tempstore.js:24-28 | a new schedule has its name, its frequency and no slots |
| TempStore.Sched.AddTimeSlot | src/tempstore.js:30-32 | the slot is appended |
| TempStore.Sched.RemoveTimeSlot | src/tempstore.js:34-36 | one slot is spliced out |
| TempStore.Sched.SetSlot | src/tempstore.js:209 | the slot at the index is replaced |
| TempStore.KeepOthersValues | src/tempstore.js:228 | filtering the objects filters their values |
| TempStore.RemoteComponent.constructor | src/tempstore.js:44-68 | no schedules, page 0 |
| TempStore.RemoteComponent.SortSchedules | src/tempstore.js:249-259 | the rows are recomputed from the objects |
| TempStore.RemoteComponent.HandleSave | src/tempstore.js:129-199 | exactly one schedule is appended and the payload built; nothing is checked for collisions |
| TempStore.RemoteComponent.Append | src/tempstore.js:195-196 | the new schedule object is appended and the list holds no object twice |
| TempStore.RemoteComponent.HandleEditSave | src/tempstore.js:203-215 | the list is the same objects, now holding the edited value |
| TempStore.RemoteComponent.HandleDelete | src/tempstore.js:217-238 | the values become the delete's result |
| TempStore.RemoteComponent.DeleteFrom | src/tempstore.js:223-230 | one slot is spliced out, and an emptied schedule's name leaves the list |
| TempStore.RemoteComponent.DropNamed | src/tempstore.js:226-230 | every schedule object with the name is dropped from the list |
| TempStore.SpliceIn | src/tempstore.js:223-224 | splicing a slot out of one schedule object changes only that schedule's value |
| TempStore.RemoteComponent.HandleClearAll | src/tempstore.js:240-247 | no schedules, no rows, page 0 |
| TempStore.FindSchedule | src/tempstore.js:206 | the loop finds the first schedule with the name |
| TempStore.BuildSchedule | src/tempstore.js:131-171 | the loop builds the saved schedule and its payload timeslots |
| Controller.NewSchedule | doover_scheduler.py:35-57 | the constructor stores the fields and leaves the timeslots sorted by start, as a permutation of those given |
| Controller.SameScheduleIgnores | doover_scheduler.py:72-81 | two schedules are equal iff they agree on everything but timeslots, `edited`, frequency and mode parameters |
| Controller.TimeslotFromData | doover_scheduler.py:127-136 | a record is read iff its mode has a `type`; `mode` is that type, `mode_params` the whole dict |
| Controller.TimeslotsFromData | doover_scheduler.py:94 | all slots are read or the whole record fails |
| Controller.ScheduleFromData | doover_scheduler.py:83-95 | a schedule is read iff it and all its slots have a typed mode; the fields are copied and the slots sorted |
| Controller.SchedulesFromData | doover_scheduler.py:269 | one schedule per record, or the update fails |
| Controller.AllSlotsMembers | doover_scheduler.py:270 | the chained slots are exactly the schedules' slots |
| Controller.SortedSlotsShape | doover_scheduler.py:270-273 | `sorted_slots` is sorted by start and a permutation of all slots |
| Controller.CurrentIsEarliest | doover_scheduler.py:279-295 | there is a current slot iff some slot has started, and it is one with the earliest start |
| Controller.CurrentMayHaveEnded | doover_scheduler.py:290-295 | a slot that has ended is still returned as current |
| Controller.NextOf | doover_scheduler.py:305-308 | the loop returns the first slot starting after `now`, and nothing iff none does |
| Controller.NextIsSoonest | doover_scheduler.py:297-308 | over sorted slots, the slot returned is the soonest to start |
| Controller.PrunedAll | doover_scheduler.py:317-318 | each schedule's slots are pruned |
| Controller.ClearedShape | doover_scheduler.py:315-323 | exactly the slots ending at or after `now` remain, and no schedule is left empty |
| Controller.ClearExpiredTimeslots | doover_scheduler.py:315-323 | the loop and the comprehension give the cleared schedules |
| Controller.ScheduleController.constructor | doover_scheduler.py:142-160 | no schedules, no slots, no callbacks |
| Controller.ScheduleController.OnScheduleUpdate | doover_scheduler.py:264-277 | no data changes nothing; an unreadable record changes nothing; otherwise the schedules and sorted slots are replaced and the update callbacks are called |
| Controller.ScheduleController.NextTimeslot | doover_scheduler.py:297-308 | the result is the first slot in start order that starts after `now`, and the soonest of all those that do; there is none iff every slot has started |
| Controller.ScheduleController.MainLoop | doover_scheduler.py:229-237 | clearing happens iff there are slots and the first has ended; it then publishes the cleared schedules |
| Controller.ScheduleController.AddUpdateCallback | doover_scheduler.py:252-254 | the callback is appended |
| Controller.ScheduleController.AddOnStartCallback | doover_scheduler.py:256-258 | the callback is appended |
| Controller.ScheduleController.AddOnEndCallback | doover_scheduler.py:260-262 | the callback is appended |
| Controller.ScheduleController.RegisterOne | doover_scheduler.py:244-250 | one callback joins each list whose flag it carries, at the end |
| Controller.ScheduleController.Register | doover_scheduler.py:239-250 | each list gains exactly the callbacks carrying its flag, in order |
| Controller.JoinedIsFilter | doover_scheduler.py:244-250 | registering one callback at a time selects what filtering by flag selects |
| Controller.MainLoopSeesFirstOnly | doover_scheduler.py:234-237 | an ended slot does not trigger clearing while an earlier-starting slot still runs |
| Pipeline.ControllerReadsPush | doover_scheduler.py:83-95 | the controller reads a pushed payload iff every schedule and slot has a typed mode, one schedule per pushed one |
| Pipeline.ScheduleEditUnreadable | src/SchedulerComponent.js:662-714 | after a Schedules-view edit the pushed payload is rejected by the controller |

## Left out

- Rendering, dialogs, colours and formatting are not modelled. This covers
  `render`, `renderModeSelection`, the open/close and field-change handlers,
  `handleParamChange`, `generateColors`, `hslToHex` and `formatDateTime`. They
  are presentation only, and colours are not authoritative.
- Network calls are not modelled: `get_temp_token`, `get_channel_aggregate`,
  `post_channel_aggregate`, `updateUiStates`, and the Python agent's publish and
  get calls. Only the payloads are modelled: `WireMapping.Serialise`,
  `WireMapping.Deserialise`, `TempStore.SavePayload`, `TempStore.Load` and
  `Controller.Cleared`.
- React's deferred `setState` is modelled as one transition per handler. The
  checks read the pre-commit snapshot, and the queued updates run in order.
  The exception is the one-off capture described under Findings.
- `handleEditOpen` is modelled only as far as the mode parameters it extracts.
  The other fields it copies into the dialog are form state.
- Fractional durations:
  - Durations are whole milliseconds in the widget.
  - Hours on the wire are exact reals, not IEEE doubles.
  - DST and calendar steps of date-fns are replaced by fixed day and week steps.
- The clocks (`new Date()`, `Date.now()`, `time.time()`) are a single `now`
  parameter per call.
- Python's async tasks are not modelled: `_run_check_start_schedules`,
  `_run_check_end_schedules`, `_run_tasks`, `setup`, `clear_all_schedule_events`
  and the `ScheduleComponent` wrapper. They are concurrency and SDK calls.
  `OnScheduleUpdate` returns the callbacks it would call, instead of calling
  them.
- The `on_start`/`on_end`/`on_update` decorators are modelled as flags on
  `Callback`.
- The paging handlers and page getter of `src/tempstore.js` (265-322) are the
  same code as those of `src/SchedulerComponent.js` (808-865), except for one
  line. They are modelled once, in `Paging` and
  `SchedulerComponent.RemoteComponent`. The exception: `handlePageInputToggle`
  in `src/tempstore.js` ends with a call to `console.logf` (298), which is not a
  function. It throws a `TypeError` after the state change has been queued. The
  queued change is the one modelled. The exception is not modelled.
- In `src/tempstore.js`, `===` on `Date` objects is modelled as equality of
  instants; object identity of dates is not modelled.
- SchedulerComponent.RemoteComponent.HandleDelete: an index that names no row
  is modelled as no change. The source throws instead. In the Timeslots view
  the destructuring at line 741 throws before any update is queued, so
  nothing changes there either. In the Schedules view, `scheduleToDelete.name`
  throws inside the queued updater at line 771, after the handler has
  returned. That exception is not modelled. The delete dialog is opened from
  a row of the page shown, whose index is below that page's length and hence
  below the list's, so neither case arises from the interface.
- SchedulerComponent.RemoteComponent.HandleEditSave: `editIndex` is taken as an
  index into the whole sorted list, as `handleEditSave` reads it. Opening the
  edit dialog (136) is not modelled as a method; a caller on a row of the page
  shown passes `Paging.ShownRowIndex`, as `HandleDeleteRow` does.
- SchedulerComponent.RemoteComponent.PushPayload: its contract states only the
  record count. The content is `WireMapping.Serialise`, whose records are stated
  by `WireMapping.ReloadAfterPush`.
- Engine.EditSlotIn: its own contract states only the length. The content is
  stated by `EngineProperties.EditSlotTouchesOnlyTarget`.
- Engine.EditScheduleIn: its own contract states only the length. The content is
  stated by `EngineProperties.EditScheduleRebuildsNamed`.
- OnceCapture.OnceMergesAsWritten: its contract states only that the merges fit
  and match the intended merges in number. What they do is shown by
  `OnceCapture.CapturedBoundsCounterexample`.

## Findings

| source | as written | input that shows it | evidently intended | confidence | as-written member | corrected member |
|---|---|---|---|---|---|---|
| src/SchedulerComponent.js:403-421 | `valStart`/`valEnd` are declared once, before both loops of the one-off branch. The queued updater reads them only when it runs, after the scan, so every merge uses the bounds of the last slot the scan read. | slots `[0, 10)` in one schedule and `[100, 110)` in another; a one-off save `[5, 12)`; the first slot becomes `[5, 110)` | the colliding slot becomes the union `[0, 12)`, as in the recurring branch, which declares them inside its loop (481-482) | not executed | OnceCapture.CapturedBoundsCounterexample | EngineProperties.OnceSave |
| src/SchedulerComponent.js:1339-1413 | The table maps over the rows of the page shown and hands each row's position on that page to `handleEditOpen` (1397) and `handleDeleteOpen` (1413). Those handlers index the whole sorted list with it (136, 741, 769). | eleven distinct slots; go to the second page, which shows only the eleventh; press its delete button; the first slot is deleted | the row clicked is edited or deleted: the position is offset by `currentPage · 10` | not executed | Paging.PageIndexMissesShownRow | Paging.ShownRowIndexIsShown |
