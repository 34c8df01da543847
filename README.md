# Habit tracker core, modelled in Dafny

This project models the core of a habit tracker. Its parts are:

- **Habit records.** There are two kinds. A *standard* habit is ticked once a day in `completions`. A *timed* habit has a daily window (`startTime`..`endTime`) cut into slots every `intervalMinutes`. The user logs one completion per slot while the slot is open.
- **The store.** It normalises records on load, adds, updates and deletes them, and applies the four per-habit mutators. The mutators are: toggle a completion, log a timed completion, undo the last one, and skip or unskip a date.
- **The dashboard.** It shows how many habits are done today, the best streak, the streak table, and the status of each slot of a timed habit.
- **The habit card.** It shows a status label, whether the log and undo buttons are enabled, and a preview of the slots.
- **The add/edit form.**
- **The calendar month grid.**
- **The server function that schedules push reminders.**
  - It checks the request and derives a stable UUID from each reminder's key, using 32-bit FNV-1a laid out per section 4.4 of RFC 4122.
  - It normalises the API key into an `Authorization` value.
  - It sends at most 80 reminders and reports the counts and the first 8 failures.

Dates are day numbers counted from 1970-01-01. "Today", the current minute of the day and the clock's milliseconds are parameters. The HTTP call and the date-validity test of the reminder function are function parameters. Modules:

| file | module | models |
|---|---|---|
| wrappers.dfy | Wrappers | `Option` |
| lists.dfy | Lists | `filter`, stable `sort` by a key, `[...new Set(s)]` |
| text.dfy | Text | decimal spelling, `padStart(2, "0")`, `trim`, ASCII `toLowerCase` |
| dates.dfy | Dates | `getDay`, days in a month, civil date to day number |
| schedule.dfy | Schedule | `parseTimeToMinutes`, `getScheduleMinutes`, the open slot |
| habits.dfy | Habits | habit record, `normalizeHabit`, slot-log normaliser, scheduled / goal / progress / done, `getTimedLogState` |
| engine.dfy | Engine | per-habit bodies of the four mutators |
| store.dfy | Store | the habit list (class `HabitStore`) and its mutators |
| streaks.dfy | Streaks | `getLongestStreak`, `getCurrentStreak` |
| dashboard.dfy | Dashboard | dashboard statistics and slot statuses |
| habit_list.dfy | HabitList | card label, button enablement, slot preview |
| habit_form.dfy | HabitForm | the form state (class `FormState`) and submit |
| calendar_view.dfy | CalendarView | month grid |
| reminders.dfy | Reminders | `toUuid`, `toAuthHeader`, `handler` |

## Model

| member | source | states |
|---|---|---|
| Lists.FilterMembers | src/state/HabitContext.jsx:82 | the filtered list holds exactly the elements that satisfy the predicate |
| Lists.FilterLength | src/pages/Dashboard.jsx:78 | the filter keeps all elements iff all qualify, and none iff none do |
| Lists.SortByPerm | src/state/HabitContext.jsx:84 | sorting is a permutation of its input |
| Lists.SortBySorted | src/state/HabitContext.jsx:84 | sorting yields a list ordered by the key |
| Lists.SortByIdentity | src/state/HabitContext.jsx:729 | sorting an already sorted list changes nothing |
| Lists.DedupeMembers | src/state/HabitContext.jsx:84 | `[...new Set(s)]` has no repeats and exactly the elements of `s` |
| Lists.DedupeDistinct | src/state/HabitContext.jsx:171 | deduplicating a list without repeats changes nothing |
| Text.DecimalRoundTrip | src/components/CalendarView.jsx:6-9 | reading back `String(n)` gives `n` |
| Text.DecimalInjective | src/components/CalendarView.jsx:6-9 | different numbers have different decimal spellings |
| Text.Pad2 | src/components/CalendarView.jsx:6 | `padStart(2, "0")` gives at least two digits, exactly two below 100, of value `n` |
| Text.TrimStartSpec | netlify/functions/schedule-reminders.js:19 | trimming the start drops exactly the leading white space |
| Text.TrimEndSpec | netlify/functions/schedule-reminders.js:19 | trimming the end drops exactly the trailing white space |
| Text.TrimResult | netlify/functions/schedule-reminders.js:49 | `trim()` yields a trimmed text, empty iff the input is all white space |
| Text.TrimTrimmed | netlify/functions/schedule-reminders.js:51 | trimming a trimmed text changes nothing |
| Text.LowerAsciiSpec | netlify/functions/schedule-reminders.js:23 | lower-casing leaves no capital letter, turns each capital into its small letter, keeps every other character, and changes nothing when applied again |
| Dates.Weekday | src/state/HabitContext.jsx:183-184 | `getDay()` is in 0..6 and agrees with 1970-01-01 being a Thursday |
| Dates.DaysInMonth | src/components/CalendarView.jsx:19 | a month has 28..31 days, 29 exactly for February of a leap year |
| Dates.DayNumberNextDay | src/components/CalendarView.jsx:26-27 | within a month, day `d + 1` is the day after day `d` |
| Dates.DayNumberNextMonth | src/components/CalendarView.jsx:19 | the first of the next month is the day after the month's last day, so day 0 of the next month is that last day |
| Dates.DayNumberNextYear | src/components/CalendarView.jsx:19 | 1 January follows 31 December |
| Dates.MarchFirstStep | src/components/CalendarView.jsx:19 | a year from 1 March holds 366 days exactly when the following February has a leap day |
| Dates.WeekdayNextDay | src/state/HabitContext.jsx:183-184 | the weekday of the next day is the next weekday, Saturday wrapping to Sunday |
| Dates.EpochIsThursday | src/state/HabitContext.jsx:184 | day 0 is 1970-01-01, weekday 4 |
| Schedule.UpToShape | src/state/HabitContext.jsx:35 | the first `split(":")` field is the prefix before the first colon |
| Schedule.ClockFieldsShape | src/state/HabitContext.jsx:34-35 | there are two fields iff the text holds a colon |
| Schedule.ParseTimeToMinutes | src/state/HabitContext.jsx:33-49 | a parsed time lies in 0..1439 |
| Schedule.ParseTimeRoundTrip | src/state/HabitContext.jsx:33-49 | every `HH:MM` with hours 0..23 and minutes 0..59 parses to `HH*60+MM` |
| Schedule.SlotsFromShape | src/state/HabitContext.jsx:60-64 | the slots start at the start minute, lie `interval` apart, stay within the end, and the last is the latest such start |
| Schedule.ScheduleShape | src/state/HabitContext.jsx:51-65 | the schedule is empty iff the interval is below 1, a time does not parse, or the end is not after the start; otherwise it starts at the start time and steps by the interval up to the end |
| Schedule.ScheduleMinutes | src/state/HabitContext.jsx:51-65 | the `for` loop computes `ScheduleOf` |
| Schedule.ActiveSlot | src/state/HabitContext.jsx:116-118 | `findIndex` gives -1 or an index whose slot contains `now` |
| Schedule.ActiveSlotFirst | src/state/HabitContext.jsx:116-118 | the index is the first slot containing `now`, -1 iff none does |
| Schedule.ActiveSlotUnique | src/state/HabitContext.jsx:116-118 | on evenly spaced slots at most one slot contains `now` |
| Schedule.ActiveSlotGapFree | src/state/HabitContext.jsx:116-118 | between the first start and the last slot's end some slot is always open |
| Habits.NormalizedInterval | src/state/HabitContext.jsx:150-154 | the interval is `intervalMinutes`, else `intervalHours * 60`, else 60, replaced by 30 unless positive |
| Habits.NormalizeHabit | src/state/HabitContext.jsx:149-176 | the interval is the normalised one and positive; the skip weekdays are exactly the input's whole weekdays 0..6, without repeats; a missing id becomes the fresh one; every other field that is present is kept as it is |
| Habits.NormalizeIdempotent | src/state/HabitContext.jsx:149-176 | normalising a normalised habit changes nothing |
| Habits.NormalizeDefaults | src/state/HabitContext.jsx:159-175 | an empty record gets the documented defaults |
| Habits.SlotCandidatesMembers | src/state/HabitContext.jsx:67-85 | a slot index is a candidate iff it is in range and some entry stands for it |
| Habits.NormalizedShape | src/state/HabitContext.jsx:67-85 | the normalised slots are strictly ascending, within `[0, max(0, n-1)]`, no more than the entries, and exactly the in-range indices some entry stands for |
| Habits.NormalizedCountBound | src/state/HabitContext.jsx:67-85 | the normalised count never exceeds the number of slots |
| Habits.NormalizedIdempotent | src/state/HabitContext.jsx:67-85 | normalising an already normalised log gives it back |
| Habits.EmptyScheduleKeepsSlotZero | src/state/HabitContext.jsx:69-82 | with no slots, slot 0 still survives the range filter and nothing else does |
| Habits.GoalSpec | src/state/HabitContext.jsx:189-192 | the goal is positive exactly on a scheduled date with a valid window, and then it is `(end - start) / interval + 1` |
| Habits.GoalDependsOnSettings | src/state/HabitContext.jsx:178-192 | two habits with the same kind, target date, skip settings and slot settings have the same goal, whatever their logs |
| Habits.Progress | src/state/HabitContext.jsx:194-198 | progress is the larger of the normalised count and the legacy counter |
| Habits.DoneCases | src/state/HabitContext.jsx:202-212 | done iff a standard habit is ticked, a timed habit's date is skipped, or a scheduled date's positive goal is met |
| Habits.TimedLogState | src/state/HabitContext.jsx:87-147 | the state carries the schedule and completed slots; it can log iff its reason is ok |
| Habits.LogStateReasons | src/state/HabitContext.jsx:87-147 | each reason holds exactly under its condition, tried in order |
| Habits.TimedLogStateReasons | src/state/HabitContext.jsx:87-147 | the same reasons stated for a habit |
| Habits.OutsideSlotIsAfterLastSlot | src/state/HabitContext.jsx:116-128 | "outside slot" only comes after the last slot has ended |
| Habits.ActiveSlotIsTheOnlyOpenSlot | src/state/HabitContext.jsx:116-118 | the reported open slot is the only slot containing now |
| Habits.AlreadyLoggedWhen | src/state/HabitContext.jsx:130-138 | a logged open slot gives "already logged" |
| Habits.SameSlotAlreadyLogged | src/state/HabitContext.jsx:130-138 | once the open slot is logged, a second attempt reports "already logged" |
| Engine.RecordCompletion | src/state/HabitContext.jsx:732-740 | `completions[date]` is set iff the count meets a positive goal; no other date changes |
| Engine.ToggleCompletion | src/state/HabitContext.jsx:704-713 | a standard habit's done state flips on the date only; a timed habit is untouched |
| Engine.ToggleCompletionTwice | src/state/HabitContext.jsx:704-713 | toggling twice restores the ticked dates |
| Engine.AppendSlotLog | src/state/HabitContext.jsx:720-742 | only the date's log, counter and completion change; the counter is the new log's length |
| Engine.LogTimedCompletion | src/state/HabitContext.jsx:715-745 | nothing changes unless a timed habit can log now; otherwise the open slot is appended |
| Engine.AppendLogShape | src/state/HabitContext.jsx:721-730 | the new log is the old object entries plus the new one, sorted by slot |
| Engine.AppendKeepsSlotEntries | src/state/HabitContext.jsx:723-729 | the new log holds exactly the old object entries and the new entry |
| Engine.AppendAddsSlot | src/state/HabitContext.jsx:715-745 | without bare strings, the completed slots grow by exactly the new slot |
| Engine.AppendKeepsCache | src/state/HabitContext.jsx:732-740 | on a scheduled date `completions[date]` agrees with done after logging |
| Engine.LogRecordsOpenSlot | src/state/HabitContext.jsx:715-745 | a successful log records the open slot, and a repeat reports "already logged" |
| Engine.LogAddsOpenSlot | src/state/HabitContext.jsx:715-745 | a successful log adds exactly the open slot |
| Engine.UndoLogMembers | src/state/HabitContext.jsx:755-757 | undo keeps exactly the object entries of other slots |
| Engine.UndoTimedCompletion | src/state/HabitContext.jsx:747-772 | nothing changes unless a timed habit has a completed slot; otherwise that slot and bare strings go, and the counter and completion are recomputed |
| Engine.UndoRemovesHighestSlot | src/state/HabitContext.jsx:747-772 | undo removes the highest completed slot and keeps only lower ones |
| Engine.UndoRemovesOnlyHighestSlot | src/state/HabitContext.jsx:747-772 | without bare strings undo removes exactly the highest slot |
| Engine.UndoKeepsCacheWhenScheduled | src/state/HabitContext.jsx:760-767 | on a scheduled date `completions[date]` agrees with done after undo |
| Engine.UndoOnSkippedDateClearsFlag | src/state/HabitContext.jsx:760-767 | on a skipped date undo deletes the flag although the day still counts as done |
| Engine.UndoIgnoresLegacyProgress | src/state/HabitContext.jsx:752-753 | legacy progress alone leaves undo a no-op |
| Engine.LogThenUndo | src/state/HabitContext.jsx:715-772 | logging a slot above the others and undoing gives back the log, slots and progress |
| Engine.ToggleSkipTimedDate | src/state/HabitContext.jsx:774-801 | skipping flips the date's skip flag and recomputes its completion; logs and counters stay |
| Engine.ToggleSkipFlips | src/state/HabitContext.jsx:777-787 | the skip flag flips, `false` is never stored, and no other date changes |
| Engine.ToggleSkipKeepsProgress | src/state/HabitContext.jsx:774-801 | a skip toggle keeps the log, slots and progress |
| Engine.ToggleSkipKeepsCache | src/state/HabitContext.jsx:785-796 | after a toggle `completions[date]` agrees with done |
| Engine.ToggleSkipTwice | src/state/HabitContext.jsx:774-801 | toggling twice restores the skipped dates |
| Store.ApplyFrame | src/state/HabitContext.jsx:704-801 | no mutator touches id, kind or schedule settings |
| Store.UpdateWhereAt | src/state/HabitContext.jsx:705-706 | every record keeps its place and id; only matching records change |
| Store.UpdateWhereChangesAtMostOne | src/state/HabitContext.jsx:705-706 | with distinct ids at most one record changes |
| Store.UpdateWhereMissing | src/state/HabitContext.jsx:705-706 | an unknown id changes nothing |
| Store.ReplaceWhereAt | src/state/HabitContext.jsx:689-694 | matching records become the normalised update; the rest stay |
| Store.ReplaceWhereMissing | src/state/HabitContext.jsx:689-694 | an update with no or an unknown id changes nothing |
| Store.DeleteWhereMembers | src/state/HabitContext.jsx:696-702 | delete removes every record with the id and keeps every other |
| Store.DeleteWhereDistinct | src/state/HabitContext.jsx:696-702 | deleting keeps ids distinct |
| Store.NewId | src/state/HabitContext.jsx:683 | the new id is `h` followed by decimal digits |
| Store.NewIdInjective | src/state/HabitContext.jsx:683 | ids made at different milliseconds differ |
| Store.NewHabit | src/state/HabitContext.jsx:678-687 | the new record has the fresh id and is normalised |
| Store.AddKeepsDistinct | src/state/HabitContext.jsx:678-687 | adding under an unused id keeps ids distinct |
| Store.HabitStore.constructor | src/state/HabitContext.jsx:316 | the list starts empty |
| Store.HabitStore.AddHabit | src/state/HabitContext.jsx:678-687 | appends the new record |
| Store.HabitStore.UpdateHabit | src/state/HabitContext.jsx:689-694 | replaces matching records |
| Store.HabitStore.DeleteHabit | src/state/HabitContext.jsx:696-702 | drops records with the id |
| Store.HabitStore.ToggleCompletion | src/state/HabitContext.jsx:704-713 | applies the toggle to the matching record |
| Store.HabitStore.LogTimedCompletion | src/state/HabitContext.jsx:715-745 | applies the log to the matching record |
| Store.HabitStore.UndoTimedCompletion | src/state/HabitContext.jsx:747-772 | applies the undo to the matching record |
| Store.HabitStore.ToggleSkipTimedDate | src/state/HabitContext.jsx:774-801 | applies the skip toggle to the matching record |
| Streaks.DoneDaysAre | src/pages/Dashboard.jsx:14-16 | the done dates are exactly the truthy keys |
| Streaks.SortedDaysShape | src/pages/Dashboard.jsx:14-17 | the dates come out strictly ascending and are exactly the done dates |
| Streaks.RunEndSound | src/pages/Dashboard.jsx:20-30 | every date of the counted run is done |
| Streaks.RunEndMaximal | src/pages/Dashboard.jsx:20-30 | no run ending at a date is longer than the counted one |
| Streaks.MaxRunEndIsMax | src/pages/Dashboard.jsx:20-30 | the running maximum is one of the runs and no run exceeds it |
| Streaks.LongestOfIsLongest | src/pages/Dashboard.jsx:13-33 | the value is the longest run of consecutive done dates, 0 iff none is done |
| Streaks.LongestStreak | src/pages/Dashboard.jsx:13-33 | the loop computes the longest streak |
| Streaks.CurrentOfIsCurrent | src/pages/Dashboard.jsx:35-46 | the value counts the done dates back from today without a gap, 0 iff today is not done |
| Streaks.CurrentStreak | src/pages/Dashboard.jsx:35-46 | the loop computes the current streak |
| Streaks.CurrentAtMostLongest | src/pages/Dashboard.jsx:13-46 | the current streak never exceeds the longest |
| Streaks.LongestStreakUnique | src/pages/Dashboard.jsx:13-33 | the longest streak is determined by the completions |
| Streaks.CurrentStreakUnique | src/pages/Dashboard.jsx:35-46 | the current streak is determined by the completions and today |
| Dashboard.CompletedOnBounds | src/pages/Dashboard.jsx:78 | the count is the total iff all are done, 0 iff none is |
| Dashboard.MaxOfIsMax | src/pages/Dashboard.jsx:80 | the reduce-max bounds every element and is one of them |
| Dashboard.BestStreakIsMax | src/pages/Dashboard.jsx:80 | the best streak is at least every habit's longest streak and equals one of them, 0 with no habits |
| Dashboard.HabitStreaksOrdered | src/pages/Dashboard.jsx:89-97 | the table is a permutation of the rows, ordered by longest then current, descending |
| Dashboard.StreakRowsAre | src/pages/Dashboard.jsx:89-95 | every row carries the streaks of its habit |
| Dashboard.HighestStreakHabit | src/pages/Dashboard.jsx:106 | the first row holds the best streak |
| Dashboard.SkippedOnIsUnscheduled | src/pages/Dashboard.jsx:130-133 | a skipped date is never scheduled |
| Dashboard.SlotStatusesSkipAndDone | src/pages/Dashboard.jsx:143-155 | a skipped date shows all slots skipped; done iff logged and not skipped |
| Dashboard.SlotStatusesPastFuture | src/pages/Dashboard.jsx:143-155 | a past date has nothing upcoming and a future one nothing missed |
| Dashboard.SlotStatusesToday | src/pages/Dashboard.jsx:143-155 | today no upcoming slot precedes a missed one |
| Dashboard.OpenSlotIsUpcoming | src/pages/Dashboard.jsx:143-155 | the loggable slot shows upcoming |
| HabitList.StatusLabelMeaning | src/components/HabitList.jsx:157-169 | each card label appears exactly under its condition |
| HabitList.LogEnabledRule | src/components/HabitList.jsx:179 | the log button is enabled iff a completion can be logged now; pressing it records the slot |
| HabitList.UndoEnabledRule | src/components/HabitList.jsx:188 | a disabled undo would change nothing; legacy-only progress enables a no-op undo |
| HabitList.PreviewSlotsAre | src/components/HabitList.jsx:108-117 | the preview is the first three slots, each an interval apart from the start |
| HabitForm.CoerceInterval | src/components/HabitForm.jsx:78 | `Number(value) \|\| 1` is never 0 |
| HabitForm.CoercedIntervalNormalized | src/components/HabitForm.jsx:78 | a positive coerced interval survives normalisation; a negative one becomes 30 |
| HabitForm.ToggleWeekdayPresent | src/components/HabitForm.jsx:84-94 | removing a day keeps every other day |
| HabitForm.ToggleWeekdayAbsent | src/components/HabitForm.jsx:84-94 | adding a day adds exactly it and sorts the list |
| HabitForm.ToggleWeekdayTwice | src/components/HabitForm.jsx:84-94 | toggling twice restores the set of days |
| HabitForm.FindSuggestion | src/components/HabitForm.jsx:98-100 | a found suggestion matches the name ignoring case |
| HabitForm.FindSuggestionFirst | src/components/HabitForm.jsx:98-100 | nothing is found iff nothing matches; what is found is the first match |
| HabitForm.NameChangeFills | src/components/HabitForm.jsx:96-108 | a matching name fills description and frequency; any other keeps them |
| HabitForm.NameChangeExample | src/components/HabitForm.jsx:9 | "morning WALK" fills the first suggestion |
| HabitForm.FormMinutesAgrees | src/components/HabitForm.jsx:114-117 | the form's time reading agrees with `parseTimeToMinutes` on clock times |
| HabitForm.SubmitRule | src/components/HabitForm.jsx:110-119 | a submission is refused iff the name is blank or a timed window is invalid |
| HabitForm.SubmittedTimedHasSlots | src/components/HabitForm.jsx:110-129 | an accepted timed form with in-day times yields at least one slot, the first at the start |
| HabitForm.SubmitAcceptsHourPastDay | src/components/HabitForm.jsx:114-118 | the form accepts "25:00"–"26:00" and the habit then has no slots |
| HabitForm.SubmittedEditReplaces | src/components/HabitForm.jsx:121-126 | an accepted edit keeps the habit's id and history and takes the form's settings |
| HabitForm.FormState.constructor | src/components/HabitForm.jsx:51 | the form starts empty |
| HabitForm.FormState.Load | src/components/HabitForm.jsx:54-71 | the form loads the edited habit or clears |
| HabitForm.FormState.ChangeInterval | src/components/HabitForm.jsx:77-79 | only the interval changes, to its coerced value |
| HabitForm.FormState.ChangeDescription | src/components/HabitForm.jsx:81 | only the description changes |
| HabitForm.FormState.ChangeFrequency | src/components/HabitForm.jsx:81 | only the frequency changes |
| HabitForm.FormState.ChangeKind | src/components/HabitForm.jsx:81 | only the kind changes |
| HabitForm.FormState.ChangeTimes | src/components/HabitForm.jsx:81 | only the times change |
| HabitForm.FormState.ChangeColor | src/components/HabitForm.jsx:81 | only the colour changes |
| HabitForm.FormState.ToggleSkipWeekday | src/components/HabitForm.jsx:84-94 | only the skip weekdays change, by the toggle |
| HabitForm.FormState.ChangeName | src/components/HabitForm.jsx:96-108 | the name change and its suggestion fill |
| HabitForm.FormState.Submit | src/components/HabitForm.jsx:110-132 | the submit action, and the form empties iff accepted |
| CalendarView.ToISOFormat | src/components/CalendarView.jsx:7-9 | the date key of a four-digit year is `YYYY-MM-DD` spelling the date |
| CalendarView.ToISOInjective | src/components/CalendarView.jsx:7-9 | different dates have different keys |
| CalendarView.StartOffset | src/components/CalendarView.jsx:20 | the blank-cell count is a weekday, at most 6 |
| CalendarView.MonthCells | src/components/CalendarView.jsx:17-36 | the grid has offset plus days-in-month cells |
| CalendarView.BuildCells | src/components/CalendarView.jsx:17-36 | the two loops build the grid |
| CalendarView.MonthCellsShape | src/components/CalendarView.jsx:20-36 | blank cells first, then each day in order keyed by its date |
| CalendarView.DayCellCompletions | src/components/CalendarView.jsx:28 | a day lists exactly the habits ticked on it |
| CalendarView.MonthCellKeysDistinct | src/components/CalendarView.jsx:17-36 | no two cells share a key |
| Reminders.FnvOfA | netlify/functions/schedule-reminders.js:26-30 | the hash loop on "a" gives the FNV-1a test value 0xe40c292c |
| Reminders.ChunkRoundTrip | netlify/functions/schedule-reminders.js:32-42 | parsing a chunk's eight hex digits gives back the value |
| Reminders.ClockSeqDigit | netlify/functions/schedule-reminders.js:42-43 | the clock sequence starts with 8, 9, a or b |
| Reminders.HashedUuidShape | netlify/functions/schedule-reminders.js:32-45 | a hashed id is a lower-case version-4 UUID whose first eight digits are the hash |
| Reminders.LowerUuid | netlify/functions/schedule-reminders.js:20-24 | lower-casing a UUID keeps it a UUID |
| Reminders.UuidOfShape | netlify/functions/schedule-reminders.js:18-46 | `toUuid` always yields a lower-case UUID, version 4 when hashed |
| Reminders.UuidOfIdempotent | netlify/functions/schedule-reminders.js:18-46 | applying `toUuid` to its result changes nothing |
| Reminders.BlankSeedUuid | netlify/functions/schedule-reminders.js:18-46 | a blank seed gives the UUID of the FNV offset basis |
| Reminders.ToUuid | netlify/functions/schedule-reminders.js:18-46 | the method computes `UuidOf` |
| Reminders.HashUnits | netlify/functions/schedule-reminders.js:26-30 | the hash loop computes 32-bit FNV-1a of the code units |
| Reminders.AuthHeaderCases | netlify/functions/schedule-reminders.js:48-54 | the header is empty iff the key is blank, else a `Key` or `Basic` credential |
| Reminders.AuthHeaderIdempotent | netlify/functions/schedule-reminders.js:48-54 | normalising a header again changes nothing |
| Reminders.KeyPrefixed | netlify/functions/schedule-reminders.js:51 | a normalised `Key` header is kept |
| Reminders.CountsAddUp | netlify/functions/schedule-reminders.js:88-134 | scheduled plus failed never exceeds the passes, and equals them exactly when no pass threw |
| Reminders.CompletesIffNoNull | netlify/functions/schedule-reminders.js:88-93 | the loop throws exactly when one of its reminders is `null` |
| Reminders.AbortedAt | netlify/functions/schedule-reminders.js:88-89 | a `null` reminder makes the loop throw |
| Reminders.HandleRefusals | netlify/functions/schedule-reminders.js:57-78 | 405 iff not POST, 500 iff configuration is missing, 400 iff the body is not `null` and has no subscription |
| Reminders.HandleThrows | netlify/functions/schedule-reminders.js:71-93 | the handler throws iff the checks pass and the body is `null` or one of the first 80 reminders is `null` |
| Reminders.HandleAccepts | netlify/functions/schedule-reminders.js:71-93 | 200 iff the checks pass, the body is not `null`, a subscription is given and none of the first 80 reminders is `null`; an empty batch has zero counts and no failure list |
| Reminders.BatchStatus | netlify/functions/schedule-reminders.js:83-141 | a batch either throws, exactly when one of its first 80 reminders is `null`, or is answered with 200 |
| Reminders.HandleCounts | netlify/functions/schedule-reminders.js:83-141 | scheduled plus failed is min(n, 80); skipped is the rest; failed counts the failures; the list is the first 8 failures in order, min(failed, 8) of them |
| Reminders.BatchCounts | netlify/functions/schedule-reminders.js:83-141 | the same counts and failure list for a batch |
| Reminders.InvalidFailsUnsent | netlify/functions/schedule-reminders.js:97-101 | an invalid reminder fails without a call |
| Reminders.SentKeyIsUuid | netlify/functions/schedule-reminders.js:89-94 | every sent notification carries a lower-case UUID key |
| Reminders.SendReminder | netlify/functions/schedule-reminders.js:89-133 | one loop pass gives the reminder's outcome |
| Reminders.SendBatch | netlify/functions/schedule-reminders.js:83-141 | the batch part of the handler computes `BatchResponse` |
| Reminders.SendAll | netlify/functions/schedule-reminders.js:84-134 | the loop ends without a throw exactly when no pass threw, and then its counters and list are the scheduled count and the failures in order |
| Reminders.Handle | netlify/functions/schedule-reminders.js:56-142 | the handler computes `HandleOf` |

## Left out

- Google Sheets, OAuth, demo mode and `localStorage`: the store models the list, not its persistence (`writeHabits`, `loadHabits`, `clearSheet`). These involve I/O.
- React rendering, effects and state hooks: only the state each updater computes is modelled.
- The clock: "today", the current minute, `Date.now()` and `new Date().toISOString()` are parameters.
- Time zones: dates are day numbers and the day boundary is not modelled. The current streak's cursor uses local midnight with `toISOString`, which can shift a day in some time zones.
- Floating point: rates (`Math.round(... * 100)`), the weekly completion chart and `getLastNDays` are left out. They are presentation.
- Number coercion: `Number()` on blank, signed or fractional fields is not modelled. Times and intervals are decimal digits or absent.
- Case folding: `toLowerCase` is modelled on ASCII letters only.
- Locale formatting: `toLocaleTimeString` labels and the card's `HH:MM` preview text are left out. The preview's slot minutes are modelled.
- The periodic reminder check in the browser and the service worker are left out. They involve I/O and timers.
- The OneSignal HTTP call and its exceptions are a `send` parameter. `new Date(sendAfter)` validity is a `validDate` parameter, and `toUTCString` is left out.
- JSON parsing of the request body: a body that does not parse, or parses to a value other than an object or `null`, is a payload without fields. The body `null` and `null` reminders are modelled.
- The notifications sent before a reminder throws are calls of the `send` parameter and are not visible in the result.
- Reminders.CodeUnits: lone surrogates have no `char` and are not modelled.
- Habit keys: `completions`, `skippedDates` and the logs are keyed by day number rather than ISO string.
- Years: the calendar's year is a `nat`.
- Schedule.ParseTimeToMinutes: does not model `Number`'s acceptance of blanks, signs or `9.0`. Fields are decimal digit runs.
