/**
 * The habit record of `src/state/HabitContext.jsx` and the read-only part of
 * its completion engine: the load-time migration `normalizeHabit`, the slot
 * log normaliser, the scheduling predicate, goal / progress / done, and the
 * decision whether a timed completion may be logged now.
 */
module Habits {
  import opened Wrappers
  import opened Lists
  import opened Dates
  import opened Schedule

  /** The `type` field: anything but `"timed"` behaves as a standard habit. */
  datatype Kind = Standard | Timed

  /** One element of `timedLogs[date]`. */
  datatype LogEntry =
    | SlotLog(slotIndex: int, completedAt: string)  // an object with an integer `slotIndex`
    | LegacyLog(text: string)                       // a bare string from the older log format
    | OtherLog                                      // anything else: null, a number, an object without an integer `slotIndex`

  datatype Habit = Habit(
    id: string,
    name: string,
    description: string,
    frequency: string,
    color: string,
    completions: map<Day, bool>,
    kind: Kind,
    targetDate: Option<Day>,   // the legacy one-off date; `""` is `None`
    intervalMinutes: int,
    startTime: string,
    endTime: string,
    skipWeekdays: seq<int>,
    skippedDates: map<Day, bool>,
    timedLogs: map<Day, seq<LogEntry>>,
    timedProgress: map<Day, int>)

  /** `Boolean(m[d])`: the key is present and true. */
  predicate Truthy(m: map<Day, bool>, d: Day) {
    d in m && m[d]
  }

  // ---------------------------------------------------------------------------
  // normalizeHabit

  /** A record as read back from storage or handed over by the form: any field may be missing. */
  datatype RawHabit = RawHabit(
    id: Option<string>,
    name: Option<string>,
    description: Option<string>,
    frequency: Option<string>,
    color: Option<string>,
    completions: Option<map<Day, bool>>,
    kind: Option<Kind>,
    targetDate: Option<Day>,
    intervalMinutes: Option<int>,
    intervalHours: Option<int>,   // the legacy interval column
    startTime: Option<string>,
    endTime: Option<string>,
    skipWeekdays: Option<seq<int>>,
    skippedDates: Option<map<Day, bool>>,
    timedLogs: Option<map<Day, seq<LogEntry>>>,
    timedProgress: Option<map<Day, int>>)

  predicate IsWeekday(w: int) { 0 <= w <= 6 }

  /** `intervalMinutes ?? intervalHours * 60 ?? 60`, replaced by 30 unless positive. */
  function NormalizedInterval(minutes: Option<int>, hours: Option<int>): (m: int)
    ensures m >= 1
    ensures minutes.Some? && minutes.value >= 1 ==> m == minutes.value
    ensures minutes.None? && hours.Some? && hours.value >= 1 ==> m == hours.value * 60
    ensures minutes.None? && hours.None? ==> m == 60
    ensures (minutes.Some? && minutes.value < 1) || (minutes.None? && hours.Some? && hours.value < 1) ==> m == 30
  {
    var parsed := if minutes.Some? then minutes.value else hours.GetOr(1) * 60;
    if parsed > 0 then parsed else 30
  }

  /**
   * `normalizeHabit`: fills every missing field with its default and keeps
   * only the whole weekdays 0..6 of `skipWeekdays`, without repeats. A
   * missing `id` becomes `freshId` (the source derives it from the clock).
   */
  function NormalizeHabit(raw: RawHabit, freshId: string): (h: Habit)
    ensures h.intervalMinutes >= 1
    ensures Distinct(h.skipWeekdays)
    ensures forall i :: 0 <= i < |h.skipWeekdays| ==> IsWeekday(h.skipWeekdays[i])
    ensures forall w :: w in h.skipWeekdays <==> raw.skipWeekdays.Some? && w in raw.skipWeekdays.value && IsWeekday(w)
    ensures h.id == raw.id.GetOr(freshId)
    ensures h.intervalMinutes == NormalizedInterval(raw.intervalMinutes, raw.intervalHours)
    ensures h.targetDate == raw.targetDate
    ensures raw.name.Some? ==> h.name == raw.name.value
    ensures raw.description.Some? ==> h.description == raw.description.value
    ensures raw.frequency.Some? ==> h.frequency == raw.frequency.value
    ensures raw.color.Some? ==> h.color == raw.color.value
    ensures raw.kind.Some? ==> h.kind == raw.kind.value
    ensures raw.startTime.Some? ==> h.startTime == raw.startTime.value
    ensures raw.endTime.Some? ==> h.endTime == raw.endTime.value
    ensures raw.completions.Some? ==> h.completions == raw.completions.value
    ensures raw.skippedDates.Some? ==> h.skippedDates == raw.skippedDates.value
    ensures raw.timedLogs.Some? ==> h.timedLogs == raw.timedLogs.value
    ensures raw.timedProgress.Some? ==> h.timedProgress == raw.timedProgress.value
  {
    var weekdays := Filter(raw.skipWeekdays.GetOr([]), IsWeekday);
    FilterMembers(raw.skipWeekdays.GetOr([]), IsWeekday);
    DedupeMembers(weekdays);
    Habit(
      raw.id.GetOr(freshId),
      raw.name.GetOr(""),
      raw.description.GetOr(""),
      raw.frequency.GetOr("Daily"),
      raw.color.GetOr("#59a7ff"),
      raw.completions.GetOr(map[]),
      raw.kind.GetOr(Standard),
      raw.targetDate,
      NormalizedInterval(raw.intervalMinutes, raw.intervalHours),
      raw.startTime.GetOr("09:00"),
      raw.endTime.GetOr("21:00"),
      Dedupe(weekdays),
      raw.skippedDates.GetOr(map[]),
      raw.timedLogs.GetOr(map[]),
      raw.timedProgress.GetOr(map[]))
  }

  /** A stored habit seen as a raw record with every field present. */
  function AsRaw(h: Habit): RawHabit {
    RawHabit(Some(h.id), Some(h.name), Some(h.description), Some(h.frequency), Some(h.color),
      Some(h.completions), Some(h.kind), h.targetDate, Some(h.intervalMinutes), None,
      Some(h.startTime), Some(h.endTime), Some(h.skipWeekdays), Some(h.skippedDates),
      Some(h.timedLogs), Some(h.timedProgress))
  }

  /** Habits that `normalizeHabit` can produce. */
  predicate IsNormalized(h: Habit) {
    && h.intervalMinutes >= 1
    && Distinct(h.skipWeekdays)
    && (forall i :: 0 <= i < |h.skipWeekdays| ==> IsWeekday(h.skipWeekdays[i]))
  }

  /** Normalising a normalised habit again (as every reload does) changes nothing. */
  lemma NormalizeIdempotent(h: Habit, freshId: string)
    requires IsNormalized(h)
    ensures NormalizeHabit(AsRaw(h), freshId) == h
  {
    FilterAll(h.skipWeekdays, IsWeekday);
    DedupeDistinct(h.skipWeekdays);
  }

  /** The defaults of an entirely empty record. */
  lemma NormalizeDefaults(freshId: string)
    ensures var h := NormalizeHabit(RawHabit(None, None, None, None, None, None, None, None, None, None, None, None, None, None, None, None), freshId);
      && h.id == freshId && h.kind == Standard && h.frequency == "Daily" && h.color == "#59a7ff"
      && h.startTime == "09:00" && h.endTime == "21:00" && h.intervalMinutes == 60
      && h.targetDate.None? && h.skipWeekdays == []
      && h.completions == map[] && h.skippedDates == map[] && h.timedLogs == map[] && h.timedProgress == map[]
  {
  }

  // ---------------------------------------------------------------------------
  // Schedule and slot log normaliser

  function HabitSchedule(h: Habit): seq<int> {
    ScheduleOf(h.intervalMinutes, h.startTime, h.endTime)
  }

  /** `Math.max(0, schedule.length - 1)`. */
  function MaxSlotIndex(h: Habit): int {
    if |HabitSchedule(h)| == 0 then 0 else |HabitSchedule(h)| - 1
  }

  /** `timedLogs[date]`, or no entries. */
  function RawLogs(h: Habit, d: Day): seq<LogEntry> {
    if d in h.timedLogs then h.timedLogs[d] else []
  }

  /** The slot index the entry at `position` stands for, if any. */
  function EntrySlot(e: LogEntry, position: int): Option<int> {
    match e
    case SlotLog(k, _) => Some(k)
    case LegacyLog(_) => Some(position)
    case OtherLog => None
  }

  predicate Contributes(entries: seq<LogEntry>, i: int, x: int) {
    0 <= i < |entries| && EntrySlot(entries[i], i) == Some(x)
  }

  /** The `map` and `filter` steps: the indices the entries stand for that lie in `[0, maxIndex]`, in entry order. */
  function SlotCandidates(entries: seq<LogEntry>, maxIndex: int): (r: seq<int>)
    ensures |r| <= |entries|
  {
    if entries == [] then []
    else
      var n := |entries| - 1;
      var p := SlotCandidates(entries[..n], maxIndex);
      match EntrySlot(entries[n], n)
      case Some(x) => if 0 <= x <= maxIndex then p + [x] else p
      case None => p
  }

  lemma {:induction false} SlotCandidatesMembers(entries: seq<LogEntry>, maxIndex: int, x: int)
    ensures x in SlotCandidates(entries, maxIndex) <==>
      0 <= x <= maxIndex && exists i :: Contributes(entries, i, x)
  {
    if entries != [] {
      var n := |entries| - 1;
      var p := SlotCandidates(entries[..n], maxIndex);
      SlotCandidatesMembers(entries[..n], maxIndex, x);
      if x in SlotCandidates(entries, maxIndex) {
        if x in p {
          var i :| Contributes(entries[..n], i, x);
          assert Contributes(entries, i, x);
        } else {
          assert Contributes(entries, n, x);
        }
      }
      if 0 <= x <= maxIndex && exists i :: Contributes(entries, i, x) {
        var i :| Contributes(entries, i, x);
        if i < n {
          assert Contributes(entries[..n], i, x);
        }
      }
    }
  }

  /** `getNormalizedTimedLogsForDate`: the completed slot indices, deduplicated and ascending. */
  function NormalizedSlots(h: Habit, d: Day): seq<int> {
    SortBy(Dedupe(SlotCandidates(RawLogs(h, d), MaxSlotIndex(h))), Ascending)
  }

  /**
   * The normaliser's output is strictly ascending, lies in
   * `[0, max(0, |schedule| - 1)]`, has at most one index per entry, and
   * holds exactly the in-range indices that some entry stands for: an
   * object its `slotIndex`, a bare string its position.
   */
  lemma NormalizedShape(h: Habit, d: Day)
    ensures var n := NormalizedSlots(h, d);
      && (forall i, j :: 0 <= i < j < |n| ==> n[i] < n[j])
      && (forall i :: 0 <= i < |n| ==> 0 <= n[i] <= MaxSlotIndex(h))
      && |n| <= |RawLogs(h, d)|
      && (forall x :: x in n <==> 0 <= x <= MaxSlotIndex(h) && exists i :: Contributes(RawLogs(h, d), i, x))
  {
    var c := SlotCandidates(RawLogs(h, d), MaxSlotIndex(h));
    var u := Dedupe(c);
    var n := SortBy(u, Ascending);
    DedupeMembers(c);
    SortBySorted(u, Ascending);
    SortByDistinct(u, Ascending);
    SortByPerm(u, Ascending);
    AscendingStrict(n);
    forall x
      ensures x in n <==> 0 <= x <= MaxSlotIndex(h) && exists i :: Contributes(RawLogs(h, d), i, x)
    {
      assert x in n <==> x in multiset(u);
      assert x in u <==> x in c;
      SlotCandidatesMembers(RawLogs(h, d), MaxSlotIndex(h), x);
    }
    forall i | 0 <= i < |n|
      ensures 0 <= n[i] <= MaxSlotIndex(h)
    {
      assert n[i] in multiset(u);
      SlotCandidatesMembers(RawLogs(h, d), MaxSlotIndex(h), n[i]);
    }
  }

  /** Membership in the normaliser's output, for one index. */
  lemma NormalizedMember(h: Habit, d: Day, x: int)
    ensures x in NormalizedSlots(h, d) <==> 0 <= x <= MaxSlotIndex(h) && exists i :: Contributes(RawLogs(h, d), i, x)
  {
    NormalizedShape(h, d);
  }

  /** The normalised count never exceeds the number of slots (or 1 when there are none). */
  lemma NormalizedCountBound(h: Habit, d: Day)
    ensures |NormalizedSlots(h, d)| <= MaxSlotIndex(h) + 1
    ensures HabitSchedule(h) != [] ==> |NormalizedSlots(h, d)| <= |HabitSchedule(h)|
  {
    NormalizedShape(h, d);
    AscendingCount(NormalizedSlots(h, d), 0, MaxSlotIndex(h));
  }

  /** Log entries that spell out exactly the slot indices `slots`. */
  predicate SpellsSlots(entries: seq<LogEntry>, slots: seq<int>) {
    |entries| == |slots| && forall k :: 0 <= k < |entries| ==> entries[k].SlotLog? && entries[k].slotIndex == slots[k]
  }

  lemma {:induction false} SlotCandidatesOfSpelled(entries: seq<LogEntry>, slots: seq<int>, maxIndex: int)
    requires SpellsSlots(entries, slots)
    requires forall k :: 0 <= k < |slots| ==> 0 <= slots[k] <= maxIndex
    ensures SlotCandidates(entries, maxIndex) == slots
  {
    if entries != [] {
      var n := |entries| - 1;
      SlotCandidatesOfSpelled(entries[..n], slots[..n], maxIndex);
      assert slots[..n] + [slots[n]] == slots;
    }
  }

  /** Normalising an already normalised log (storing its indices as slot entries) gives it back. */
  lemma NormalizedIdempotent(h: Habit, d: Day, entries: seq<LogEntry>)
    requires SpellsSlots(entries, NormalizedSlots(h, d))
    ensures NormalizedSlots(h.(timedLogs := h.timedLogs[d := entries]), d) == NormalizedSlots(h, d)
  {
    var n := NormalizedSlots(h, d);
    var h' := h.(timedLogs := h.timedLogs[d := entries]);
    NormalizedShape(h, d);
    assert HabitSchedule(h') == HabitSchedule(h);
    assert RawLogs(h', d) == entries;
    SlotCandidatesOfSpelled(entries, n, MaxSlotIndex(h));
    assert Distinct(n);
    DedupeDistinct(n);
    assert SortedBy(n, Ascending);
    SortByIdentity(n, Ascending);
  }

  /** With no slots at all, index 0 still survives the normaliser, and nothing else does. */
  lemma EmptyScheduleKeepsSlotZero(h: Habit, d: Day, i: int)
    requires HabitSchedule(h) == []
    requires Contributes(RawLogs(h, d), i, 0)
    ensures NormalizedSlots(h, d) == [0]
  {
    assert MaxSlotIndex(h) == 0;
    NormalizedShape(h, d);
    OnlyZero(NormalizedSlots(h, d));
  }

  lemma OnlyZero(n: seq<int>)
    requires forall i, j :: 0 <= i < j < |n| ==> n[i] < n[j]
    requires forall i :: 0 <= i < |n| ==> 0 <= n[i] <= 0
    requires 0 in n
    ensures n == [0]
  {
    AscendingCount(n, 0, 0);
  }

  /** A strictly ascending list of integers in `[lo, hi]` has at most `hi - lo + 1` elements. */
  lemma {:induction false} AscendingCount(n: seq<int>, lo: int, hi: int)
    requires forall i, j :: 0 <= i < j < |n| ==> n[i] < n[j]
    requires forall i :: 0 <= i < |n| ==> lo <= n[i] <= hi
    requires lo <= hi + 1
    ensures |n| <= hi - lo + 1
  {
    if |n| > 0 {
      AscendingCount(n[1..], n[0] + 1, hi);
    }
  }

  // ---------------------------------------------------------------------------
  // Scheduling predicate, goal, progress, done

  /** `isTimedHabitScheduledOnDate`. */
  predicate IsScheduled(h: Habit, d: Day) {
    && h.kind == Timed
    && (h.targetDate.None? || h.targetDate.value == d)
    && !Truthy(h.skippedDates, d)
    && Weekday(d) !in h.skipWeekdays
  }

  /** `getTimedDailyGoal`: the number of slots on a scheduled date, else 0. */
  function Goal(h: Habit, d: Day): (g: nat)
    ensures g > 0 ==> IsScheduled(h, d)
    ensures IsScheduled(h, d) ==> g == |HabitSchedule(h)|
  {
    if IsScheduled(h, d) then |HabitSchedule(h)| else 0
  }

  /**
   * A timed habit has a positive goal exactly on a scheduled date with a
   * valid window, and then the goal is the number of interval steps that fit
   * between the start and the end, plus one.
   */
  lemma GoalSpec(h: Habit, d: Day)
    ensures Goal(h, d) > 0 <==> IsScheduled(h, d) && ValidWindow(h.intervalMinutes, h.startTime, h.endTime)
    ensures Goal(h, d) > 0 ==>
      var start, end := ParseTimeToMinutes(h.startTime).value, ParseTimeToMinutes(h.endTime).value;
      Goal(h, d) == (end - start) / h.intervalMinutes + 1
  {
    ScheduleShape(h.intervalMinutes, h.startTime, h.endTime);
  }

  /** The goal depends only on the kind, the skip settings and the slot settings, never on the logs. */
  lemma GoalDependsOnSettings(h: Habit, r: Habit, d: Day)
    requires h.kind == r.kind && h.targetDate == r.targetDate && h.skipWeekdays == r.skipWeekdays
    requires Truthy(h.skippedDates, d) == Truthy(r.skippedDates, d)
    requires h.intervalMinutes == r.intervalMinutes && h.startTime == r.startTime && h.endTime == r.endTime
    ensures Goal(h, d) == Goal(r, d)
  {
  }

  /** The legacy counter `timedProgress[date] ?? 0`. */
  function LegacyProgress(h: Habit, d: Day): int {
    if d in h.timedProgress then h.timedProgress[d] else 0
  }

  /** `getTimedProgressCount`: the larger of the normalised log count and the legacy counter. */
  function Progress(h: Habit, d: Day): (p: int)
    ensures p >= |NormalizedSlots(h, d)| && p >= LegacyProgress(h, d)
    ensures p == |NormalizedSlots(h, d)| || p == LegacyProgress(h, d)
  {
    var logged := |NormalizedSlots(h, d)|;
    if logged >= LegacyProgress(h, d) then logged else LegacyProgress(h, d)
  }

  /** `isHabitDoneOnDate`. */
  predicate IsDone(h: Habit, d: Day) {
    if h.kind == Timed then
      if !IsScheduled(h, d) then Truthy(h.skippedDates, d)
      else Goal(h, d) > 0 && Progress(h, d) >= Goal(h, d)
    else Truthy(h.completions, d)
  }

  /** The three ways a habit can be done on a date, and nothing else. */
  lemma DoneCases(h: Habit, d: Day)
    ensures IsDone(h, d) <==>
      || (h.kind == Standard && Truthy(h.completions, d))
      || (h.kind == Timed && Truthy(h.skippedDates, d))
      || (IsScheduled(h, d) && |HabitSchedule(h)| > 0 && Progress(h, d) >= |HabitSchedule(h)|)
  {
  }

  // ---------------------------------------------------------------------------
  // getTimedLogState

  datatype Reason = NotScheduled | DateLocked | BeforeStart | OutsideSlot | AlreadyLogged | Ok

  datatype LogState = LogState(
    canLogNow: bool,
    reason: Reason,
    activeSlotIndex: int,
    completedSlotIndices: seq<int>,
    schedule: seq<int>)

  /**
   * `getTimedLogState` for `date`, given the current date `today` and the
   * current minute of the day `nowMinutes`. The reasons are tried in order:
   * not scheduled (or no slots), another date, no slot open now, the open
   * slot already logged, and otherwise the open slot may be logged.
   */
  function TimedLogState(h: Habit, date: Day, today: Day, nowMinutes: int): (st: LogState)
    ensures st.schedule == HabitSchedule(h) && st.completedSlotIndices == NormalizedSlots(h, date)
    ensures st.canLogNow <==> st.reason == Ok
  {
    LogStateFor(IsScheduled(h, date), HabitSchedule(h), NormalizedSlots(h, date), date, today, nowMinutes, h.intervalMinutes)
  }

  /** The decision `getTimedLogState` makes once it has the schedule and the completed slots. */
  function LogStateFor(scheduled: bool, schedule: seq<int>, completed: seq<int>, date: Day, today: Day, nowMinutes: int, interval: int): (st: LogState)
    ensures st.schedule == schedule && st.completedSlotIndices == completed
    ensures st.canLogNow <==> st.reason == Ok
  {
    if !scheduled || |schedule| == 0 then LogState(false, NotScheduled, -1, completed, schedule)
    else if date != today then LogState(false, DateLocked, -1, completed, schedule)
    else
      var active := ActiveSlot(schedule, nowMinutes, interval);
      if active == -1 then
        LogState(false, if nowMinutes < schedule[0] then BeforeStart else OutsideSlot, -1, completed, schedule)
      else if active in completed then LogState(false, AlreadyLogged, active, completed, schedule)
      else LogState(true, Ok, active, completed, schedule)
  }

  /** The reasons of `LogStateFor`, each with the condition that produces it. */
  lemma LogStateReasons(scheduled: bool, schedule: seq<int>, completed: seq<int>, date: Day, today: Day, nowMinutes: int, interval: int)
    ensures var st := LogStateFor(scheduled, schedule, completed, date, today, nowMinutes, interval);
      && (st.reason == NotScheduled <==> !scheduled || schedule == [])
      && (st.reason == DateLocked <==> scheduled && schedule != [] && date != today)
      && (st.reason in {BeforeStart, OutsideSlot, AlreadyLogged, Ok} ==> scheduled && schedule != [] && date == today)
      && (st.reason in {BeforeStart, OutsideSlot} <==>
            && scheduled && schedule != [] && date == today
            && forall k :: 0 <= k < |schedule| ==> !InSlot(schedule[k], nowMinutes, interval))
      && (st.reason == BeforeStart ==> nowMinutes < schedule[0])
      && (st.reason == OutsideSlot ==> nowMinutes >= schedule[0])
      && (st.reason in {AlreadyLogged, Ok} ==>
            && 0 <= st.activeSlotIndex < |schedule|
            && InSlot(schedule[st.activeSlotIndex], nowMinutes, interval)
            && (st.activeSlotIndex in completed <==> st.reason == AlreadyLogged))
      && (st.reason !in {AlreadyLogged, Ok} ==> st.activeSlotIndex == -1)
  {
    ActiveSlotFirst(schedule, nowMinutes, interval);
  }

  /**
   * The reasons `getTimedLogState` gives, tried in order: not scheduled (or
   * no slots), another date, no slot open now (before the first slot, or
   * after one has closed), the open slot already logged, and otherwise the
   * open slot may be logged.
   */
  lemma TimedLogStateReasons(h: Habit, date: Day, today: Day, nowMinutes: int, st: LogState)
    requires st == TimedLogState(h, date, today, nowMinutes)
    ensures st.reason == NotScheduled <==> !IsScheduled(h, date) || HabitSchedule(h) == []
    ensures st.reason == DateLocked <==> IsScheduled(h, date) && HabitSchedule(h) != [] && date != today
    ensures st.reason in {BeforeStart, OutsideSlot, AlreadyLogged, Ok} ==>
      IsScheduled(h, date) && HabitSchedule(h) != [] && date == today
    ensures st.reason in {BeforeStart, OutsideSlot} <==>
      && IsScheduled(h, date) && HabitSchedule(h) != [] && date == today
      && forall k :: 0 <= k < |HabitSchedule(h)| ==> !InSlot(HabitSchedule(h)[k], nowMinutes, h.intervalMinutes)
    ensures st.reason == BeforeStart ==> nowMinutes < HabitSchedule(h)[0]
    ensures st.reason == OutsideSlot ==> nowMinutes >= HabitSchedule(h)[0]
    ensures st.reason in {AlreadyLogged, Ok} ==>
      && 0 <= st.activeSlotIndex < |HabitSchedule(h)|
      && InSlot(HabitSchedule(h)[st.activeSlotIndex], nowMinutes, h.intervalMinutes)
      && (st.activeSlotIndex in NormalizedSlots(h, date) <==> st.reason == AlreadyLogged)
    ensures st.reason !in {AlreadyLogged, Ok} ==> st.activeSlotIndex == -1
  {
    LogStateReasons(IsScheduled(h, date), HabitSchedule(h), NormalizedSlots(h, date), date, today, nowMinutes, h.intervalMinutes);
  }

  /** "outside_slot" only comes after the last slot has ended: the slots leave no gaps. */
  lemma OutsideSlotIsAfterLastSlot(h: Habit, date: Day, today: Day, nowMinutes: int)
    requires TimedLogState(h, date, today, nowMinutes).reason == OutsideSlot
    ensures var s := HabitSchedule(h); nowMinutes >= s[|s| - 1] + h.intervalMinutes
  {
    var s := HabitSchedule(h);
    ScheduleShape(h.intervalMinutes, h.startTime, h.endTime);
    if nowMinutes < s[|s| - 1] + h.intervalMinutes {
      ActiveSlotGapFree(s, nowMinutes, h.intervalMinutes);
    }
  }

  /** The slot a completion may be logged for is the only slot that contains the current minute. */
  lemma ActiveSlotIsTheOnlyOpenSlot(h: Habit, date: Day, today: Day, nowMinutes: int, k: int)
    requires TimedLogState(h, date, today, nowMinutes).reason in {AlreadyLogged, Ok}
    requires 0 <= k < |HabitSchedule(h)| && InSlot(HabitSchedule(h)[k], nowMinutes, h.intervalMinutes)
    ensures TimedLogState(h, date, today, nowMinutes).activeSlotIndex == k
  {
    ScheduleShape(h.intervalMinutes, h.startTime, h.endTime);
    ActiveSlotUnique(HabitSchedule(h), nowMinutes, h.intervalMinutes, k);
  }

  /** The open slot is reported only on a scheduled date with slots that is today, and it is the first slot containing now. */
  lemma OpenSlotState(h: Habit, date: Day, today: Day, nowMinutes: int)
    requires TimedLogState(h, date, today, nowMinutes).reason in {AlreadyLogged, Ok}
    ensures IsScheduled(h, date) && HabitSchedule(h) != [] && date == today
    ensures TimedLogState(h, date, today, nowMinutes).activeSlotIndex == ActiveSlot(HabitSchedule(h), nowMinutes, h.intervalMinutes) >= 0
  {
  }

  /** The state is "already_logged" when the open slot is among the completed ones. */
  lemma AlreadyLoggedWhen(h: Habit, date: Day, today: Day, nowMinutes: int, k: int)
    requires IsScheduled(h, date) && HabitSchedule(h) != [] && date == today
    requires ActiveSlot(HabitSchedule(h), nowMinutes, h.intervalMinutes) == k >= 0
    requires k in NormalizedSlots(h, date)
    ensures TimedLogState(h, date, today, nowMinutes).reason == AlreadyLogged
  {
  }

  /**
   * Two habits with the same schedule and scheduling fields open the same
   * slot; once that slot is among the completed ones the state is
   * "already_logged".
   */
  lemma SameSlotAlreadyLogged(h: Habit, r: Habit, date: Day, today: Day, nowMinutes: int)
    requires r.kind == h.kind && r.targetDate == h.targetDate && r.skippedDates == h.skippedDates && r.skipWeekdays == h.skipWeekdays
    requires r.intervalMinutes == h.intervalMinutes && r.startTime == h.startTime && r.endTime == h.endTime
    requires TimedLogState(h, date, today, nowMinutes).reason in {AlreadyLogged, Ok}
    requires TimedLogState(h, date, today, nowMinutes).activeSlotIndex in NormalizedSlots(r, date)
    ensures TimedLogState(r, date, today, nowMinutes).reason == AlreadyLogged
  {
    OpenSlotState(h, date, today, nowMinutes);
    assert HabitSchedule(r) == HabitSchedule(h);
    assert IsScheduled(r, date) == IsScheduled(h, date);
    AlreadyLoggedWhen(r, date, today, nowMinutes, TimedLogState(h, date, today, nowMinutes).activeSlotIndex);
  }
}
