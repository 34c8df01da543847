/**
 * The per-habit bodies of the store's mutators in
 * `src/state/HabitContext.jsx`: `toggleCompletion`, `logTimedCompletion`,
 * `undoTimedCompletion` and `toggleSkipTimedDate`. Each maps one habit
 * record to its successor; the store applies it to the habit whose id
 * matches.
 */
module Engine {
  import opened Lists
  import opened Dates
  import opened Schedule
  import opened Habits

  /** `completions[date]` agrees with `isHabitDoneOnDate` on `date`. */
  predicate CacheConsistent(h: Habit, d: Day) {
    Truthy(h.completions, d) == IsDone(h, d)
  }

  /** The rule log and undo share: set `completions[date]` when `count >= goal > 0`, else delete the key. */
  function RecordCompletion(completions: map<Day, bool>, d: Day, count: int, goal: int): (c: map<Day, bool>)
    ensures Truthy(c, d) <==> goal > 0 && count >= goal
    ensures d in c ==> c[d]
    ensures c - {d} == completions - {d}
  {
    if count >= goal && goal > 0 then completions[d := true] else completions - {d}
  }

  // ---------------------------------------------------------------------------
  // toggleCompletion

  /** Flips a standard habit's `completions[date]`; a timed habit is left alone. */
  function ToggleCompletion(h: Habit, d: Day): (r: Habit)
    ensures h.kind == Timed ==> r == h
    ensures h.kind == Standard ==> (IsDone(r, d) <==> !IsDone(h, d))
    ensures forall x :: x != d ==> IsDone(r, x) == IsDone(h, x)
    ensures r.(completions := h.completions) == h
    ensures r.completions - {d} == h.completions - {d}
  {
    if h.kind == Timed then h
    else h.(completions := h.completions[d := !Truthy(h.completions, d)])
  }

  lemma ToggleCompletionTwice(h: Habit, d: Day)
    ensures forall x :: Truthy(ToggleCompletion(ToggleCompletion(h, d), d).completions, x) == Truthy(h.completions, x)
    ensures d in h.completions ==> ToggleCompletion(ToggleCompletion(h, d), d) == h
  {
  }

  // ---------------------------------------------------------------------------
  // logTimedCompletion

  predicate IsSlotLog(e: LogEntry) { e.SlotLog? }

  /** The order of `(a, b) => a.slotIndex - b.slotIndex`. */
  function SlotOrder(e: LogEntry): Rank {
    Ascending(if e.SlotLog? then e.slotIndex else 0)
  }

  /**
   * The update `logTimedCompletion` makes once it has found the open slot
   * `k`: the object entries of `timedLogs[date]` (bare strings are dropped)
   * plus a new entry for `k`, sorted by slot, become the day's log;
   * `timedProgress[date]` becomes its length; `completions[date]` is set
   * when that length reaches a positive goal and deleted otherwise. No other
   * field and no other date changes.
   */
  function AppendSlotLog(h: Habit, date: Day, k: int, completedAt: string): (r: Habit)
    ensures r == h.(timedLogs := r.timedLogs, timedProgress := r.timedProgress, completions := r.completions)
    ensures date in r.timedLogs && r.timedLogs - {date} == h.timedLogs - {date}
    ensures r.timedProgress == h.timedProgress[date := |r.timedLogs[date]|]
    ensures r.completions == RecordCompletion(h.completions, date, |r.timedLogs[date]|, Goal(h, date))
  {
    var next := SortBy(Filter(RawLogs(h, date), IsSlotLog) + [SlotLog(k, completedAt)], SlotOrder);
    h.(timedLogs := h.timedLogs[date := next],
       timedProgress := h.timedProgress[date := |next|],
       completions := RecordCompletion(h.completions, date, |next|, Goal(h, date)))
  }

  /**
   * `logTimedCompletion` on one habit: unless it is timed and a completion
   * may be logged now, nothing changes; otherwise the open slot is appended.
   */
  function LogTimedCompletion(h: Habit, date: Day, today: Day, nowMinutes: int, completedAt: string): (r: Habit)
    ensures !(h.kind == Timed && TimedLogState(h, date, today, nowMinutes).canLogNow) ==> r == h
    ensures h.kind == Timed && TimedLogState(h, date, today, nowMinutes).canLogNow ==>
      r == AppendSlotLog(h, date, TimedLogState(h, date, today, nowMinutes).activeSlotIndex, completedAt)
  {
    var st := TimedLogState(h, date, today, nowMinutes);
    if h.kind != Timed || !st.canLogNow then h
    else AppendSlotLog(h, date, st.activeSlotIndex, completedAt)
  }

  /** The new log is the old object entries plus the new one, sorted by slot. */
  lemma AppendLogShape(h: Habit, date: Day, k: int, completedAt: string)
    ensures var log := AppendSlotLog(h, date, k, completedAt).timedLogs[date];
      && multiset(log) == multiset(Filter(RawLogs(h, date), IsSlotLog)) + multiset{SlotLog(k, completedAt)}
      && SortedBy(log, SlotOrder)
  {
    var next := Filter(RawLogs(h, date), IsSlotLog) + [SlotLog(k, completedAt)];
    SortBySorted(next, SlotOrder);
    SortByPerm(next, SlotOrder);
  }

  /** What appending leaves as it was: the schedule, whether the date is scheduled, its goal. */
  lemma AppendFrame(h: Habit, date: Day, k: int, completedAt: string)
    ensures var r := AppendSlotLog(h, date, k, completedAt);
      && r.kind == h.kind && r.targetDate == h.targetDate && r.skippedDates == h.skippedDates && r.skipWeekdays == h.skipWeekdays
      && r.intervalMinutes == h.intervalMinutes && r.startTime == h.startTime && r.endTime == h.endTime
      && HabitSchedule(r) == HabitSchedule(h) && MaxSlotIndex(r) == MaxSlotIndex(h)
      && IsScheduled(r, date) == IsScheduled(h, date) && Goal(r, date) == Goal(h, date)
      && RawLogs(r, date) == r.timedLogs[date]
  {
  }

  /** The new log holds the object entries of the old one and the new entry, and nothing else. */
  lemma AppendKeepsSlotEntries(h: Habit, date: Day, k: int, completedAt: string, e: LogEntry)
    ensures e in AppendSlotLog(h, date, k, completedAt).timedLogs[date] <==> (e.SlotLog? && e in RawLogs(h, date)) || e == SlotLog(k, completedAt)
  {
    var raw := RawLogs(h, date);
    var next := Filter(raw, IsSlotLog) + [SlotLog(k, completedAt)];
    assert AppendSlotLog(h, date, k, completedAt).timedLogs[date] == SortBy(next, SlotOrder);
    SortByPerm(next, SlotOrder);
    FilterMembers(raw, IsSlotLog);
    assert e in SortBy(next, SlotOrder) <==> e in multiset(next);
  }

  /** A log made only of object entries counts each of them at most once. */
  lemma ProgressOfSlotLogs(h: Habit, d: Day)
    requires forall i :: 0 <= i < |RawLogs(h, d)| ==> RawLogs(h, d)[i].SlotLog?
    requires LegacyProgress(h, d) == |RawLogs(h, d)|
    ensures Progress(h, d) == |RawLogs(h, d)|
  {
    NormalizedShape(h, d);
  }

  /** After appending an in-range slot it is among the completed slots. */
  lemma AppendRecordsSlot(h: Habit, date: Day, k: int, completedAt: string)
    requires 0 <= k <= MaxSlotIndex(h)
    ensures k in NormalizedSlots(AppendSlotLog(h, date, k, completedAt), date)
  {
    var r := AppendSlotLog(h, date, k, completedAt);
    var next := r.timedLogs[date];
    AppendFrame(h, date, k, completedAt);
    AppendKeepsSlotEntries(h, date, k, completedAt, SlotLog(k, completedAt));
    var i :| 0 <= i < |next| && next[i] == SlotLog(k, completedAt);
    assert Contributes(RawLogs(r, date), i, k);
    NormalizedMember(r, date, k);
  }

  /**
   * Appending keeps every completed slot and adds the new one; when the
   * day's log holds no bare strings, the completed slots grow by exactly
   * the new one.
   */
  lemma AppendAddsSlot(h: Habit, date: Day, k: int, completedAt: string, x: int)
    requires 0 <= k <= MaxSlotIndex(h)
    requires forall i :: 0 <= i < |RawLogs(h, date)| ==> !RawLogs(h, date)[i].LegacyLog?
    ensures x in NormalizedSlots(AppendSlotLog(h, date, k, completedAt), date) <==> x in NormalizedSlots(h, date) || x == k
  {
    var r := AppendSlotLog(h, date, k, completedAt);
    var e := SlotLog(k, completedAt);
    AppendFrame(h, date, k, completedAt);
    forall f | true
      ensures f in RawLogs(r, date) <==> (f.SlotLog? && f in RawLogs(h, date)) || f == e
    {
      AppendKeepsSlotEntries(h, date, k, completedAt, f);
    }
    NormalizedMember(h, date, x);
    NormalizedMember(r, date, x);
    AddedEntryContributes(RawLogs(h, date), RawLogs(r, date), e, x);
  }

  /** Contributions of a log made of the object entries of `raw` plus the object entry `e`, when `raw` holds no bare strings. */
  lemma AddedEntryContributes(raw: seq<LogEntry>, next: seq<LogEntry>, e: LogEntry, x: int)
    requires e.SlotLog?
    requires forall i :: 0 <= i < |raw| ==> !raw[i].LegacyLog?
    requires forall f :: f in next <==> (f.SlotLog? && f in raw) || f == e
    ensures (exists j :: Contributes(next, j, x)) <==> (exists i :: Contributes(raw, i, x)) || x == e.slotIndex
  {
    if exists i :: Contributes(raw, i, x) {
      var i :| Contributes(raw, i, x);
      assert raw[i] in next;
      var j :| 0 <= j < |next| && next[j] == raw[i];
      assert Contributes(next, j, x);
    }
    if x == e.slotIndex {
      assert e in next;
      var j :| 0 <= j < |next| && next[j] == e;
      assert Contributes(next, j, x);
    }
    if exists j :: Contributes(next, j, x) {
      var j :| Contributes(next, j, x);
      assert next[j] in next;
      if next[j] != e {
        var i :| 0 <= i < |raw| && raw[i] == next[j];
        assert Contributes(raw, i, x);
      }
    }
  }

  /** After appending on a scheduled date, progress is the new log's length and `completions[date]` agrees with `isHabitDoneOnDate`. */
  lemma AppendKeepsCache(h: Habit, date: Day, k: int, completedAt: string)
    requires IsScheduled(h, date)
    ensures var r := AppendSlotLog(h, date, k, completedAt);
      && Progress(r, date) == |r.timedLogs[date]|
      && CacheConsistent(r, date)
  {
    var r := AppendSlotLog(h, date, k, completedAt);
    var next := r.timedLogs[date];
    AppendFrame(h, date, k, completedAt);
    forall j | 0 <= j < |next|
      ensures next[j].SlotLog?
    {
      AppendKeepsSlotEntries(h, date, k, completedAt, next[j]);
    }
    assert LegacyProgress(r, date) == |next|;
    ProgressOfSlotLogs(r, date);
  }

  /**
   * A successful log records the open slot: it is then among the completed
   * slots, a second attempt in the same slot reports "already_logged",
   * progress is the new log's length and `completions[date]` agrees with
   * `isHabitDoneOnDate`.
   */
  lemma LogRecordsOpenSlot(h: Habit, date: Day, today: Day, nowMinutes: int, completedAt: string)
    requires h.kind == Timed && TimedLogState(h, date, today, nowMinutes).canLogNow
    ensures var r := LogTimedCompletion(h, date, today, nowMinutes, completedAt);
      && TimedLogState(h, date, today, nowMinutes).activeSlotIndex in NormalizedSlots(r, date)
      && TimedLogState(r, date, today, nowMinutes).reason == AlreadyLogged
      && Progress(r, date) == |r.timedLogs[date]|
      && CacheConsistent(r, date)
  {
    var k := TimedLogState(h, date, today, nowMinutes).activeSlotIndex;
    var r := AppendSlotLog(h, date, k, completedAt);
    OpenSlotState(h, date, today, nowMinutes);
    AppendFrame(h, date, k, completedAt);
    AppendRecordsSlot(h, date, k, completedAt);
    AppendKeepsCache(h, date, k, completedAt);
    SameSlotAlreadyLogged(h, r, date, today, nowMinutes);
  }

  /** When the day's log holds no bare strings, a successful log adds exactly the open slot to the completed slots. */
  lemma LogAddsOpenSlot(h: Habit, date: Day, today: Day, nowMinutes: int, completedAt: string, x: int)
    requires h.kind == Timed && TimedLogState(h, date, today, nowMinutes).canLogNow
    requires forall i :: 0 <= i < |RawLogs(h, date)| ==> !RawLogs(h, date)[i].LegacyLog?
    ensures x in NormalizedSlots(LogTimedCompletion(h, date, today, nowMinutes, completedAt), date)
      <==> x in NormalizedSlots(h, date) || x == TimedLogState(h, date, today, nowMinutes).activeSlotIndex
  {
    OpenSlotState(h, date, today, nowMinutes);
    AppendAddsSlot(h, date, TimedLogState(h, date, today, nowMinutes).activeSlotIndex, completedAt, x);
  }

  // ---------------------------------------------------------------------------
  // undoTimedCompletion

  /** The entries undo keeps: object entries for another slot than `last`. */
  predicate KeptByUndo(e: LogEntry, last: int) {
    e.SlotLog? && e.slotIndex != last
  }

  /** The day's log without the entries for slot `last` and without bare strings. */
  function UndoLog(entries: seq<LogEntry>, last: int): (r: seq<LogEntry>)
    ensures |r| <= |entries|
  {
    Filter(entries, (e: LogEntry) => KeptByUndo(e, last))
  }

  /** Undo keeps exactly the entries `KeptByUndo` accepts. */
  lemma UndoLogMembers(entries: seq<LogEntry>, last: int)
    ensures var r := UndoLog(entries, last);
      && (forall i :: 0 <= i < |r| ==> KeptByUndo(r[i], last) && r[i] in entries)
      && (forall i :: 0 <= i < |entries| && KeptByUndo(entries[i], last) ==> entries[i] in r)
  {
    FilterMembers(entries, (e: LogEntry) => KeptByUndo(e, last));
  }

  /** The highest completed slot of the day: the one undo takes back. */
  function LastSlot(h: Habit, date: Day): int
    requires NormalizedSlots(h, date) != []
  {
    var slots := NormalizedSlots(h, date);
    slots[|slots| - 1]
  }

  /**
   * `undoTimedCompletion` on one habit: nothing changes unless it is timed
   * and has a completed slot (legacy progress alone does not count).
   * Otherwise every object entry for the highest completed slot and every
   * bare string is removed, `timedProgress[date]` becomes the new length and
   * `completions[date]` is recomputed with the rule logging uses.
   */
  function UndoTimedCompletion(h: Habit, date: Day): (r: Habit)
    ensures h.kind != Timed || NormalizedSlots(h, date) == [] ==> r == h
    ensures h.kind == Timed && NormalizedSlots(h, date) != [] ==>
      && r == h.(timedLogs := r.timedLogs, timedProgress := r.timedProgress, completions := r.completions)
      && r.timedLogs == h.timedLogs[date := UndoLog(RawLogs(h, date), LastSlot(h, date))]
      && r.timedProgress == h.timedProgress[date := |r.timedLogs[date]|]
      && r.completions == RecordCompletion(h.completions, date, |r.timedLogs[date]|, Goal(h, date))
  {
    if h.kind != Timed || NormalizedSlots(h, date) == [] then h
    else
      var next := UndoLog(RawLogs(h, date), LastSlot(h, date));
      h.(timedLogs := h.timedLogs[date := next],
         timedProgress := h.timedProgress[date := |next|],
         completions := RecordCompletion(h.completions, date, |next|, Goal(h, date)))
  }

  /** What undo leaves as it was: the schedule, whether the date is scheduled, its goal. */
  lemma UndoFrame(h: Habit, date: Day)
    ensures var r := UndoTimedCompletion(h, date);
      && r.kind == h.kind && r.skippedDates == h.skippedDates
      && HabitSchedule(r) == HabitSchedule(h) && MaxSlotIndex(r) == MaxSlotIndex(h)
      && IsScheduled(r, date) == IsScheduled(h, date) && Goal(r, date) == Goal(h, date)
      && (h.kind == Timed && NormalizedSlots(h, date) != [] ==> RawLogs(r, date) == r.timedLogs[date])
  {
  }

  /** Undo removes the highest completed slot and keeps only lower ones. */
  lemma UndoRemovesHighestSlot(h: Habit, date: Day, x: int)
    requires h.kind == Timed && NormalizedSlots(h, date) != []
    ensures LastSlot(h, date) !in NormalizedSlots(UndoTimedCompletion(h, date), date)
    ensures x in NormalizedSlots(UndoTimedCompletion(h, date), date) ==> x in NormalizedSlots(h, date) && x < LastSlot(h, date)
  {
    var last := LastSlot(h, date);
    var r := UndoTimedCompletion(h, date);
    UndoFrame(h, date);
    UndoLogContributes(RawLogs(h, date), last, last);
    NormalizedMember(r, date, last);
    UndoLogContributes(RawLogs(h, date), last, x);
    NormalizedMember(r, date, x);
    NormalizedMember(h, date, x);
    if x in NormalizedSlots(r, date) {
      NormalizedShape(h, date);
      BelowLast(NormalizedSlots(h, date), x);
    }
  }

  /** When the day's log holds no bare strings, undo removes exactly the highest completed slot. */
  lemma UndoRemovesOnlyHighestSlot(h: Habit, date: Day, x: int)
    requires h.kind == Timed && NormalizedSlots(h, date) != []
    requires forall i :: 0 <= i < |RawLogs(h, date)| ==> !RawLogs(h, date)[i].LegacyLog?
    ensures x in NormalizedSlots(UndoTimedCompletion(h, date), date) <==> x in NormalizedSlots(h, date) && x != LastSlot(h, date)
  {
    var last := LastSlot(h, date);
    var r := UndoTimedCompletion(h, date);
    UndoFrame(h, date);
    UndoLogContributes(RawLogs(h, date), last, x);
    NormalizedMember(r, date, x);
    NormalizedMember(h, date, x);
  }

  /** The indices the undone log stands for: those of the old log other than `last`, all of them when it holds no bare strings. */
  lemma UndoLogContributes(raw: seq<LogEntry>, last: int, x: int)
    ensures (exists j :: Contributes(UndoLog(raw, last), j, x)) ==> x != last && exists i :: Contributes(raw, i, x)
    ensures (forall i :: 0 <= i < |raw| ==> !raw[i].LegacyLog?) && x != last && (exists i :: Contributes(raw, i, x)) ==>
      exists j :: Contributes(UndoLog(raw, last), j, x)
  {
    var next := UndoLog(raw, last);
    UndoLogMembers(raw, last);
    if exists j :: Contributes(next, j, x) {
      var j :| Contributes(next, j, x);
      assert KeptByUndo(next[j], last) && next[j] in raw;
      var i :| 0 <= i < |raw| && raw[i] == next[j];
      assert Contributes(raw, i, x);
    }
    if (forall i :: 0 <= i < |raw| ==> !raw[i].LegacyLog?) && x != last && (exists i :: Contributes(raw, i, x)) {
      var i :| Contributes(raw, i, x);
      assert KeptByUndo(raw[i], last);
      assert raw[i] in next;
      var j :| 0 <= j < |next| && next[j] == raw[i];
      assert Contributes(next, j, x);
    }
  }

  /** In a strictly ascending list every element but the last is below the last. */
  lemma BelowLast(s: seq<int>, x: int)
    requires forall i, j :: 0 <= i < j < |s| ==> s[i] < s[j]
    requires x in s
    ensures x != s[|s| - 1] ==> x < s[|s| - 1]
  {
  }

  /** On a scheduled date undo leaves `completions[date]` agreeing with `isHabitDoneOnDate`. */
  lemma UndoKeepsCacheWhenScheduled(h: Habit, date: Day)
    requires h.kind == Timed && NormalizedSlots(h, date) != [] && IsScheduled(h, date)
    ensures CacheConsistent(UndoTimedCompletion(h, date), date)
  {
    var r := UndoTimedCompletion(h, date);
    var slots := NormalizedSlots(h, date);
    var next := r.timedLogs[date];
    UndoFrame(h, date);
    UndoLogMembers(RawLogs(h, date), slots[|slots| - 1]);
    assert LegacyProgress(r, date) == |next|;
    forall j | 0 <= j < |next|
      ensures next[j].SlotLog?
    {
      assert KeptByUndo(next[j], slots[|slots| - 1]);
    }
    ProgressOfSlotLogs(r, date);
  }

  /**
   * On a date skipped with "skip today", undo still deletes
   * `completions[date]`, although `isHabitDoneOnDate` keeps reporting the
   * day as done: the stored flag and the derived one part ways.
   */
  lemma UndoOnSkippedDateClearsFlag(h: Habit, date: Day)
    requires h.kind == Timed && NormalizedSlots(h, date) != [] && Truthy(h.skippedDates, date)
    ensures var r := UndoTimedCompletion(h, date);
      !Truthy(r.completions, date) && IsDone(r, date)
  {
    var r := UndoTimedCompletion(h, date);
    UndoFrame(h, date);
    assert !IsScheduled(r, date);
  }

  /** With only legacy progress and no logged slot, undo does nothing although progress is positive. */
  lemma UndoIgnoresLegacyProgress(h: Habit, date: Day)
    requires h.kind == Timed && NormalizedSlots(h, date) == [] && LegacyProgress(h, date) > 0
    ensures Progress(h, date) > 0 && UndoTimedCompletion(h, date) == h
  {
  }

  /** A day's log in its canonical form: object entries for distinct in-range slots, ascending. */
  predicate CanonicalLog(h: Habit, d: Day) {
    SpellsSlots(RawLogs(h, d), NormalizedSlots(h, d))
  }

  /**
   * Logging the open slot when it lies above every completed slot and then
   * undoing gives back the day's log exactly, and with it the completed
   * slots and the progress.
   */
  lemma LogThenUndo(h: Habit, date: Day, today: Day, nowMinutes: int, completedAt: string)
    requires h.kind == Timed && TimedLogState(h, date, today, nowMinutes).canLogNow
    requires CanonicalLog(h, date)
    requires LegacyProgress(h, date) <= |NormalizedSlots(h, date)|
    requires forall x :: x in NormalizedSlots(h, date) ==> x < TimedLogState(h, date, today, nowMinutes).activeSlotIndex
    ensures var r := UndoTimedCompletion(LogTimedCompletion(h, date, today, nowMinutes, completedAt), date);
      && RawLogs(r, date) == RawLogs(h, date)
      && NormalizedSlots(r, date) == NormalizedSlots(h, date)
      && Progress(r, date) == Progress(h, date)
  {
    OpenSlotState(h, date, today, nowMinutes);
    AppendThenUndo(h, date, TimedLogState(h, date, today, nowMinutes).activeSlotIndex, completedAt);
  }

  lemma AppendThenUndo(h: Habit, date: Day, k: int, completedAt: string)
    requires h.kind == Timed && 0 <= k <= MaxSlotIndex(h)
    requires CanonicalLog(h, date)
    requires LegacyProgress(h, date) <= |NormalizedSlots(h, date)|
    requires forall x :: x in NormalizedSlots(h, date) ==> x < k
    ensures var r := UndoTimedCompletion(AppendSlotLog(h, date, k, completedAt), date);
      && RawLogs(r, date) == RawLogs(h, date)
      && NormalizedSlots(r, date) == NormalizedSlots(h, date)
      && Progress(r, date) == Progress(h, date)
  {
    var l := AppendSlotLog(h, date, k, completedAt);
    var r := UndoTimedCompletion(l, date);
    AppendThenUndoLog(h, date, k, completedAt);
    AppendFrame(h, date, k, completedAt);
    UndoFrame(l, date);
    SameLogSameSlots(h, r, date);
  }

  /** Undoing right after appending gives back the day's log. */
  lemma AppendThenUndoLog(h: Habit, date: Day, k: int, completedAt: string)
    requires 0 <= k <= MaxSlotIndex(h)
    requires CanonicalLog(h, date)
    requires forall x :: x in NormalizedSlots(h, date) ==> x < k
    ensures var l := AppendSlotLog(h, date, k, completedAt);
      && NormalizedSlots(l, date) != [] && LastSlot(l, date) == k
      && UndoLog(l.timedLogs[date], LastSlot(l, date)) == RawLogs(h, date)
  {
    var raw := RawLogs(h, date);
    var slots := NormalizedSlots(h, date);
    AppendAppends(h, date, k, completedAt);
    AppendMakesHighest(h, date, k, completedAt);
    forall i | 0 <= i < |raw| ensures KeptByUndo(raw[i], k) {
      assert slots[i] in slots;
    }
    UndoLogAppended(raw, SlotLog(k, completedAt));
  }

  /** Two habits with the same schedule and the same log for a day agree on its slots; with the same legacy counter, on its progress. */
  lemma SameLogSameSlots(h: Habit, r: Habit, d: Day)
    requires RawLogs(r, d) == RawLogs(h, d) && MaxSlotIndex(r) == MaxSlotIndex(h)
    ensures NormalizedSlots(r, d) == NormalizedSlots(h, d)
    ensures LegacyProgress(r, d) == LegacyProgress(h, d) ==> Progress(r, d) == Progress(h, d)
  {
  }

  /** On a canonical log, a slot above every completed slot is simply appended. */
  lemma AppendAppends(h: Habit, date: Day, k: int, completedAt: string)
    requires CanonicalLog(h, date)
    requires forall x :: x in NormalizedSlots(h, date) ==> x < k
    ensures AppendSlotLog(h, date, k, completedAt).timedLogs[date] == RawLogs(h, date) + [SlotLog(k, completedAt)]
  {
    var raw := RawLogs(h, date);
    var slots := NormalizedSlots(h, date);
    var e := SlotLog(k, completedAt);
    NormalizedShape(h, date);
    forall i | 0 <= i < |raw| ensures IsSlotLog(raw[i]) { }
    FilterAll(raw, IsSlotLog);
    forall i | 0 <= i < |slots| ensures slots[i] < k {
      assert slots[i] in slots;
    }
    AppendAboveSorted(raw, slots, e);
    SortByIdentity(raw + [e], SlotOrder);
  }

  lemma AppendAboveSorted(raw: seq<LogEntry>, slots: seq<int>, e: LogEntry)
    requires SpellsSlots(raw, slots) && e.SlotLog?
    requires forall i, j :: 0 <= i < j < |slots| ==> slots[i] < slots[j]
    requires forall i :: 0 <= i < |slots| ==> slots[i] < e.slotIndex
    ensures SortedBy(raw + [e], SlotOrder)
  {
    var s := raw + [e];
    forall i, j | 0 <= i < j < |s| ensures !Below(SlotOrder(s[j]), SlotOrder(s[i])) {
      if j < |raw| {
        assert s[i] == raw[i] && s[j] == raw[j];
      } else {
        assert s[i] == raw[i];
      }
    }
  }

  /** A slot appended above every completed slot becomes the highest completed slot. */
  lemma AppendMakesHighest(h: Habit, date: Day, k: int, completedAt: string)
    requires 0 <= k <= MaxSlotIndex(h)
    requires CanonicalLog(h, date)
    requires forall x :: x in NormalizedSlots(h, date) ==> x < k
    ensures var l := AppendSlotLog(h, date, k, completedAt);
      NormalizedSlots(l, date) != [] && LastSlot(l, date) == k
  {
    var l := AppendSlotLog(h, date, k, completedAt);
    var n := NormalizedSlots(l, date);
    AppendRecordsSlot(h, date, k, completedAt);
    NormalizedShape(l, date);
    var y := n[|n| - 1];
    assert forall i :: 0 <= i < |RawLogs(h, date)| ==> !RawLogs(h, date)[i].LegacyLog?;
    AppendAddsSlot(h, date, k, completedAt, y);
    BelowLast(n, k);
  }

  /** Undoing slot `e.slotIndex` on a log of other object entries followed by `e` gives back that log. */
  lemma UndoLogAppended(raw: seq<LogEntry>, e: LogEntry)
    requires e.SlotLog?
    requires forall i :: 0 <= i < |raw| ==> KeptByUndo(raw[i], e.slotIndex)
    ensures UndoLog(raw + [e], e.slotIndex) == raw
  {
    var keep := (x: LogEntry) => KeptByUndo(x, e.slotIndex);
    FilterAppend(raw, [e], keep);
    assert Filter([e], keep) == [];
    FilterAll(raw, keep);
  }

  // ---------------------------------------------------------------------------
  // toggleSkipTimedDate

  /**
   * `toggleSkipTimedDate` on one habit: flips whether `date` is skipped.
   * Skipping sets `completions[date]`; unskipping sets it when the restored
   * goal is positive and met, and deletes it otherwise. Logs and the
   * progress counter are never touched.
   */
  function ToggleSkipTimedDate(h: Habit, date: Day): (r: Habit)
    ensures h.kind != Timed ==> r == h
    ensures h.kind == Timed ==>
      r == h.(skippedDates := r.skippedDates, completions := r.completions)
  {
    if h.kind != Timed then h
    else
      var willSkip := !Truthy(h.skippedDates, date);
      var skippedDates := if willSkip then h.skippedDates[date := true] else h.skippedDates - {date};
      var completions :=
        if willSkip then h.completions[date := true]
        else RecordCompletion(h.completions, date, Progress(h, date), Goal(h.(skippedDates := skippedDates), date));
      h.(skippedDates := skippedDates, completions := completions)
  }

  /**
   * A skip toggle flips whether `date` is skipped, never stores `false`,
   * sets `completions[date]` when it skips, and touches no other date.
   */
  lemma ToggleSkipFlips(h: Habit, date: Day)
    requires h.kind == Timed
    ensures var r := ToggleSkipTimedDate(h, date);
      && (Truthy(r.skippedDates, date) <==> !Truthy(h.skippedDates, date))
      && (date in r.skippedDates ==> r.skippedDates[date])
      && r.skippedDates - {date} == h.skippedDates - {date}
      && r.completions - {date} == h.completions - {date}
      && (Truthy(r.skippedDates, date) ==> Truthy(r.completions, date))
  {
  }

  /** A skip toggle leaves the log, the completed slots and the progress alone. */
  lemma ToggleSkipKeepsProgress(h: Habit, date: Day)
    ensures var r := ToggleSkipTimedDate(h, date);
      && r.kind == h.kind && HabitSchedule(r) == HabitSchedule(h) && RawLogs(r, date) == RawLogs(h, date)
      && NormalizedSlots(r, date) == NormalizedSlots(h, date) && Progress(r, date) == Progress(h, date)
  {
    var r := ToggleSkipTimedDate(h, date);
    assert r.kind == h.kind && r.intervalMinutes == h.intervalMinutes && r.startTime == h.startTime && r.endTime == h.endTime;
    assert r.timedLogs == h.timedLogs && r.timedProgress == h.timedProgress;
    assert HabitSchedule(r) == HabitSchedule(h);
    assert RawLogs(r, date) == RawLogs(h, date);
    assert LegacyProgress(r, date) == LegacyProgress(h, date);
  }

  /**
   * After a skip toggle `completions[date]` agrees with `isHabitDoneOnDate`:
   * set on a skipped date, and on an unskipped one exactly when the goal is
   * positive and met.
   */
  lemma ToggleSkipKeepsCache(h: Habit, date: Day)
    requires h.kind == Timed
    ensures var r := ToggleSkipTimedDate(h, date);
      && CacheConsistent(r, date)
      && (!Truthy(r.skippedDates, date) ==> (Truthy(r.completions, date) <==> Goal(r, date) > 0 && Progress(r, date) >= Goal(r, date)))
  {
    var r := ToggleSkipTimedDate(h, date);
    ToggleSkipKeepsProgress(h, date);
    if Truthy(h.skippedDates, date) {
      assert !Truthy(r.skippedDates, date);
      assert IsScheduled(r, date) == IsScheduled(h.(skippedDates := r.skippedDates), date);
    } else {
      assert Truthy(r.skippedDates, date);
      assert !IsScheduled(r, date);
    }
  }

  /** Toggling twice restores which dates are skipped, and the map itself when it held no `false` for `date`. */
  lemma ToggleSkipTwice(h: Habit, date: Day)
    ensures var r := ToggleSkipTimedDate(ToggleSkipTimedDate(h, date), date);
      && (forall x :: Truthy(r.skippedDates, x) == Truthy(h.skippedDates, x))
      && (date !in h.skippedDates || h.skippedDates[date] ==> r.skippedDates == h.skippedDates)
      && r.timedLogs == h.timedLogs && r.timedProgress == h.timedProgress
  {
    var r1 := ToggleSkipTimedDate(h, date);
    var r := ToggleSkipTimedDate(r1, date);
    if h.kind == Timed {
      ToggleSkipFlips(h, date);
      assert r1.kind == Timed && r1.timedLogs == h.timedLogs && r1.timedProgress == h.timedProgress;
      assert r.timedLogs == r1.timedLogs && r.timedProgress == r1.timedProgress;
      ToggleSkipFlips(r1, date);
      assert Truthy(r.skippedDates, date) == Truthy(h.skippedDates, date);
      if date !in h.skippedDates || h.skippedDates[date] {
        assert r.skippedDates - {date} == h.skippedDates - {date};
        assert date in r.skippedDates <==> date in h.skippedDates;
        assert r.skippedDates == h.skippedDates;
      }
    }
  }
}
