/**
 * The per-habit card of `src/components/HabitList.jsx`: the status label,
 * whether the log and undo buttons are enabled, and the preview of the
 * first slots. The card's streak figures come from the same
 * `getLongestStreak` / `getCurrentStreak` as the dashboard (module Streaks).
 */
module HabitList {
  import opened Dates
  import opened Schedule
  import opened Habits
  import opened Engine
  import opened Dashboard

  /** `isSkippedToday`: the same test as the dashboard's skip test, for today. */
  predicate SkippedToday(h: Habit, today: Day) {
    SkippedOn(h, today)
  }

  datatype StatusLabel =
    | SkippedLabel
    | AllSlotsComplete
    | CurrentSlotOpen
    | WaitingForSlot
    | NotScheduledToday
    | CompletedToday
    | Pending

  /** The text shown for each label. */
  function LabelText(l: StatusLabel): string {
    match l
    case SkippedLabel => "Skipped today"
    case AllSlotsComplete => "All slots complete"
    case CurrentSlotOpen => "Current slot open"
    case WaitingForSlot => "Waiting for slot"
    case NotScheduledToday => "Not scheduled today"
    case CompletedToday => "Completed today"
    case Pending => "Pending"
  }

  /** The label of a habit's card, tried in the order the card's conditional expression tries them. */
  function StatusLabelOf(h: Habit, today: Day, nowMinutes: int): StatusLabel {
    if h.kind == Timed then
      if SkippedToday(h, today) then SkippedLabel
      else if IsDone(h, today) then AllSlotsComplete
      else if IsScheduled(h, today) then
        if TimedLogState(h, today, today, nowMinutes).canLogNow then CurrentSlotOpen else WaitingForSlot
      else NotScheduledToday
    else if IsDone(h, today) then CompletedToday
    else Pending
  }

  /**
   * What each label means: a timed habit shows "All slots complete" only
   * when every slot of a scheduled day is logged, "Current slot open"
   * exactly when a completion may be logged now, and "Not scheduled today"
   * only for a one-off habit on another date; a standard habit shows
   * "Completed today" exactly when today is ticked.
   */
  lemma StatusLabelMeaning(h: Habit, today: Day, nowMinutes: int)
    ensures var l := StatusLabelOf(h, today, nowMinutes);
      var canLog := TimedLogState(h, today, today, nowMinutes).canLogNow;
      && (l == SkippedLabel <==> h.kind == Timed && SkippedToday(h, today))
      && (l == AllSlotsComplete ==>
            IsScheduled(h, today) && Goal(h, today) > 0 && Progress(h, today) >= Goal(h, today))
      && (l == CurrentSlotOpen <==> h.kind == Timed && canLog && !IsDone(h, today))
      && (l == WaitingForSlot <==> h.kind == Timed && IsScheduled(h, today) && !canLog && !IsDone(h, today))
      && (l == NotScheduledToday <==>
            h.kind == Timed && !SkippedToday(h, today) && h.targetDate.Some? && h.targetDate.value != today)
      && (l == CompletedToday <==> h.kind == Standard && Truthy(h.completions, today))
      && (l == Pending <==> h.kind == Standard && !Truthy(h.completions, today))
  {
    var st := TimedLogState(h, today, today, nowMinutes);
    TimedLogStateReasons(h, today, today, nowMinutes, st);
    SkippedOnIsUnscheduled(h, today);
  }

  /** `disabled={!logState.canLogNow || isSkippedToday}`, negated. */
  predicate LogEnabled(h: Habit, today: Day, nowMinutes: int) {
    TimedLogState(h, today, today, nowMinutes).canLogNow && !SkippedToday(h, today)
  }

  /**
   * The skip test on the log button is redundant: the button is enabled
   * exactly when a completion may be logged now. Pressing it then records
   * the open slot; while it is disabled, logging would change nothing.
   */
  lemma LogEnabledRule(h: Habit, today: Day, nowMinutes: int, completedAt: string)
    requires h.kind == Timed
    ensures LogEnabled(h, today, nowMinutes) <==> TimedLogState(h, today, today, nowMinutes).canLogNow
    ensures LogEnabled(h, today, nowMinutes) ==>
      var r := LogTimedCompletion(h, today, today, nowMinutes, completedAt);
      && TimedLogState(h, today, today, nowMinutes).activeSlotIndex in NormalizedSlots(r, today)
      && TimedLogState(r, today, today, nowMinutes).reason == AlreadyLogged
    ensures !LogEnabled(h, today, nowMinutes) ==> LogTimedCompletion(h, today, today, nowMinutes, completedAt) == h
  {
    var st := TimedLogState(h, today, today, nowMinutes);
    TimedLogStateReasons(h, today, today, nowMinutes, st);
    SkippedOnIsUnscheduled(h, today);
    if st.canLogNow {
      LogRecordsOpenSlot(h, today, today, nowMinutes, completedAt);
    }
  }

  /** `disabled={timedProgress === 0}`, negated. */
  predicate UndoEnabled(h: Habit, today: Day) {
    Progress(h, today) != 0
  }

  /**
   * A disabled undo button guards an undo that would change nothing. The
   * converse fails: a day counted only by the legacy counter enables the
   * button, and undo then leaves the habit as it was.
   */
  lemma UndoEnabledRule(h: Habit, today: Day)
    ensures !UndoEnabled(h, today) ==> UndoTimedCompletion(h, today) == h
    ensures NormalizedSlots(h, today) == [] && LegacyProgress(h, today) > 0 ==>
      UndoEnabled(h, today) && UndoTimedCompletion(h, today) == h
    ensures UndoEnabled(h, today) <==> Progress(h, today) > 0
  {
  }

  /** `scheduleMinutes.slice(0, 3)`: the slots shown on the card, before formatting. */
  function PreviewSlots(schedule: seq<int>): (r: seq<int>)
    ensures |r| <= 3
  {
    if |schedule| <= 3 then schedule else schedule[..3]
  }

  /** On evenly spaced slots, slot `i` starts `i` intervals after the first. */
  lemma {:induction false} StepsValue(s: seq<int>, interval: int, i: int)
    requires Steps(s, interval) && 0 <= i < |s|
    ensures s[i] == s[0] + i * interval
  {
    if i > 0 {
      StepsValue(s, interval, i - 1);
    }
  }

  /** The preview is the first three slots (all of them when there are fewer), each `interval` after the one before. */
  lemma PreviewSlotsAre(h: Habit)
    ensures var s := HabitSchedule(h);
      var r := PreviewSlots(s);
      && |r| == (if |s| < 3 then |s| else 3)
      && (forall i :: 0 <= i < |r| ==> r[i] == s[i])
      && (ValidWindow(h.intervalMinutes, h.startTime, h.endTime) ==>
            forall i :: 0 <= i < |r| ==> r[i] == ParseTimeToMinutes(h.startTime).value + i * h.intervalMinutes)
  {
    var s := HabitSchedule(h);
    ScheduleShape(h.intervalMinutes, h.startTime, h.endTime);
    if ValidWindow(h.intervalMinutes, h.startTime, h.endTime) {
      forall i | 0 <= i < |s| ensures s[i] == s[0] + i * h.intervalMinutes {
        StepsValue(s, h.intervalMinutes, i);
      }
    }
  }
}
