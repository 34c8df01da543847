/**
 * The statistics of `src/pages/Dashboard.jsx`: how many habits are done
 * today, the best streak of any habit, the per-habit streak table sorted by
 * streak, and the status of every slot of the selected timed habit on the
 * selected date.
 */
module Dashboard {
  import opened Lists
  import opened Dates
  import opened Schedule
  import opened Habits
  import opened Streaks

  function DoneOn(d: Day): Habit -> bool {
    (h: Habit) => IsDone(h, d)
  }

  /** `habits.filter(habit => isHabitDoneOnDate(habit, today)).length`. */
  function CompletedOn(hs: seq<Habit>, d: Day): (n: nat)
    ensures n <= |hs|
  {
    |Filter(hs, DoneOn(d))|
  }

  /** The count reaches the total exactly when every habit is done, and is 0 exactly when none is. */
  lemma CompletedOnBounds(hs: seq<Habit>, d: Day)
    ensures CompletedOn(hs, d) == |hs| <==> forall i :: 0 <= i < |hs| ==> IsDone(hs[i], d)
    ensures CompletedOn(hs, d) == 0 <==> forall i :: 0 <= i < |hs| ==> !IsDone(hs[i], d)
  {
    FilterLength(hs, DoneOn(d));
    assert forall i :: 0 <= i < |hs| ==> (DoneOn(d)(hs[i]) <==> IsDone(hs[i], d));
  }

  /** `xs.reduce((max, x) => Math.max(max, x), 0)`. */
  function MaxOf(xs: seq<nat>): nat {
    if xs == [] then 0
    else
      var best := MaxOf(xs[..|xs| - 1]);
      if xs[|xs| - 1] > best then xs[|xs| - 1] else best
  }

  /** The reduction is an upper bound of every element and is one of them (0 when there are none). */
  lemma {:induction false} MaxOfIsMax(xs: seq<nat>)
    ensures forall i :: 0 <= i < |xs| ==> xs[i] <= MaxOf(xs)
    ensures xs == [] ==> MaxOf(xs) == 0
    ensures xs != [] ==> exists i :: 0 <= i < |xs| && MaxOf(xs) == xs[i]
  {
    if xs != [] {
      var p := xs[..|xs| - 1];
      MaxOfIsMax(p);
      assert forall i :: 0 <= i < |p| ==> xs[i] == p[i];
    }
  }

  /** Every habit's longest streak, in habit order. */
  function Longests(hs: seq<Habit>): (r: seq<nat>)
    ensures |r| == |hs|
  {
    seq(|hs|, i requires 0 <= i < |hs| => LongestOf(hs[i].completions))
  }

  /** `habits.reduce((max, habit) => Math.max(max, getLongestStreak(habit.completions)), 0)`. */
  function BestStreak(hs: seq<Habit>): nat {
    MaxOf(Longests(hs))
  }

  /** The best streak is every habit's longest streak or more, and it is one of them (0 when there are none). */
  lemma BestStreakIsMax(hs: seq<Habit>)
    ensures forall i :: 0 <= i < |hs| ==> LongestOf(hs[i].completions) <= BestStreak(hs)
    ensures hs == [] ==> BestStreak(hs) == 0
    ensures hs != [] ==> exists i :: 0 <= i < |hs| && BestStreak(hs) == LongestOf(hs[i].completions)
  {
    var xs := Longests(hs);
    MaxOfIsMax(xs);
    forall i | 0 <= i < |hs|
      ensures LongestOf(hs[i].completions) <= BestStreak(hs)
    {
      assert xs[i] <= MaxOf(xs);
    }
    if hs != [] {
      var i :| 0 <= i < |xs| && MaxOf(xs) == xs[i];
      assert BestStreak(hs) == LongestOf(hs[i].completions);
    }
  }

  /** One row of `habitStreaks`. */
  datatype StreakRow = StreakRow(id: string, name: string, color: string, longest: nat, current: nat)

  /** `habits.map(habit => ({ id, name, color, longest, current }))`, before sorting. */
  function StreakRowsOf(hs: seq<Habit>, today: Day): (rows: seq<StreakRow>)
    ensures |rows| == |hs|
  {
    seq(|hs|, i requires 0 <= i < |hs| =>
      StreakRow(hs[i].id, hs[i].name, hs[i].color, LongestOf(hs[i].completions), CurrentOf(hs[i].completions, today)))
  }

  /** The comparator `b.longest - a.longest || b.current - a.current` as an ascending key. */
  function StreakKey(r: StreakRow): Rank {
    Rank(-(r.longest as int), -(r.current as int))
  }

  /** `habitStreaks`: the rows sorted (stably) by longest streak, then current streak, both descending. */
  function HabitStreaks(hs: seq<Habit>, today: Day): (rows: seq<StreakRow>)
    ensures |rows| == |hs|
  {
    SortBy(StreakRowsOf(hs, today), StreakKey)
  }

  /** The table lists every habit once, ordered by longest streak descending and, on a tie, by current streak descending. */
  lemma HabitStreaksOrdered(hs: seq<Habit>, today: Day)
    ensures var rows := HabitStreaks(hs, today);
      && multiset(rows) == multiset(StreakRowsOf(hs, today))
      && forall i, j :: 0 <= i < j < |rows| ==>
           rows[i].longest > rows[j].longest || (rows[i].longest == rows[j].longest && rows[i].current >= rows[j].current)
  {
    var rows := HabitStreaks(hs, today);
    SortByPerm(StreakRowsOf(hs, today), StreakKey);
    SortBySorted(StreakRowsOf(hs, today), StreakKey);
    forall i, j | 0 <= i < j < |rows|
      ensures rows[i].longest > rows[j].longest || (rows[i].longest == rows[j].longest && rows[i].current >= rows[j].current)
    {
      assert !Below(StreakKey(rows[j]), StreakKey(rows[i]));
    }
  }

  /** Every row carries the streaks of the habit it names. */
  lemma StreakRowsAre(hs: seq<Habit>, today: Day, r: StreakRow)
    requires r in HabitStreaks(hs, today)
    ensures exists i :: 0 <= i < |hs| && r.id == hs[i].id &&
              r.longest == LongestOf(hs[i].completions) && r.current == CurrentOf(hs[i].completions, today)
  {
    SortByPerm(StreakRowsOf(hs, today), StreakKey);
    assert r in multiset(StreakRowsOf(hs, today));
    var i :| 0 <= i < |hs| && StreakRowsOf(hs, today)[i] == r;
  }

  /** `highestStreakHabit = habitStreaks[0]` holds the best streak of all habits. */
  lemma HighestStreakHabit(hs: seq<Habit>, today: Day)
    requires hs != []
    ensures HabitStreaks(hs, today)[0].longest == BestStreak(hs)
  {
    var rows := HabitStreaks(hs, today);
    var unsorted := StreakRowsOf(hs, today);
    HabitStreaksOrdered(hs, today);
    BestStreakIsMax(hs);
    StreakRowsAre(hs, today, rows[0]);
    var k :| 0 <= k < |hs| && BestStreak(hs) == LongestOf(hs[k].completions);
    assert unsorted[k] in multiset(rows);
    var j :| 0 <= j < |rows| && rows[j] == unsorted[k];
    assert rows[0].longest >= rows[j].longest;
  }

  // ---------------------------------------------------------------------------
  // Slot statuses of the selected timed habit

  /** `skippedDates[date] || skipWeekdays.includes(weekday)`. */
  predicate SkippedOn(h: Habit, d: Day) {
    Truthy(h.skippedDates, d) || Weekday(d) in h.skipWeekdays
  }

  /** A date the habit skips is never a scheduled date. */
  lemma SkippedOnIsUnscheduled(h: Habit, d: Day)
    ensures SkippedOn(h, d) ==> !IsScheduled(h, d)
    ensures h.kind == Timed && (h.targetDate.None? || h.targetDate.value == d) ==> (IsScheduled(h, d) <==> !SkippedOn(h, d))
  {
  }

  datatype SlotStatus = Skipped | Done | Missed | Upcoming

  /**
   * The status of slot `index` starting at minute `minute`: skipped for
   * every slot of a skipped date, else done when logged, else missed once
   * the date is past or, today, once the slot has ended, else upcoming.
   */
  function SlotStatusOf(skipped: bool, completed: seq<int>, date: Day, today: Day, nowMinutes: int, minute: int, index: int, interval: int): SlotStatus {
    if skipped then Skipped
    else if index in completed then Done
    else if date < today || (date == today && nowMinutes >= minute + interval) then Missed
    else Upcoming
  }

  /** `timedSlots`: one status per slot of the schedule, in schedule order. */
  function SlotStatuses(h: Habit, date: Day, today: Day, nowMinutes: int): (r: seq<SlotStatus>)
    ensures |r| == |HabitSchedule(h)|
  {
    var schedule := HabitSchedule(h);
    var completed := NormalizedSlots(h, date);
    seq(|schedule|, i requires 0 <= i < |schedule| =>
      SlotStatusOf(SkippedOn(h, date), completed, date, today, nowMinutes, schedule[i], i, h.intervalMinutes))
  }

  /** A skipped date shows every slot skipped and an unskipped one none; every logged slot of an unskipped date shows done. */
  lemma SlotStatusesSkipAndDone(h: Habit, date: Day, today: Day, nowMinutes: int)
    ensures var r := SlotStatuses(h, date, today, nowMinutes);
      && (forall i :: 0 <= i < |r| ==> (r[i] == Skipped <==> SkippedOn(h, date)))
      && (forall i :: 0 <= i < |r| ==> (r[i] == Done <==> !SkippedOn(h, date) && i in NormalizedSlots(h, date)))
      && (!SkippedOn(h, date) && |r| > 0 ==>
            forall x :: x in NormalizedSlots(h, date) ==> 0 <= x < |r| && r[x] == Done)
  {
    NormalizedShape(h, date);
  }

  /** A past date has nothing upcoming and a future date nothing missed. */
  lemma SlotStatusesPastFuture(h: Habit, date: Day, today: Day, nowMinutes: int)
    ensures var r := SlotStatuses(h, date, today, nowMinutes);
      && (date < today ==> forall i :: 0 <= i < |r| ==> r[i] != Upcoming)
      && (date > today ==> forall i :: 0 <= i < |r| ==> r[i] != Missed)
  {
  }

  /** Today, a slot is missed exactly when it has ended unlogged, so no upcoming slot comes before a missed one. */
  lemma SlotStatusesToday(h: Habit, today: Day, nowMinutes: int, i: int, j: int)
    requires 0 <= i < j < |HabitSchedule(h)|
    requires SlotStatuses(h, today, today, nowMinutes)[i] == Upcoming
    ensures SlotStatuses(h, today, today, nowMinutes)[j] != Missed
  {
    var s := HabitSchedule(h);
    ScheduleShape(h.intervalMinutes, h.startTime, h.endTime);
    StepsIncrease(s, h.intervalMinutes, i, j);
  }

  /** The slot that may be logged now shows as upcoming. */
  lemma OpenSlotIsUpcoming(h: Habit, today: Day, nowMinutes: int)
    requires TimedLogState(h, today, today, nowMinutes).canLogNow
    ensures var k := TimedLogState(h, today, today, nowMinutes).activeSlotIndex;
      0 <= k < |HabitSchedule(h)| && SlotStatuses(h, today, today, nowMinutes)[k] == Upcoming
  {
    var st := TimedLogState(h, today, today, nowMinutes);
    TimedLogStateReasons(h, today, today, nowMinutes, st);
  }
}
