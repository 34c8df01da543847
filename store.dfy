/**
 * The habit list that `HabitProvider` in `src/state/HabitContext.jsx` keeps
 * and replaces on every change (`writeHabits`): adding, updating and
 * deleting records, and applying the per-habit updates of the engine to the
 * record whose id matches.
 */
module Store {
  import opened Wrappers
  import opened Lists
  import opened Text
  import opened Dates
  import opened Habits
  import opened Engine

  /** The per-habit update one of the id-addressed mutators applies. */
  datatype Change =
    | ToggleDone(date: Day)
    | LogSlot(date: Day, today: Day, nowMinutes: int, completedAt: string)
    | UndoSlot(date: Day)
    | ToggleSkip(date: Day)

  function Apply(c: Change, h: Habit): Habit {
    match c
    case ToggleDone(d) => ToggleCompletion(h, d)
    case LogSlot(d, today, now, at) => LogTimedCompletion(h, d, today, now, at)
    case UndoSlot(d) => UndoTimedCompletion(h, d)
    case ToggleSkip(d) => ToggleSkipTimedDate(h, d)
  }

  /** No update touches a habit's identity, its kind or its schedule settings. */
  lemma ApplyFrame(c: Change, h: Habit)
    ensures var r := Apply(c, h);
      && r.id == h.id && r.name == h.name && r.kind == h.kind
      && r.intervalMinutes == h.intervalMinutes && r.startTime == h.startTime && r.endTime == h.endTime
      && r.skipWeekdays == h.skipWeekdays && r.targetDate == h.targetDate
  {
    match c
    case ToggleDone(d) =>
    case LogSlot(d, today, now, at) =>
      var st := TimedLogState(h, d, today, now);
      if h.kind == Timed && st.canLogNow {
        AppendFrame(h, d, st.activeSlotIndex, at);
      }
    case UndoSlot(d) =>
    case ToggleSkip(d) =>
  }

  function Ids(hs: seq<Habit>): (ids: seq<string>)
    ensures |ids| == |hs|
  {
    seq(|hs|, i requires 0 <= i < |hs| => hs[i].id)
  }

  /** `habits.map(habit => habit.id === id ? change(habit) : habit)`. */
  function UpdateWhere(hs: seq<Habit>, id: string, c: Change): (r: seq<Habit>)
    ensures |r| == |hs|
  {
    seq(|hs|, i requires 0 <= i < |hs| => if hs[i].id == id then Apply(c, hs[i]) else hs[i])
  }

  /** Every record keeps its place and its id; only the records with the given id are updated. */
  lemma UpdateWhereAt(hs: seq<Habit>, id: string, c: Change)
    ensures var r := UpdateWhere(hs, id, c);
      && Ids(r) == Ids(hs)
      && (forall i :: 0 <= i < |hs| && hs[i].id != id ==> r[i] == hs[i])
      && (forall i :: 0 <= i < |hs| && hs[i].id == id ==> r[i] == Apply(c, hs[i]))
  {
    var r := UpdateWhere(hs, id, c);
    forall i | 0 <= i < |hs| ensures r[i].id == hs[i].id {
      ApplyFrame(c, hs[i]);
    }
  }

  /** With distinct ids at most one record changes. */
  lemma UpdateWhereChangesAtMostOne(hs: seq<Habit>, id: string, c: Change, i: int, j: int)
    requires Distinct(Ids(hs))
    requires 0 <= i < |hs| && 0 <= j < |hs|
    requires UpdateWhere(hs, id, c)[i] != hs[i] && UpdateWhere(hs, id, c)[j] != hs[j]
    ensures i == j
  {
    var ids := Ids(hs);
    assert ids[i] == hs[i].id && ids[j] == hs[j].id;
  }

  /** An id that no record has changes nothing. */
  lemma UpdateWhereMissing(hs: seq<Habit>, id: string, c: Change)
    requires id !in Ids(hs)
    ensures UpdateWhere(hs, id, c) == hs
  {
    forall i | 0 <= i < |hs| ensures hs[i].id != id {
      assert Ids(hs)[i] == hs[i].id;
    }
  }

  /** `habits.map(habit => habit.id === updated.id ? normalizeHabit(updated) : habit)`. */
  function ReplaceWhere(hs: seq<Habit>, updated: RawHabit): (r: seq<Habit>)
    ensures |r| == |hs|
  {
    seq(|hs|, i requires 0 <= i < |hs| => if updated.id == Some(hs[i].id) then NormalizeHabit(updated, hs[i].id) else hs[i])
  }

  /** Updating keeps every id in its place, replaces the matching records by the normalised update, and leaves the rest alone. */
  lemma ReplaceWhereAt(hs: seq<Habit>, updated: RawHabit)
    ensures var r := ReplaceWhere(hs, updated);
      && Ids(r) == Ids(hs)
      && (forall i :: 0 <= i < |hs| && updated.id != Some(hs[i].id) ==> r[i] == hs[i])
      && (forall i :: 0 <= i < |hs| && updated.id == Some(hs[i].id) ==> r[i] == NormalizeHabit(updated, hs[i].id) && IsNormalized(r[i]))
  {
  }

  /** An update without an id, or with one no record has, changes nothing. */
  lemma ReplaceWhereMissing(hs: seq<Habit>, updated: RawHabit)
    requires updated.id.None? || updated.id.value !in Ids(hs)
    ensures ReplaceWhere(hs, updated) == hs
  {
    forall i | 0 <= i < |hs| ensures updated.id != Some(hs[i].id) {
      assert Ids(hs)[i] == hs[i].id;
    }
  }

  function KeepOthers(id: string): Habit -> bool {
    (h: Habit) => h.id != id
  }

  /** `habits.filter(habit => habit.id !== id)`. */
  function DeleteWhere(hs: seq<Habit>, id: string): (r: seq<Habit>)
    ensures |r| <= |hs|
  {
    Filter(hs, KeepOthers(id))
  }

  /** Deleting removes every record with the id and keeps every other one. */
  lemma DeleteWhereMembers(hs: seq<Habit>, id: string, h: Habit)
    ensures var r := DeleteWhere(hs, id);
      && id !in Ids(r)
      && (h in r <==> h in hs && h.id != id)
  {
    var r := DeleteWhere(hs, id);
    FilterMembers(hs, KeepOthers(id));
    forall i | 0 <= i < |r| ensures Ids(r)[i] != id {
      assert KeepOthers(id)(r[i]);
    }
    if h in hs && h.id != id {
      var i :| 0 <= i < |hs| && hs[i] == h;
      assert KeepOthers(id)(hs[i]);
    }
    if h in r {
      var i :| 0 <= i < |r| && r[i] == h;
      assert KeepOthers(id)(r[i]);
    }
  }

  /** Deleting from a list with distinct ids leaves distinct ids. */
  lemma {:induction false} DeleteWhereDistinct(hs: seq<Habit>, id: string)
    requires Distinct(Ids(hs))
    ensures Distinct(Ids(DeleteWhere(hs, id)))
  {
    if hs != [] {
      var p := hs[..|hs| - 1];
      var x := hs[|hs| - 1];
      assert Ids(p) == Ids(hs)[..|hs| - 1];
      DeleteWhereDistinct(p, id);
      if x.id != id {
        var rp := DeleteWhere(p, id);
        FilterMembers(p, KeepOthers(id));
        forall i | 0 <= i < |rp| ensures rp[i].id != x.id {
          var j :| 0 <= j < |p| && p[j] == rp[i];
          assert Ids(hs)[j] == p[j].id;
          assert Ids(hs)[|hs| - 1] == x.id;
        }
        assert DeleteWhere(hs, id) == rp + [x];
        assert Ids(rp + [x]) == Ids(rp) + [x.id];
      }
    }
  }

  /** The id `addHabit` gives a new record: `h` followed by the clock's milliseconds. */
  function NewId(nowMillis: nat): (id: string)
    ensures |id| >= 2 && id[0] == 'h' && IsDecimal(id[1..])
  {
    "h" + DecimalString(nowMillis)
  }

  /** Ids made at different milliseconds differ. */
  lemma NewIdInjective(m: nat, n: nat)
    requires NewId(m) == NewId(n)
    ensures m == n
  {
    assert NewId(m)[1..] == DecimalString(m);
    assert NewId(n)[1..] == DecimalString(n);
    DecimalInjective(m, n);
  }

  /** The record `addHabit` appends: the form's fields under a fresh id, normalised. */
  function NewHabit(raw: RawHabit, nowMillis: nat): (h: Habit)
    ensures h.id == NewId(nowMillis) && IsNormalized(h)
  {
    NormalizeHabit(raw.(id := Some(NewId(nowMillis))), NewId(nowMillis))
  }

  /** Adding keeps ids distinct when the clock gives an id no record has. */
  lemma AddKeepsDistinct(hs: seq<Habit>, raw: RawHabit, nowMillis: nat)
    requires Distinct(Ids(hs)) && NewId(nowMillis) !in Ids(hs)
    ensures Distinct(Ids(hs + [NewHabit(raw, nowMillis)]))
  {
    var r := hs + [NewHabit(raw, nowMillis)];
    assert Ids(r) == Ids(hs) + [NewId(nowMillis)];
  }

  /** The habit list the provider holds. */
  class HabitStore {
    var habits: seq<Habit>

    /** An empty list, as after `clearSheet`. */
    constructor ()
      ensures habits == []
    {
      habits := [];
    }

    /** `addHabit`: appends the normalised record under the id the clock gives. */
    method AddHabit(raw: RawHabit, nowMillis: nat)
      modifies this
      ensures habits == old(habits) + [NewHabit(raw, nowMillis)]
    {
      habits := habits + [NewHabit(raw, nowMillis)];
    }

    /** `updateHabit`: replaces the records whose id matches by the normalised update. */
    method UpdateHabit(updated: RawHabit)
      modifies this
      ensures habits == ReplaceWhere(old(habits), updated)
    {
      habits := ReplaceWhere(habits, updated);
    }

    /** `deleteHabit`: drops the records with the id. */
    method DeleteHabit(id: string)
      modifies this
      ensures habits == DeleteWhere(old(habits), id)
    {
      habits := DeleteWhere(habits, id);
    }

    /** `toggleCompletion(habitId, date)`. */
    method ToggleCompletion(id: string, date: Day)
      modifies this
      ensures habits == UpdateWhere(old(habits), id, ToggleDone(date))
    {
      habits := UpdateWhere(habits, id, ToggleDone(date));
    }

    /** `logTimedCompletion(habitId, date)`, with the clock's date, minute and timestamp as parameters. */
    method LogTimedCompletion(id: string, date: Day, today: Day, nowMinutes: int, completedAt: string)
      modifies this
      ensures habits == UpdateWhere(old(habits), id, LogSlot(date, today, nowMinutes, completedAt))
    {
      habits := UpdateWhere(habits, id, LogSlot(date, today, nowMinutes, completedAt));
    }

    /** `undoTimedCompletion(habitId, date)`. */
    method UndoTimedCompletion(id: string, date: Day)
      modifies this
      ensures habits == UpdateWhere(old(habits), id, UndoSlot(date))
    {
      habits := UpdateWhere(habits, id, UndoSlot(date));
    }

    /** `toggleSkipTimedDate(habitId, date)`. */
    method ToggleSkipTimedDate(id: string, date: Day)
      modifies this
      ensures habits == UpdateWhere(old(habits), id, ToggleSkip(date))
    {
      habits := UpdateWhere(habits, id, ToggleSkip(date));
    }
  }
}
