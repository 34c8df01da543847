/**
 * The add / edit form of `src/components/HabitForm.jsx`: the form state and
 * its updaters (the interval coercion, the weekday toggle, the suggestion
 * fill), and the validation on submit that decides whether the form becomes
 * a new habit, an update of the habit being edited, or nothing.
 */
module HabitForm {
  import opened Wrappers
  import opened Lists
  import opened Text
  import opened Schedule
  import opened Habits
  import opened Store

  datatype Form = Form(
    name: string,
    description: string,
    kind: Kind,
    frequency: string,
    intervalMinutes: int,
    startTime: string,
    endTime: string,
    skipWeekdays: seq<int>,
    color: string)

  /** `emptyForm`. */
  const EmptyForm := Form("", "", Standard, "Daily", 30, "09:00", "21:00", [], "#59a7ff")

  /** The form filled from the habit being edited, or the empty form when none is. */
  function FormFor(editing: Option<Habit>): Form {
    match editing
    case None => EmptyForm
    case Some(h) =>
      Form(h.name, h.description, h.kind, h.frequency, h.intervalMinutes, h.startTime, h.endTime, h.skipWeekdays, h.color)
  }

  // ---------------------------------------------------------------------------
  // The interval field

  /**
   * `Number(value) || 1` for the interval input: `None` stands for an input
   * that is not a number.
   */
  function CoerceInterval(value: Option<int>): (m: int)
    ensures m != 0
  {
    if value.None? || value.value == 0 then 1 else value.value
  }

  /** The coerced interval survives `normalizeHabit` when positive; a negative one becomes the default 30. */
  lemma CoercedIntervalNormalized(value: Option<int>)
    ensures var m := CoerceInterval(value);
      && (value.None? || value.value == 0 ==> NormalizedInterval(Some(m), None) == 1)
      && (value.Some? && value.value >= 1 ==> NormalizedInterval(Some(m), None) == value.value)
      && (value.Some? && value.value < 0 ==> NormalizedInterval(Some(m), None) == 30)
  {
  }

  // ---------------------------------------------------------------------------
  // The skip-weekday toggle

  function Without(day: int): int -> bool {
    (v: int) => v != day
  }

  /** `handleSkipWeekdayChange`: a present day is filtered out, an absent one appended and the list sorted ascending. */
  function ToggleWeekday(ws: seq<int>, day: int): (r: seq<int>)
    ensures day in ws ==> |r| <= |ws|
    ensures day !in ws ==> |r| == |ws| + 1
  {
    if day in ws then Filter(ws, Without(day)) else SortBy(ws + [day], Ascending)
  }

  /** Removing: the day is gone and every other day stays. */
  lemma ToggleWeekdayPresent(ws: seq<int>, day: int)
    requires day in ws
    ensures forall v :: v in ToggleWeekday(ws, day) <==> v in ws && v != day
  {
    FilterMembers(ws, Without(day));
    forall v | v in ws && v != day ensures v in ToggleWeekday(ws, day) {
      var i :| 0 <= i < |ws| && ws[i] == v;
      assert Without(day)(ws[i]);
    }
    forall v | v in ToggleWeekday(ws, day) ensures v in ws && v != day {
      var r := ToggleWeekday(ws, day);
      var i :| 0 <= i < |r| && r[i] == v;
      assert Without(day)(r[i]);
    }
  }

  /** Adding: the day joins the others, the list comes out sorted, and a list without repeats stays without. */
  lemma ToggleWeekdayAbsent(ws: seq<int>, day: int)
    requires day !in ws
    ensures multiset(ToggleWeekday(ws, day)) == multiset(ws) + multiset{day}
    ensures SortedBy(ToggleWeekday(ws, day), Ascending)
    ensures Distinct(ws) ==> forall i, j :: 0 <= i < j < |ToggleWeekday(ws, day)| ==> ToggleWeekday(ws, day)[i] < ToggleWeekday(ws, day)[j]
  {
    var r := ToggleWeekday(ws, day);
    SortByPerm(ws + [day], Ascending);
    SortBySorted(ws + [day], Ascending);
    if Distinct(ws) {
      assert Distinct(ws + [day]);
      SortByDistinct(ws + [day], Ascending);
      AscendingStrict(r);
    }
  }

  /** Toggling the same day twice gives back the same set of days. */
  lemma ToggleWeekdayTwice(ws: seq<int>, day: int)
    ensures forall v :: v in ToggleWeekday(ToggleWeekday(ws, day), day) <==> v in ws
  {
    var r1 := ToggleWeekday(ws, day);
    if day in ws {
      ToggleWeekdayPresent(ws, day);
      assert day !in r1;
      ToggleWeekdayAbsent(r1, day);
      forall v ensures v in ToggleWeekday(r1, day) <==> v in ws {
        assert v in ToggleWeekday(r1, day) <==> v in multiset(ToggleWeekday(r1, day));
      }
    } else {
      ToggleWeekdayAbsent(ws, day);
      assert day in multiset(r1);
      ToggleWeekdayPresent(r1, day);
      forall v ensures v in ToggleWeekday(r1, day) <==> v in ws {
        assert v in r1 <==> v in multiset(r1);
      }
    }
  }

  // ---------------------------------------------------------------------------
  // The suggestion fill

  datatype Suggestion = Suggestion(name: string, description: string, frequency: string)

  /** `habitSuggestions`. */
  const Suggestions: seq<Suggestion> := [
    Suggestion("Morning walk", "20-minute light walk", "Daily"),
    Suggestion("Medication check", "Take medicines on time", "Daily"),
    Suggestion("Breathing exercise", "10 minutes of deep breathing", "Daily"),
    Suggestion("Meal planning", "Plan meals for next day", "Daily"),
    Suggestion("Kitchen reset", "Clean kitchen before bed", "Daily"),
    Suggestion("Budget tracking", "Log household expenses", "Weekdays"),
    Suggestion("Focused study", "45-minute distraction-free study block", "Daily"),
    Suggestion("Revision notes", "Review class notes for 15 minutes", "Weekdays"),
    Suggestion("Practice problems", "Solve 10 questions", "3x per week"),
    Suggestion("Top 3 priorities", "List and finish top tasks for the day", "Weekdays"),
    Suggestion("Inbox zero sprint", "15-minute email cleanup", "Weekdays"),
    Suggestion("Stand and stretch", "Short break every 2 hours", "Daily")
  ]

  predicate NameMatches(s: Suggestion, value: string) {
    LowerAscii(s.name) == LowerAscii(value)
  }

  /** `suggestions.find(...)`: the first suggestion whose name equals `value` ignoring case. */
  function FindSuggestion(ss: seq<Suggestion>, value: string): (r: Option<Suggestion>)
    ensures r.Some? ==> r.value in ss && NameMatches(r.value, value)
  {
    if ss == [] then None
    else if NameMatches(ss[0], value) then Some(ss[0])
    else FindSuggestion(ss[1..], value)
  }

  /** Nothing is found exactly when no suggestion matches, and what is found comes before every other match. */
  lemma {:induction false} FindSuggestionFirst(ss: seq<Suggestion>, value: string)
    ensures FindSuggestion(ss, value).None? <==> forall i :: 0 <= i < |ss| ==> !NameMatches(ss[i], value)
    ensures FindSuggestion(ss, value).Some? ==>
      exists i :: 0 <= i < |ss| && ss[i] == FindSuggestion(ss, value).value &&
        forall j :: 0 <= j < i ==> !NameMatches(ss[j], value)
  {
    if ss != [] && !NameMatches(ss[0], value) {
      FindSuggestionFirst(ss[1..], value);
      forall j | 1 <= j < |ss| ensures ss[j] == ss[1..][j - 1] {
      }
      if FindSuggestion(ss, value).Some? {
        var i :| 0 <= i < |ss[1..]| && ss[1..][i] == FindSuggestion(ss, value).value &&
          forall j :: 0 <= j < i ==> !NameMatches(ss[1..][j], value);
        assert ss[i + 1] == ss[1..][i];
      }
    }
  }

  /** Suggestion `i` is the first whose name matches `value`. */
  predicate FirstMatch(i: int, value: string) {
    && 0 <= i < |Suggestions|
    && NameMatches(Suggestions[i], value)
    && forall j :: 0 <= j < i ==> !NameMatches(Suggestions[j], value)
  }

  /** `handleNameChange`: the name as typed; a matching suggestion's description and frequency, else the old ones. */
  function NameChanged(f: Form, value: string): (g: Form)
    ensures g.name == value
  {
    var m := FindSuggestion(Suggestions, value);
    f.(name := value,
       description := if m.Some? then m.value.description else f.description,
       frequency := if m.Some? then m.value.frequency else f.frequency)
  }

  /** Typing a suggestion's name in any letter case fills its description and frequency; any other name keeps them. */
  lemma NameChangeFills(f: Form, value: string)
    ensures var g := NameChanged(f, value);
      && g == f.(name := value, description := g.description, frequency := g.frequency)
      && ((forall i :: 0 <= i < |Suggestions| ==> !NameMatches(Suggestions[i], value)) ==>
            g.description == f.description && g.frequency == f.frequency)
      && (forall i :: FirstMatch(i, value) ==>
            g.description == Suggestions[i].description && g.frequency == Suggestions[i].frequency)
  {
    FindSuggestionFirst(Suggestions, value);
    var m := FindSuggestion(Suggestions, value);
    if m.Some? {
      var k :| 0 <= k < |Suggestions| && Suggestions[k] == m.value &&
        forall j :: 0 <= j < k ==> !NameMatches(Suggestions[j], value);
      forall i | FirstMatch(i, value)
        ensures i == k
      {
      }
    }
  }

  /** Typing "morning WALK" fills in the first suggestion. */
  lemma NameChangeExample()
    ensures NameChanged(EmptyForm, "morning WALK").description == "20-minute light walk"
    ensures NameChanged(EmptyForm, "morning WALK").frequency == "Daily"
  {
    assert LowerAscii("morning WALK") == "morning walk";
    assert LowerAscii(Suggestions[0].name) == "morning walk";
  }

  // ---------------------------------------------------------------------------
  // Submit

  /**
   * The form's own reading of a time, `hours * 60 + minutes` over the first
   * two `:`-separated fields: both must be decimal numbers, but unlike
   * `parseTimeToMinutes` neither is checked against 23 or 59.
   */
  function FormMinutes(t: string): Option<int> {
    match ClockFields(t)
    case None => None
    case Some((hs, ms)) =>
      if !IsDecimal(hs) || !IsDecimal(ms) then None
      else Some(DecimalValue(hs) * 60 + DecimalValue(ms))
  }

  /** On every clock time `parseTimeToMinutes` accepts, the form reads the same minutes. */
  lemma FormMinutesAgrees(t: string)
    ensures ParseTimeToMinutes(t).Some? ==> FormMinutes(t) == ParseTimeToMinutes(t)
    ensures FormMinutes(t).None? ==> ParseTimeToMinutes(t).None?
  {
  }

  /** The time check for timed habits: both times read as numbers and the end is after the start. */
  predicate TimesValid(f: Form) {
    && FormMinutes(f.startTime).Some?
    && FormMinutes(f.endTime).Some?
    && FormMinutes(f.startTime).value < FormMinutes(f.endTime).value
  }

  datatype SubmitAction = Rejected | AddRaw(raw: RawHabit) | UpdateRaw(raw: RawHabit)

  /** The record `addHabit(form)` receives. */
  function FormRaw(f: Form): RawHabit {
    RawHabit(None, Some(f.name), Some(f.description), Some(f.frequency), Some(f.color), None,
      Some(f.kind), None, Some(f.intervalMinutes), None, Some(f.startTime), Some(f.endTime),
      Some(f.skipWeekdays), None, None, None)
  }

  /** `{ ...editingHabit, ...form }`: the edited habit with the form's fields on top. */
  function MergedRaw(h: Habit, f: Form): RawHabit {
    AsRaw(h).(name := Some(f.name), description := Some(f.description), frequency := Some(f.frequency),
      color := Some(f.color), kind := Some(f.kind), intervalMinutes := Some(f.intervalMinutes),
      startTime := Some(f.startTime), endTime := Some(f.endTime), skipWeekdays := Some(f.skipWeekdays))
  }

  /** `handleSubmit`: a blank name, or a timed habit with a bad window, is refused; otherwise add or update. */
  function SubmitOf(f: Form, editing: Option<Habit>): SubmitAction {
    if Trim(f.name) == [] then Rejected
    else if f.kind == Timed && !TimesValid(f) then Rejected
    else if editing.Some? then UpdateRaw(MergedRaw(editing.value, f))
    else AddRaw(FormRaw(f))
  }

  /** A submission is refused exactly when the name is blank or, for a timed habit, the window is not a valid one. */
  lemma SubmitRule(f: Form, editing: Option<Habit>)
    ensures SubmitOf(f, editing).Rejected? <==>
      (forall i :: 0 <= i < |f.name| ==> IsWhitespace(f.name[i])) || (f.kind == Timed && !TimesValid(f))
  {
    TrimResult(f.name);
  }

  /**
   * An accepted timed form with a positive interval and times within the
   * day becomes a habit with at least one slot, the first at the start time.
   */
  lemma SubmittedTimedHasSlots(f: Form, nowMillis: nat)
    requires SubmitOf(f, None).AddRaw? && f.kind == Timed && f.intervalMinutes >= 1
    requires ParseTimeToMinutes(f.startTime).Some? && ParseTimeToMinutes(f.endTime).Some?
    ensures var h := NewHabit(SubmitOf(f, None).raw, nowMillis);
      h.kind == Timed && HabitSchedule(h) != [] && HabitSchedule(h)[0] == FormMinutes(f.startTime).value
  {
    var h := NewHabit(SubmitOf(f, None).raw, nowMillis);
    FormMinutesAgrees(f.startTime);
    FormMinutesAgrees(f.endTime);
    assert h.intervalMinutes == f.intervalMinutes && h.startTime == f.startTime && h.endTime == f.endTime;
    ScheduleShape(h.intervalMinutes, h.startTime, h.endTime);
  }

  /** `h:m` with decimal fields splits back into `h` and `m`. */
  lemma ClockFieldsOfJoin(h: string, m: string)
    requires IsDecimal(h) && IsDecimal(m)
    ensures ClockFields(h + ":" + m) == Some((h, m))
  {
    var t := h + ":" + m;
    NoColonInDecimal(h);
    NoColonInDecimal(m);
    UpToPrefix(h, ":" + m, ':');
    assert t == h + (":" + m);
    assert t[|h| + 1..] == m + [];
    UpToPrefix(m, [], ':');
  }

  /** A record whose start time is not a clock time gets no slots. */
  lemma NoSlotsWithoutStart(raw: RawHabit, nowMillis: nat)
    requires raw.startTime.Some? && ParseTimeToMinutes(raw.startTime.value).None?
    ensures HabitSchedule(NewHabit(raw, nowMillis)) == []
  {
    var h := NewHabit(raw, nowMillis);
    assert h.startTime == raw.startTime.value;
    ScheduleShape(h.intervalMinutes, h.startTime, h.endTime);
  }

  /** The form reads `h:m` as `h * 60 + m`; an hour past 23 is no clock time. */
  lemma JoinMinutes(h: string, m: string)
    requires IsDecimal(h) && IsDecimal(m)
    ensures FormMinutes(h + ":" + m) == Some(DecimalValue(h) * 60 + DecimalValue(m))
    ensures DecimalValue(h) > 23 ==> ParseTimeToMinutes(h + ":" + m).None?
  {
    var t := h + ":" + m;
    ClockFieldsOfJoin(h, m);
    var fields := ClockFields(t);
    assert fields.Some? && fields.value.0 == h && fields.value.1 == m;
  }

  /** A time `hh:00` whose hour field reads `v` is `60 * v` minutes on the form. */
  lemma HourTime(hh: string, v: nat)
    requires |hh| == 2 && IsDigit(hh[0]) && IsDigit(hh[1])
    requires 10 * DigitValue(hh[0]) + DigitValue(hh[1]) == v
    ensures FormMinutes(hh + ":00") == Some(v * 60)
    ensures v > 23 ==> ParseTimeToMinutes(hh + ":00").None?
  {
    var zeros := "00";
    assert IsDigit(zeros[0]) && IsDigit(zeros[1]);
    assert DecimalValue(zeros[..1]) == 0;
    assert DecimalValue(zeros) == 0;
    assert DecimalValue(hh[..1]) == DigitValue(hh[0]);
    assert DecimalValue(hh) == v;
    JoinMinutes(hh, zeros);
    assert hh + ":" + zeros == hh + ":00";
  }

  /** The times "25:00" and "26:00" read as 1500 and 1560 minutes on the form, and "25:00" is no clock time. */
  lemma PastDayTimes()
    ensures FormMinutes("25:00") == Some(1500) && FormMinutes("26:00") == Some(1560)
    ensures ParseTimeToMinutes("25:00").None?
  {
    HourTime("25", 25);
    HourTime("26", 26);
    assert "25" + ":00" == "25:00" && "26" + ":00" == "26:00";
  }

  /**
   * The form's check lets through times past the end of the day: a timed
   * habit from "25:00" to "26:00" is accepted and added with no slot at all.
   */
  lemma SubmitAcceptsHourPastDay(nowMillis: nat)
    ensures var f := EmptyForm.(name := "Walk", kind := Timed, startTime := "25:00", endTime := "26:00");
      && SubmitOf(f, None).AddRaw?
      && HabitSchedule(NewHabit(SubmitOf(f, None).raw, nowMillis)) == []
  {
    var f := EmptyForm.(name := "Walk", kind := Timed, startTime := "25:00", endTime := "26:00");
    PastDayTimes();
    assert TimesValid(f);
    TrimTrimmed(f.name);
    assert SubmitOf(f, None) == AddRaw(FormRaw(f));
    NoSlotsWithoutStart(FormRaw(f), nowMillis);
  }

  /** An accepted edit replaces the edited habit only, keeps its id and history, and takes the form's settings. */
  lemma SubmittedEditReplaces(f: Form, e: Habit, hs: seq<Habit>, i: int)
    requires SubmitOf(f, Some(e)).UpdateRaw? && 0 <= i < |hs| && hs[i].id == e.id
    ensures var r := ReplaceWhere(hs, SubmitOf(f, Some(e)).raw);
      && r[i].id == e.id && r[i].name == f.name && r[i].kind == f.kind
      && r[i].startTime == f.startTime && r[i].endTime == f.endTime
      && r[i].completions == e.completions && r[i].timedLogs == e.timedLogs
      && r[i].skippedDates == e.skippedDates && r[i].targetDate == e.targetDate
  {
    ReplaceWhereAt(hs, SubmitOf(f, Some(e)).raw);
  }

  /** The form's state, replaced by each updater. */
  class FormState {
    var form: Form

    constructor ()
      ensures form == EmptyForm
    {
      form := EmptyForm;
    }

    /** The effect that loads the habit being edited, or clears the form. */
    method Load(editing: Option<Habit>)
      modifies this
      ensures form == FormFor(editing)
    {
      form := FormFor(editing);
    }

    /** `handleChange` on the interval input. */
    method ChangeInterval(value: Option<int>)
      modifies this
      ensures form == old(form).(intervalMinutes := CoerceInterval(value))
    {
      form := form.(intervalMinutes := CoerceInterval(value));
    }

    /** `handleChange` on the other inputs: the field takes the value as typed. */
    method ChangeDescription(value: string)
      modifies this
      ensures form == old(form).(description := value)
    {
      form := form.(description := value);
    }

    method ChangeFrequency(value: string)
      modifies this
      ensures form == old(form).(frequency := value)
    {
      form := form.(frequency := value);
    }

    /** The type select: `"timed"` makes a timed habit, anything else a standard one. */
    method ChangeKind(kind: Kind)
      modifies this
      ensures form == old(form).(kind := kind)
    {
      form := form.(kind := kind);
    }

    method ChangeTimes(startTime: string, endTime: string)
      modifies this
      ensures form == old(form).(startTime := startTime, endTime := endTime)
    {
      form := form.(startTime := startTime, endTime := endTime);
    }

    method ChangeColor(value: string)
      modifies this
      ensures form == old(form).(color := value)
    {
      form := form.(color := value);
    }

    /** `handleSkipWeekdayChange(day)`. */
    method ToggleSkipWeekday(day: int)
      modifies this
      ensures form == old(form).(skipWeekdays := ToggleWeekday(old(form).skipWeekdays, day))
    {
      form := form.(skipWeekdays := ToggleWeekday(form.skipWeekdays, day));
    }

    /** `handleNameChange`. */
    method ChangeName(value: string)
      modifies this
      ensures form == NameChanged(old(form), value)
    {
      form := NameChanged(form, value);
    }

    /** `handleSubmit`: an accepted submission empties the form, a refused one leaves it as it was. */
    method Submit(editing: Option<Habit>) returns (action: SubmitAction)
      modifies this
      ensures action == SubmitOf(old(form), editing)
      ensures form == if action.Rejected? then old(form) else EmptyForm
    {
      action := SubmitOf(form, editing);
      if !action.Rejected? {
        form := EmptyForm;
      }
    }
  }
}
