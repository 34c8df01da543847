/**
 * The schedule deriver of `src/state/HabitContext.jsx`: parsing `HH:MM`,
 * laying out the day's slot start minutes, and finding the slot that
 * contains a given minute.
 */
module Schedule {
  import opened Wrappers
  import opened Text

  /** The text before the first `c` in `s` (all of `s` when there is none). */
  function UpTo(s: string, c: char): (p: string)
    ensures |p| <= |s|
  {
    if s == [] || s[0] == c then [] else [s[0]] + UpTo(s[1..], c)
  }

  /** `UpTo` stops at the first `c`: a prefix without `c`, followed by `c` or the end. */
  lemma {:induction false} UpToShape(s: string, c: char)
    ensures UpTo(s, c) == s[..|UpTo(s, c)|]
    ensures c !in UpTo(s, c)
    ensures |UpTo(s, c)| < |s| ==> s[|UpTo(s, c)|] == c
  {
    if s != [] && s[0] != c {
      UpToShape(s[1..], c);
    }
  }

  /** `t.split(":")[0]` and `t.split(":")[1]`, or `None` when `t` has no colon. */
  function ClockFields(t: string): (r: Option<(string, string)>)
  {
    var hours := UpTo(t, ':');
    if |hours| == |t| then None
    else Some((hours, UpTo(t[|hours| + 1..], ':')))
  }

  /** There are fields exactly when the text has a colon, and the hours field is the text before the first one. */
  lemma ClockFieldsShape(t: string)
    ensures ClockFields(t).None? <==> ':' !in t
    ensures ClockFields(t).Some? ==>
      var hours := ClockFields(t).value.0;
      |hours| < |t| && t == hours + ":" + t[|hours| + 1..] && ':' !in hours
  {
    UpToShape(t, ':');
    var hours := UpTo(t, ':');
    if |hours| < |t| {
      assert t == hours + ":" + t[|hours| + 1..];
    } else {
      assert t == hours;
    }
  }

  /**
   * `parseTimeToMinutes`: minutes since midnight of an `HH:MM` text, or
   * `None` when it has no colon, a field is not a decimal number, or the
   * hour or minute is out of range.
   */
  function ParseTimeToMinutes(t: string): (r: Option<int>)
    ensures r.Some? ==> 0 <= r.value <= 23 * 60 + 59
  {
    match ClockFields(t)
    case None => None
    case Some((hs, ms)) =>
      if !IsDecimal(hs) || !IsDecimal(ms) then None
      else
        var h, m := DecimalValue(hs), DecimalValue(ms);
        if h > 23 || m > 59 then None else Some(h * 60 + m)
  }

  /** Every time of day written `HH:MM` parses back to its minutes. */
  lemma ParseTimeRoundTrip(h: nat, m: nat)
    requires h <= 23 && m <= 59
    ensures ParseTimeToMinutes(Pad2(h) + ":" + Pad2(m)) == Some(h * 60 + m)
  {
    var t := Pad2(h) + ":" + Pad2(m);
    NoColonInDecimal(Pad2(h));
    NoColonInDecimal(Pad2(m));
    assert UpTo(t, ':') == Pad2(h) by {
      assert t == Pad2(h) + (":" + Pad2(m));
      UpToPrefix(Pad2(h), ":" + Pad2(m), ':');
    }
    assert t[|Pad2(h)| + 1..] == Pad2(m);
    assert UpTo(Pad2(m), ':') == Pad2(m) by {
      UpToPrefix(Pad2(m), [], ':');
    }
  }

  lemma NoColonInDecimal(s: string)
    requires IsDecimal(s)
    ensures ':' !in s
  {
    forall i | 0 <= i < |s|
      ensures s[i] != ':'
    {
      assert IsDigit(s[i]);
    }
  }

  lemma {:induction false} UpToPrefix(p: string, rest: string, c: char)
    requires c !in p
    requires rest == [] || rest[0] == c
    ensures UpTo(p + rest, c) == p
  {
    if p != [] {
      assert (p + rest)[1..] == p[1..] + rest;
      UpToPrefix(p[1..], rest, c);
    }
  }

  /** The slots of the `for` loop in `getScheduleMinutes` from `minute` on. */
  function SlotsFrom(minute: int, end: int, interval: int): seq<int>
    requires interval >= 1
    decreases end - minute
  {
    if minute > end then [] else [minute] + SlotsFrom(minute + interval, end, interval)
  }

  /** Consecutive slots lie exactly `interval` apart. */
  predicate Steps(s: seq<int>, interval: int) {
    forall k :: 0 <= k < |s| - 1 ==> s[k + 1] == s[k] + interval
  }

  lemma DivStep(x: int, d: int)
    requires d >= 1 && x >= d
    ensures (x - d) / d == x / d - 1
  {
    var q, r := (x - d) / d, (x - d) % d;
    assert x == (q + 1) * d + r;
    DivUnique(x, d, q + 1, r);
  }

  lemma DivUnique(x: int, d: int, q: int, r: int)
    requires d >= 1 && 0 <= r < d && x == q * d + r
    ensures x / d == q
  {
    var q', r' := x / d, x % d;
    assert x == q' * d + r';
    if q' < q {
      MulAtLeast(q - q', d);
    } else if q' > q {
      MulAtLeast(q' - q, d);
    }
  }

  lemma {:induction false} MulAtLeast(a: int, d: int)
    requires a >= 1 && d >= 1
    ensures a * d >= d
  {
    if a > 1 {
      MulAtLeast(a - 1, d);
      assert a * d == (a - 1) * d + d;
    }
  }

  /**
   * The loop's slots start at `minute`, step by `interval`, stay within
   * `end`, stop before the next step would pass `end`, and number
   * `(end - minute) / interval + 1`.
   */
  lemma {:induction false} SlotsFromShape(minute: int, end: int, interval: int)
    requires interval >= 1 && minute <= end
    decreases end - minute
    ensures var s := SlotsFrom(minute, end, interval);
      && |s| == (end - minute) / interval + 1
      && s[0] == minute
      && Steps(s, interval)
      && (forall k :: 0 <= k < |s| ==> minute <= s[k] <= end)
      && end < s[|s| - 1] + interval
  {
    var s := SlotsFrom(minute, end, interval);
    if minute + interval > end {
      DivUnique(end - minute, interval, 0, end - minute);
    } else {
      SlotsFromShape(minute + interval, end, interval);
      DivStep(end - minute, interval);
    }
  }

  /**
   * `getScheduleMinutes` as a value: no slots when the interval is below 1,
   * either time fails to parse, or the window is empty or reversed.
   */
  function ScheduleOf(interval: int, startTime: string, endTime: string): seq<int> {
    if interval < 1 then []
    else
      var start, end := ParseTimeToMinutes(startTime), ParseTimeToMinutes(endTime);
      if start.None? || end.None? || end.value <= start.value then []
      else SlotsFrom(start.value, end.value, interval)
  }

  /** A valid window is a well-formed window whose end is after its start. */
  predicate ValidWindow(interval: int, startTime: string, endTime: string) {
    && interval >= 1
    && ParseTimeToMinutes(startTime).Some?
    && ParseTimeToMinutes(endTime).Some?
    && ParseTimeToMinutes(startTime).value < ParseTimeToMinutes(endTime).value
  }

  lemma ScheduleShape(interval: int, startTime: string, endTime: string)
    ensures ScheduleOf(interval, startTime, endTime) == [] <==> !ValidWindow(interval, startTime, endTime)
    ensures ValidWindow(interval, startTime, endTime) ==>
      var s := ScheduleOf(interval, startTime, endTime);
      var start, end := ParseTimeToMinutes(startTime).value, ParseTimeToMinutes(endTime).value;
      && s[0] == start
      && Steps(s, interval)
      && (forall k :: 0 <= k < |s| ==> start <= s[k] <= end)
      && end < s[|s| - 1] + interval
      && |s| == (end - start) / interval + 1
  {
    var start, end := ParseTimeToMinutes(startTime), ParseTimeToMinutes(endTime);
    if ValidWindow(interval, startTime, endTime) {
      var s := ScheduleOf(interval, startTime, endTime);
      assert s == SlotsFrom(start.value, end.value, interval);
      SlotsFromShape(start.value, end.value, interval);
    } else {
      assert ScheduleOf(interval, startTime, endTime) == [];
    }
  }

  /** `getScheduleMinutes(habit)`: the loop that pushes each slot start. */
  method ScheduleMinutes(interval: int, startTime: string, endTime: string) returns (slots: seq<int>)
    ensures slots == ScheduleOf(interval, startTime, endTime)
  {
    if interval < 1 {
      return [];
    }
    var start := ParseTimeToMinutes(startTime);
    var end := ParseTimeToMinutes(endTime);
    if start.None? || end.None? {
      return [];
    }
    if end.value <= start.value {
      return [];
    }
    slots := [];
    var minute := start.value;
    while minute <= end.value
      invariant minute <= end.value + interval
      invariant slots + SlotsFrom(minute, end.value, interval) == SlotsFrom(start.value, end.value, interval)
      decreases end.value + interval - minute
    {
      slots := slots + [minute];
      minute := minute + interval;
    }
  }

  /** `slotStart <= now < slotStart + interval`. */
  predicate InSlot(slotStart: int, now: int, interval: int) {
    slotStart <= now < slotStart + interval
  }

  /** `schedule.findIndex(...)` for the slot containing `now`: the first such index, or -1. */
  function ActiveSlot(schedule: seq<int>, now: int, interval: int): (k: int)
    ensures -1 <= k < |schedule|
    ensures k >= 0 ==> InSlot(schedule[k], now, interval)
  {
    if schedule == [] then -1
    else if InSlot(schedule[0], now, interval) then 0
    else
      var k := ActiveSlot(schedule[1..], now, interval);
      if k == -1 then -1 else k + 1
  }

  /** The index found is the first slot containing `now`; -1 exactly when no slot does. */
  lemma {:induction false} ActiveSlotFirst(schedule: seq<int>, now: int, interval: int)
    ensures var k := ActiveSlot(schedule, now, interval);
      && (k >= 0 ==> forall j :: 0 <= j < k ==> !InSlot(schedule[j], now, interval))
      && (k == -1 <==> forall j :: 0 <= j < |schedule| ==> !InSlot(schedule[j], now, interval))
  {
    if schedule != [] && !InSlot(schedule[0], now, interval) {
      ActiveSlotFirst(schedule[1..], now, interval);
      forall j | 1 <= j < |schedule|
        ensures schedule[j] == schedule[1..][j - 1]
      {
      }
    }
  }

  lemma {:induction false} StepsIncrease(s: seq<int>, interval: int, i: int, j: int)
    requires Steps(s, interval) && interval >= 1
    requires 0 <= i < j < |s|
    ensures s[i] + interval <= s[j]
  {
    if j > i + 1 {
      StepsIncrease(s, interval, i, j - 1);
    }
  }

  /** On a schedule whose slots are `interval` apart, at most one slot contains `now`. */
  lemma ActiveSlotUnique(schedule: seq<int>, now: int, interval: int, j: int)
    requires Steps(schedule, interval) && interval >= 1
    requires 0 <= j < |schedule| && InSlot(schedule[j], now, interval)
    ensures ActiveSlot(schedule, now, interval) == j
  {
    var k := ActiveSlot(schedule, now, interval);
    ActiveSlotFirst(schedule, now, interval);
    if k != j {
      if k < j { StepsIncrease(schedule, interval, k, j); }
      else { StepsIncrease(schedule, interval, j, k); }
    }
  }

  /** The slots tile the window: from the first start to the last slot's end every minute is in a slot. */
  lemma {:induction false} ActiveSlotGapFree(schedule: seq<int>, now: int, interval: int)
    requires Steps(schedule, interval) && schedule != []
    requires schedule[0] <= now < schedule[|schedule| - 1] + interval
    ensures ActiveSlot(schedule, now, interval) >= 0
  {
    if !InSlot(schedule[0], now, interval) {
      ActiveSlotGapFree(schedule[1..], now, interval);
    }
  }
}
