/**
 * The month grid of `src/components/CalendarView.jsx`: blank cells up to the
 * weekday of the 1st, then one cell per day of the month listing the habits
 * ticked on that day, each keyed by its ISO 8601 calendar date.
 */
module CalendarView {
  import opened Lists
  import opened Text
  import opened Dates
  import opened Habits

  /** `toISO(year, month, day)` for a zero-based `month`: `YYYY-MM-DD` with month and day padded to two digits. */
  function ToISO(year: nat, month: nat, day: nat): (s: string)
    ensures month + 1 < 100 && day < 100 ==> |s| == |DecimalString(year)| + 6
  {
    DecimalString(year) + "-" + Pad2(month + 1) + "-" + Pad2(day)
  }

  /** The date string of a four-digit year is the ISO 8601 calendar date: ten characters, dashes at 4 and 7, digits spelling the year, month and day. */
  lemma ToISOFormat(year: nat, month: nat, day: nat)
    requires 1000 <= year <= 9999 && month <= 11 && 1 <= day <= 31
    ensures var s := ToISO(year, month, day);
      && |s| == 10 && s[4] == '-' && s[7] == '-'
      && IsDecimal(s[..4]) && IsDecimal(s[5..7]) && IsDecimal(s[8..])
      && DecimalValue(s[..4]) == year && DecimalValue(s[5..7]) == month + 1 && DecimalValue(s[8..]) == day
  {
    var y := DecimalString(year);
    var s := ToISO(year, month, day);
    DecimalRoundTrip(year);
    FourDigits(year);
    assert s[..4] == y;
    assert s[5..7] == Pad2(month + 1);
    assert s[8..] == Pad2(day);
  }

  /** A four-digit year is spelled with four digits. */
  lemma FourDigits(n: nat)
    requires 1000 <= n <= 9999
    ensures |DecimalString(n)| == 4
  {
    var a, b, c := n / 10, n / 10 / 10, n / 10 / 10 / 10;
    assert 1 <= c < 10 && 10 <= b < 100 && 100 <= a < 1000;
    assert |DecimalString(c)| == 1;
    assert |DecimalString(b)| == 2;
    assert |DecimalString(a)| == 3;
  }

  /** Different dates give different strings. */
  lemma ToISOInjective(y1: nat, m1: nat, d1: nat, y2: nat, m2: nat, d2: nat)
    requires m1 + 1 < 100 && d1 < 100 && m2 + 1 < 100 && d2 < 100
    requires ToISO(y1, m1, d1) == ToISO(y2, m2, d2)
    ensures y1 == y2 && m1 == m2 && d1 == d2
  {
    var s := ToISO(y1, m1, d1);
    var n := |s|;
    assert s[..n - 6] == DecimalString(y1) == DecimalString(y2);
    assert s[n - 5..n - 3] == Pad2(m1 + 1) == Pad2(m2 + 1);
    assert s[n - 2..] == Pad2(d1) == Pad2(d2);
    DecimalInjective(y1, y2);
  }

  datatype Cell =
    | EmptyCell(key: string)
    | DayCell(key: string, day: nat, dateISO: string, completions: seq<Habit>)

  /** `empty-${i}`. */
  function EmptyKey(i: nat): string {
    "empty-" + DecimalString(i)
  }

  function TickedOn(d: Day): Habit -> bool {
    (h: Habit) => Truthy(h.completions, d)
  }

  /** The weekday of the 1st of the month: how many blank cells come first. */
  function StartOffset(year: nat, month: nat): (n: nat)
    requires month <= 11
    ensures n <= 6
  {
    Weekday(DayNumber(year, month + 1, 1))
  }

  function DayCellOf(year: nat, month: nat, day: nat, habits: seq<Habit>): Cell
    requires month <= 11
  {
    var iso := ToISO(year, month, day);
    DayCell(iso, day, iso, Filter(habits, TickedOn(DayNumber(year, month + 1, day))))
  }

  /** The first `n` blank cells. */
  function Padding(n: nat): (r: seq<Cell>)
    ensures |r| == n
  {
    seq(n, i requires 0 <= i < n => EmptyCell(EmptyKey(i)))
  }

  /** The cells of days 1..n. */
  function DaysUpTo(year: nat, month: nat, n: nat, habits: seq<Habit>): (r: seq<Cell>)
    requires month <= 11
    ensures |r| == n
  {
    seq(n, i requires 0 <= i < n => DayCellOf(year, month, i + 1, habits))
  }

  /** The grid of a month. */
  function MonthCells(year: nat, month: nat, habits: seq<Habit>): (r: seq<Cell>)
    requires month <= 11
    ensures |r| == StartOffset(year, month) + DaysInMonth(year, month)
  {
    Padding(StartOffset(year, month)) + DaysUpTo(year, month, DaysInMonth(year, month), habits)
  }

  lemma PaddingStep(n: nat)
    ensures Padding(n + 1) == Padding(n) + [EmptyCell(EmptyKey(n))]
  {
  }

  lemma DaysUpToStep(year: nat, month: nat, n: nat, habits: seq<Habit>)
    requires month <= 11
    ensures DaysUpTo(year, month, n + 1, habits) == DaysUpTo(year, month, n, habits) + [DayCellOf(year, month, n + 1, habits)]
  {
  }

  /** The two `for` loops that push the blank cells and then the day cells. */
  method BuildCells(year: nat, month: nat, habits: seq<Habit>) returns (cells: seq<Cell>)
    requires month <= 11
    ensures cells == MonthCells(year, month, habits)
  {
    var startOffset := StartOffset(year, month);
    var daysInMonth := DaysInMonth(year, month);
    cells := [];
    var i := 0;
    while i < startOffset
      invariant 0 <= i <= startOffset
      invariant cells == Padding(i)
    {
      PaddingStep(i);
      cells := cells + [EmptyCell(EmptyKey(i))];
      i := i + 1;
    }
    var day := 1;
    while day <= daysInMonth
      invariant 1 <= day <= daysInMonth + 1
      invariant cells == Padding(startOffset) + DaysUpTo(year, month, day - 1, habits)
    {
      var dateISO := ToISO(year, month, day);
      var completions := Filter(habits, TickedOn(DayNumber(year, month + 1, day)));
      DaysUpToStep(year, month, day - 1, habits);
      cells := cells + [DayCell(dateISO, day, dateISO, completions)];
      day := day + 1;
    }
  }

  /**
   * The grid holds the blank cells first, as many as the weekday of the 1st,
   * then the days 1..daysInMonth in order, each keyed by its date and listing
   * the habits ticked that day.
   */
  lemma MonthCellsShape(year: nat, month: nat, habits: seq<Habit>)
    requires month <= 11
    ensures var r := MonthCells(year, month, habits);
      var offset := StartOffset(year, month);
      && (forall i :: 0 <= i < offset ==> r[i] == EmptyCell(EmptyKey(i)))
      && (forall i :: offset <= i < |r| ==>
            && r[i].DayCell?
            && r[i].day == i - offset + 1
            && r[i].key == r[i].dateISO == ToISO(year, month, i - offset + 1)
            && r[i].completions == Filter(habits, TickedOn(DayNumber(year, month + 1, i - offset + 1))))
  {
  }

  /** A day's cell lists exactly the habits whose completions tick that day. */
  lemma DayCellCompletions(year: nat, month: nat, day: nat, habits: seq<Habit>, h: Habit)
    requires month <= 11
    ensures h in DayCellOf(year, month, day, habits).completions <==>
      h in habits && Truthy(h.completions, DayNumber(year, month + 1, day))
  {
    var d := DayNumber(year, month + 1, day);
    var cs := DayCellOf(year, month, day, habits).completions;
    FilterMembers(habits, TickedOn(d));
    if h in habits && Truthy(h.completions, d) {
      var k :| 0 <= k < |habits| && habits[k] == h;
      assert TickedOn(d)(habits[k]);
    }
    if h in cs {
      var k :| 0 <= k < |cs| && cs[k] == h;
      assert TickedOn(d)(cs[k]);
    }
  }

  /** No two cells share a key. */
  lemma MonthCellKeysDistinct(year: nat, month: nat, habits: seq<Habit>, i: int, j: int)
    requires month <= 11
    requires 0 <= i < j < |MonthCells(year, month, habits)|
    ensures MonthCells(year, month, habits)[i].key != MonthCells(year, month, habits)[j].key
  {
    var r := MonthCells(year, month, habits);
    var offset := StartOffset(year, month);
    MonthCellsShape(year, month, habits);
    if j < offset {
      if EmptyKey(i) == EmptyKey(j) {
        assert EmptyKey(i)[6..] == DecimalString(i);
        assert EmptyKey(j)[6..] == DecimalString(j);
        DecimalInjective(i, j);
      }
    } else if i < offset {
      assert r[i].key[0] == 'e';
      assert r[j].key[0] == DecimalString(year)[0];
      assert IsDigit(r[j].key[0]);
    } else {
      if r[i].key == r[j].key {
        ToISOInjective(year, month, i - offset + 1, year, month, j - offset + 1);
      }
    }
  }
}
