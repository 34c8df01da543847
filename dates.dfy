/**
 * Calendar dates. The application keys its maps by ISO 8601 date strings
 * (`YYYY-MM-DD`); the model keys them by the number of days since 1970-01-01
 * in the proleptic Gregorian calendar, which is the same information.
 */
module Dates {

  type Day = int

  /** `getDay()` of a date: 0 = Sunday, ..., 6 = Saturday (1970-01-01 was a Thursday). */
  function Weekday(d: Day): (w: int)
    ensures 0 <= w <= 6
    ensures (d - w) % 7 == 3
  {
    (d + 4) % 7
  }

  predicate IsLeapYear(year: int) {
    year % 4 == 0 && (year % 100 != 0 || year % 400 == 0)
  }

  /** `new Date(year, month + 1, 0).getDate()` for a zero-based `month`. */
  function DaysInMonth(year: int, month: int): (n: int)
    requires 0 <= month <= 11
    ensures 28 <= n <= 31
    ensures n == 29 <==> month == 1 && IsLeapYear(year)
  {
    if month == 1 then (if IsLeapYear(year) then 29 else 28)
    else if month == 3 || month == 5 || month == 8 || month == 10 then 30
    else 31
  }

  /**
   * The day number of a civil date with a one-based month (days-from-civil:
   * years are shifted to start in March so that the leap day comes last).
   */
  function DayNumber(year: int, month: int, day: int): Day
    requires 1 <= month <= 12
  {
    var y := if month <= 2 then year - 1 else year;
    var mp := if month > 2 then month - 3 else month + 9;
    var doy := (153 * mp + 2) / 5 + day - 1;
    MarchFirst(y) + doy - 719468
  }

  /** The days from 0000-03-01 to 1 March of year `y`, counted in 400-year eras of 146097 days. */
  function MarchFirst(y: int): int {
    EraDays(y / 400, y % 400)
  }

  /** The days before year `yoe` of era `era`, three leap days in four centuries being dropped. */
  function EraDays(era: int, yoe: int): int {
    era * 146097 + yoe * 365 + yoe / 4 - yoe / 100
  }

  /** The year from 1 March of `y` to 1 March of `y + 1` holds the leap day of `y + 1`, if any. */
  lemma MarchFirstStep(y: int)
    ensures MarchFirst(y + 1) == MarchFirst(y) + if IsLeapYear(y + 1) then 366 else 365
  {
    var era, yoe := y / 400, y % 400;
    LeapInEra(y + 1);
    if yoe < 399 {
      assert (y + 1) / 400 == era && (y + 1) % 400 == yoe + 1;
      EraDaysStep(era, yoe);
    } else {
      assert (y + 1) / 400 == era + 1 && (y + 1) % 400 == 0;
    }
  }

  /** Within an era, a year adds its leap day when 4 divides the next year of the era and 100 does not. */
  lemma EraDaysStep(era: int, yoe: int)
    requires 0 <= yoe < 399
    ensures EraDays(era, yoe + 1) == EraDays(era, yoe) + if (yoe + 1) % 4 == 0 && (yoe + 1) % 100 != 0 then 366 else 365
  {
  }

  /** The leap rule reads only the year's place in its era. */
  lemma LeapInEra(x: int)
    ensures IsLeapYear(x) <==> (x % 400) % 4 == 0 && ((x % 400) % 100 != 0 || x % 400 == 0)
  {
    EraRemainder4(x / 400, x % 400);
    EraRemainder100(x / 400, x % 400);
  }

  lemma EraRemainder4(era: int, r: int)
    ensures (era * 400 + r) % 4 == r % 4
  {
    assert era * 400 == (era * 100) * 4;
  }

  lemma EraRemainder100(era: int, r: int)
    ensures (era * 400 + r) % 100 == r % 100
  {
    assert era * 400 == (era * 4) * 100;
  }

  /** The day after a date inside its month is the next day number. */
  lemma DayNumberNextDay(year: int, month: int, day: int)
    requires 1 <= month <= 12 && 1 <= day < DaysInMonth(year, month - 1)
    ensures DayNumber(year, month, day + 1) == DayNumber(year, month, day) + 1
  {
  }

  /** The first of the next month follows the last day of a month, February of leap years included. */
  lemma DayNumberNextMonth(year: int, month: int)
    requires 1 <= month <= 11
    ensures DayNumber(year, month + 1, 1) == DayNumber(year, month, DaysInMonth(year, month - 1)) + 1
  {
    if month == 2 {
      MarchFirstStep(year - 1);
    }
  }

  /** New Year's Day follows 31 December. */
  lemma DayNumberNextYear(year: int)
    ensures DayNumber(year + 1, 1, 1) == DayNumber(year, 12, 31) + 1
  {
  }

  /** Weekdays follow each other round the week. */
  lemma WeekdayNextDay(d: Day)
    ensures Weekday(d + 1) == (Weekday(d) + 1) % 7
  {
  }

  lemma EpochIsThursday()
    ensures DayNumber(1970, 1, 1) == 0 && Weekday(0) == 4
  {
  }
}
