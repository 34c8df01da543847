/**
 * `getLongestStreak` and `getCurrentStreak`, which `src/pages/Dashboard.jsx`
 * and `src/components/HabitList.jsx` each define (the two copies are the
 * same). Both read a habit's stored `completions` map; dates are day
 * numbers, so the difference of two dates is the number of days between them.
 */
module Streaks {
  import opened Dates
  import opened Habits

  /** The dates `completions` maps to a truthy value. */
  function DoneDays(m: map<Day, bool>): set<Day> {
    set d | d in m.Keys && m[d]
  }

  lemma DoneDaysAre(m: map<Day, bool>, d: Day)
    ensures d in DoneDays(m) <==> Truthy(m, d)
  {
  }

  lemma {:induction false} LeastExists(s: set<int>)
    requires s != {}
    ensures exists x :: x in s && forall y :: y in s ==> x <= y
    decreases |s|
  {
    if forall y :: y !in s {
      assert false;
    }
    var y :| y in s;
    if s != {y} {
      LeastExists(s - {y});
      var x :| x in s - {y} && forall z :: z in s - {y} ==> x <= z;
      var least := if y < x then y else x;
      forall z | z in s ensures least <= z {
        if z != y { assert z in s - {y}; }
      }
    }
  }

  /** The earliest date of a non-empty set. */
  function Least(s: set<int>): (x: int)
    requires s != {}
    ensures x in s && forall y :: y in s ==> x <= y
  {
    LeastExists(s);
    var x :| x in s && forall y :: y in s ==> x <= y;
    x
  }

  predicate StrictlyAscending(s: seq<int>) {
    forall i, j :: 0 <= i < j < |s| ==> s[i] < s[j]
  }

  /** The dates of `s` in chronological order. */
  function SortedDays(s: set<Day>): (r: seq<Day>)
    ensures |r| == |s|
    decreases |s|
  {
    if s == {} then [] else [Least(s)] + SortedDays(s - {Least(s)})
  }

  lemma {:induction false} SortedDaysShape(s: set<Day>)
    ensures StrictlyAscending(SortedDays(s))
    ensures forall d :: d in SortedDays(s) <==> d in s
    decreases |s|
  {
    if s != {} {
      var x := Least(s);
      SortedDaysShape(s - {x});
      var r := SortedDays(s);
      assert r == [x] + SortedDays(s - {x});
      forall j | 1 <= j < |r| ensures x < r[j] {
        assert r[j] in SortedDays(s - {x});
      }
    }
  }

  /**
   * `Object.entries(completions).filter(...).map(...).sort()`: the done
   * dates in chronological order (ISO keys sort as the dates they spell).
   */
  function DoneDates(m: map<Day, bool>): (r: seq<Day>)
    ensures |r| == |DoneDays(m)|
  {
    SortedDays(DoneDays(m))
  }

  /** Every date from `start` on, `len` of them, is done. */
  ghost predicate RunIn(m: map<Day, bool>, start: Day, len: nat) {
    forall d :: start <= d < start + len ==> Truthy(m, d)
  }

  /** `n` is the length of the longest run of consecutive done dates. */
  ghost predicate IsLongestStreak(m: map<Day, bool>, n: nat) {
    (exists s :: RunIn(m, s, n)) && forall s, k :: k > n ==> !RunIn(m, s, k)
  }

  /** `n` counts the done dates that end at `today`, going back one day at a time. */
  ghost predicate IsCurrentStreak(m: map<Day, bool>, today: Day, n: nat) {
    RunIn(m, today - n + 1, n) && !Truthy(m, today - n)
  }

  /** How long the run of consecutive dates ending at `ds[j]` is within `ds`: what the loop's `current` holds. */
  function RunEnd(ds: seq<Day>, j: nat): (n: nat)
    requires j < |ds|
    ensures 1 <= n <= j + 1
  {
    if j == 0 || ds[j] - ds[j - 1] != 1 then 1 else RunEnd(ds, j - 1) + 1
  }

  /** Every date of the run `RunEnd` counts is in `ds`. */
  lemma {:induction false} RunEndSound(ds: seq<Day>, j: nat, d: Day)
    requires j < |ds|
    requires ds[j] - RunEnd(ds, j) < d <= ds[j]
    ensures d in ds
  {
    if d != ds[j] {
      RunEndSound(ds, j - 1, d);
    }
  }

  /** In an ascending list, a run of dates ending at `ds[j]` is no longer than `RunEnd` says. */
  lemma {:induction false} RunEndMaximal(ds: seq<Day>, j: nat, len: nat)
    requires StrictlyAscending(ds) && j < |ds|
    requires forall d :: ds[j] - len < d <= ds[j] ==> d in ds
    ensures len <= RunEnd(ds, j)
  {
    if len > 1 {
      var p := ds[j] - 1;
      assert p in ds;
      var k :| 0 <= k < |ds| && ds[k] == p;
      assert k < j;
      assert ds[j - 1] == p;
      forall d | ds[j - 1] - (len - 1) < d <= ds[j - 1] ensures d in ds {
      }
      RunEndMaximal(ds, j - 1, len - 1);
    }
  }

  /** `getLongestStreak` as a value: the largest `RunEnd` over the done dates. */
  function LongestOf(m: map<Day, bool>): nat {
    MaxRunEnd(DoneDates(m), |DoneDates(m)|)
  }

  /** The largest of `RunEnd(ds, 0) .. RunEnd(ds, i - 1)`, 0 when `i` is 0. */
  function MaxRunEnd(ds: seq<Day>, i: nat): nat
    requires i <= |ds|
  {
    if i == 0 then 0
    else
      var n := MaxRunEnd(ds, i - 1);
      if RunEnd(ds, i - 1) > n then RunEnd(ds, i - 1) else n
  }

  /** `MaxRunEnd` is one of the runs and no run is longer. */
  lemma {:induction false} MaxRunEndIsMax(ds: seq<Day>, i: nat)
    requires i <= |ds|
    ensures i > 0 ==> exists k :: 0 <= k < i && MaxRunEnd(ds, i) == RunEnd(ds, k)
    ensures forall k :: 0 <= k < i ==> RunEnd(ds, k) <= MaxRunEnd(ds, i)
    ensures i == 0 ==> MaxRunEnd(ds, i) == 0
  {
    if i > 0 {
      MaxRunEndIsMax(ds, i - 1);
    }
  }

  /** The value the loop computes is the longest streak: 0 exactly when nothing is done, and never more than the done dates. */
  lemma LongestOfIsLongest(m: map<Day, bool>)
    ensures IsLongestStreak(m, LongestOf(m))
    ensures LongestOf(m) == 0 <==> DoneDays(m) == {}
    ensures LongestOf(m) <= |DoneDays(m)|
  {
    var ds := DoneDates(m);
    var n := LongestOf(m);
    MaxRunEndIsMax(ds, |ds|);
    SortedDaysShape(DoneDays(m));
    if ds == [] {
      assert RunIn(m, 0, 0);
      forall s, k | k > n ensures !RunIn(m, s, k) {
        assert s !in DoneDays(m);
        assert !Truthy(m, s);
      }
    } else {
      var k :| 0 <= k < |ds| && n == RunEnd(ds, k);
      var start := ds[k] - n + 1;
      forall d | start <= d < start + n ensures Truthy(m, d) {
        RunEndSound(ds, k, d);
      }
      assert RunIn(m, start, n);
      forall s, len | len > n ensures !RunIn(m, s, len) {
        if RunIn(m, s, len) {
          var e := s + len - 1;
          assert Truthy(m, e);
          assert e in ds;
          var j :| 0 <= j < |ds| && ds[j] == e;
          forall d | ds[j] - len < d <= ds[j] ensures d in ds {
            assert Truthy(m, d);
          }
          RunEndMaximal(ds, j, len);
        }
      }
      assert ds[0] in DoneDays(m);
    }
  }

  /** `getLongestStreak(completions)`. */
  method LongestStreak(m: map<Day, bool>) returns (longest: nat)
    ensures longest == LongestOf(m)
  {
    var dates := DoneDates(m);
    if |dates| == 0 {
      return 0;
    }
    SortedDaysShape(DoneDays(m));
    longest := 1;
    var current := 1;
    var i := 1;
    while i < |dates|
      invariant 1 <= i <= |dates|
      invariant current == RunEnd(dates, i - 1)
      invariant longest == MaxRunEnd(dates, i)
    {
      var diffDays := dates[i] - dates[i - 1];
      if diffDays == 1 {
        current := current + 1;
        longest := if longest >= current then longest else current;
      } else if diffDays > 1 {
        current := 1;
      }
      i := i + 1;
    }
  }

  /** How far back from `today` the done dates reach without a gap: 0 when `today` is not done. */
  function CurrentOf(m: map<Day, bool>, today: Day): nat
    decreases if today in DoneDays(m) then today - Least(DoneDays(m)) + 1 else 0
  {
    if Truthy(m, today) then
      assert today in DoneDays(m);
      CurrentOf(m, today - 1) + 1
    else 0
  }

  lemma {:induction false} CurrentOfIsCurrent(m: map<Day, bool>, today: Day)
    ensures IsCurrentStreak(m, today, CurrentOf(m, today))
    ensures CurrentOf(m, today) == 0 <==> !Truthy(m, today)
    decreases if today in DoneDays(m) then today - Least(DoneDays(m)) + 1 else 0
  {
    if Truthy(m, today) {
      assert today in DoneDays(m);
      CurrentOfIsCurrent(m, today - 1);
      var n := CurrentOf(m, today - 1);
      forall d | today - (n + 1) + 1 <= d < today - (n + 1) + 1 + (n + 1) ensures Truthy(m, d) {
        if d != today {
          assert today - 1 - n + 1 <= d < today - 1 - n + 1 + n;
        }
      }
    }
  }

  /** `getCurrentStreak(completions, today)`. */
  method CurrentStreak(m: map<Day, bool>, today: Day) returns (streak: nat)
    ensures streak == CurrentOf(m, today)
  {
    if !Truthy(m, today) {
      return 0;
    }
    streak := 0;
    var cursor := today;
    while Truthy(m, cursor)
      invariant cursor == today - streak
      invariant CurrentOf(m, today) == streak + CurrentOf(m, cursor)
      decreases if cursor in DoneDays(m) then cursor - Least(DoneDays(m)) + 1 else 0
    {
      assert cursor in DoneDays(m);
      streak := streak + 1;
      cursor := cursor - 1;
    }
  }

  /** The current streak never exceeds the longest one. */
  lemma CurrentAtMostLongest(m: map<Day, bool>, today: Day)
    ensures CurrentOf(m, today) <= LongestOf(m)
  {
    var c := CurrentOf(m, today);
    var l := LongestOf(m);
    CurrentOfIsCurrent(m, today);
    LongestOfIsLongest(m);
  }

  /** The longest streak is determined by the map: two values that both qualify are equal. */
  lemma LongestStreakUnique(m: map<Day, bool>, a: nat, b: nat)
    requires IsLongestStreak(m, a) && IsLongestStreak(m, b)
    ensures a == b
  {
    var s :| RunIn(m, s, b);
    var t :| RunIn(m, t, a);
  }

  /** So is the current streak. */
  lemma CurrentStreakUnique(m: map<Day, bool>, today: Day, a: nat, b: nat)
    requires IsCurrentStreak(m, today, a) && IsCurrentStreak(m, today, b)
    ensures a == b
  {

  }
}
