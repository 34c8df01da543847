/**
 * The list idioms the source leans on: `Array.prototype.filter`,
 * `Array.prototype.sort` with a numeric comparator (stable, ascending) and
 * `[...new Set(xs)]` (drop repeats, keep first occurrences).
 */
module Lists {

  /** `s.filter(keep)`: the elements that satisfy `keep`, in order. */
  function Filter<T>(s: seq<T>, keep: T -> bool): (r: seq<T>)
    ensures |r| <= |s|
  {
    if s == [] then []
    else
      var p := Filter(s[..|s| - 1], keep);
      if keep(s[|s| - 1]) then p + [s[|s| - 1]] else p
  }

  /** The filtered list holds exactly the elements of `s` that satisfy `keep`. */
  lemma {:induction false} FilterMembers<T>(s: seq<T>, keep: T -> bool)
    ensures forall i :: 0 <= i < |Filter(s, keep)| ==> keep(Filter(s, keep)[i]) && Filter(s, keep)[i] in s
    ensures forall i :: 0 <= i < |s| && keep(s[i]) ==> s[i] in Filter(s, keep)
  {
    if s != [] {
      var n := |s| - 1;
      FilterMembers(s[..n], keep);
      assert s == s[..n] + [s[n]];
      forall i | 0 <= i < n && keep(s[i]) ensures s[i] in Filter(s, keep) {
        assert s[i] == s[..n][i];
      }
    }
  }

  /** The filter keeps everything exactly when every element qualifies, and nothing exactly when none does. */
  lemma {:induction false} FilterLength<T>(s: seq<T>, keep: T -> bool)
    ensures |Filter(s, keep)| == |s| <==> forall i :: 0 <= i < |s| ==> keep(s[i])
    ensures |Filter(s, keep)| == 0 <==> forall i :: 0 <= i < |s| ==> !keep(s[i])
  {
    if s != [] {
      var n := |s| - 1;
      FilterLength(s[..n], keep);
      forall i | 0 <= i < n ensures s[..n][i] == s[i] {
      }
    }
  }

  lemma {:induction false} FilterAll<T>(s: seq<T>, keep: T -> bool)
    requires forall i :: 0 <= i < |s| ==> keep(s[i])
    ensures Filter(s, keep) == s
  {
    if s != [] {
      FilterAll(s[..|s| - 1], keep);
      assert s[..|s| - 1] + [s[|s| - 1]] == s;
    }
  }

  lemma {:induction false} FilterAppend<T>(s: seq<T>, t: seq<T>, keep: T -> bool)
    ensures Filter(s + t, keep) == Filter(s, keep) + Filter(t, keep)
    decreases |t|
  {
    if t != [] {
      var n := |t| - 1;
      assert (s + t)[..|s + t| - 1] == s + t[..n];
      FilterAppend(s, t[..n], keep);
    } else {
      assert s + t == s;
    }
  }

  /** A sort key compared lexicographically: first `major`, then `minor`. */
  datatype Rank = Rank(major: int, minor: int)

  predicate Below(a: Rank, b: Rank) {
    a.major < b.major || (a.major == b.major && a.minor < b.minor)
  }

  /** No element has a key strictly below the key of an earlier element. */
  predicate SortedBy<T>(s: seq<T>, key: T -> Rank) {
    forall i, j :: 0 <= i < j < |s| ==> !Below(key(s[j]), key(s[i]))
  }

  predicate Distinct<T(==)>(s: seq<T>) {
    forall i, j :: 0 <= i < j < |s| ==> s[i] != s[j]
  }

  /** Places `x` after every element whose key is not above its own (this keeps the sort stable). */
  function Insert<T>(x: T, s: seq<T>, key: T -> Rank): (r: seq<T>)
    ensures |r| == |s| + 1
  {
    if s == [] || Below(key(x), key(s[0])) then [x] + s
    else [s[0]] + Insert(x, s[1..], key)
  }

  /** Inserting adds exactly `x`. */
  lemma {:induction false} InsertPerm<T>(x: T, s: seq<T>, key: T -> Rank)
    ensures multiset(Insert(x, s, key)) == multiset(s) + multiset{x}
  {
    if s != [] && !Below(key(x), key(s[0])) {
      InsertPerm(x, s[1..], key);
      assert s == [s[0]] + s[1..];
    }
  }

  lemma {:induction false} InsertSorted<T>(x: T, s: seq<T>, key: T -> Rank)
    requires SortedBy(s, key)
    ensures SortedBy(Insert(x, s, key), key)
  {
    if s != [] && !Below(key(x), key(s[0])) {
      InsertSorted(x, s[1..], key);
      InsertPerm(x, s[1..], key);
      var r := Insert(x, s[1..], key);
      forall j | 0 <= j < |r|
        ensures !Below(key(r[j]), key(s[0]))
      {
        assert r[j] in multiset(r);
      }
    }
  }

  lemma {:induction false} InsertDistinct<T>(x: T, s: seq<T>, key: T -> Rank)
    requires Distinct(s) && x !in s
    ensures Distinct(Insert(x, s, key))
  {
    if s != [] && !Below(key(x), key(s[0])) {
      InsertDistinct(x, s[1..], key);
      InsertPerm(x, s[1..], key);
      var r := Insert(x, s[1..], key);
      forall j | 0 <= j < |r|
        ensures r[j] != s[0]
      {
        assert r[j] in multiset(r);
      }
    }
  }

  /** Appending `x` is inserting it when no element has a key above `x`'s. */
  lemma {:induction false} InsertLast<T>(x: T, s: seq<T>, key: T -> Rank)
    requires forall i :: 0 <= i < |s| ==> !Below(key(x), key(s[i]))
    ensures Insert(x, s, key) == s + [x]
  {
    if s != [] {
      InsertLast(x, s[1..], key);
    }
  }

  /** Stable insertion sort by `key`, ascending. */
  function SortBy<T>(s: seq<T>, key: T -> Rank): (r: seq<T>)
    ensures |r| == |s|
  {
    if s == [] then []
    else Insert(s[|s| - 1], SortBy(s[..|s| - 1], key), key)
  }

  /** Sorting rearranges and neither adds nor drops. */
  lemma {:induction false} SortByPerm<T>(s: seq<T>, key: T -> Rank)
    ensures multiset(SortBy(s, key)) == multiset(s)
  {
    if s != [] {
      SortByPerm(s[..|s| - 1], key);
      InsertPerm(s[|s| - 1], SortBy(s[..|s| - 1], key), key);
      assert s == s[..|s| - 1] + [s[|s| - 1]];
    }
  }

  lemma {:induction false} SortBySorted<T>(s: seq<T>, key: T -> Rank)
    ensures SortedBy(SortBy(s, key), key)
  {
    if s != [] {
      SortBySorted(s[..|s| - 1], key);
      InsertSorted(s[|s| - 1], SortBy(s[..|s| - 1], key), key);
    }
  }

  lemma {:induction false} SortByDistinct<T>(s: seq<T>, key: T -> Rank)
    requires Distinct(s)
    ensures Distinct(SortBy(s, key))
  {
    if s != [] {
      var p := s[..|s| - 1];
      SortByDistinct(p, key);
      SortByPerm(p, key);
      assert s[|s| - 1] !in multiset(SortBy(p, key));
      InsertDistinct(s[|s| - 1], SortBy(p, key), key);
    }
  }

  /** Sorting what is already sorted changes nothing. */
  lemma {:induction false} SortByIdentity<T>(s: seq<T>, key: T -> Rank)
    requires SortedBy(s, key)
    ensures SortBy(s, key) == s
  {
    if s != [] {
      var p := s[..|s| - 1];
      var x := s[|s| - 1];
      SortedSplit(s, key);
      SortByIdentity(p, key);
      InsertLast(x, p, key);
      assert p + [x] == s;
    }
  }

  /** Dropping the last element of a sorted list leaves it sorted. */
  lemma SortedSplit<T>(s: seq<T>, key: T -> Rank)
    requires SortedBy(s, key) && s != []
    ensures SortedBy(s[..|s| - 1], key)
  {
    var p := s[..|s| - 1];
    forall i, j | 0 <= i < j < |p| ensures !Below(key(p[j]), key(p[i])) {
      assert p[i] == s[i] && p[j] == s[j];
    }
  }

  /** `[...new Set(s)]`: the first occurrence of every element, in order. */
  function Dedupe<T(==)>(s: seq<T>): (r: seq<T>)
    ensures |r| <= |s|
  {
    if s == [] then []
    else
      var p := Dedupe(s[..|s| - 1]);
      if s[|s| - 1] in p then p else p + [s[|s| - 1]]
  }

  /** The deduplicated list has no repeats and the same elements as `s`. */
  lemma {:induction false} DedupeMembers<T>(s: seq<T>)
    ensures Distinct(Dedupe(s))
    ensures forall i :: 0 <= i < |Dedupe(s)| ==> Dedupe(s)[i] in s
    ensures forall i :: 0 <= i < |s| ==> s[i] in Dedupe(s)
  {
    if s != [] {
      var n := |s| - 1;
      DedupeMembers(s[..n]);
      assert s == s[..n] + [s[n]];
      forall i | 0 <= i < n ensures s[i] in Dedupe(s) {
        assert s[i] == s[..n][i];
      }
    }
  }

  lemma {:induction false} DedupeDistinct<T>(s: seq<T>)
    requires Distinct(s)
    ensures Dedupe(s) == s
  {
    if s != [] {
      DedupeDistinct(s[..|s| - 1]);
      assert s[|s| - 1] !in s[..|s| - 1];
      assert s[..|s| - 1] + [s[|s| - 1]] == s;
    }
  }

  /** The key of a number sorted with `(a, b) => a - b`. */
  function Ascending(x: int): Rank { Rank(x, 0) }

  /** Sorted by `Ascending` and without repeats: strictly increasing. */
  lemma AscendingStrict(s: seq<int>)
    requires SortedBy(s, Ascending) && Distinct(s)
    ensures forall i, j :: 0 <= i < j < |s| ==> s[i] < s[j]
  {
    forall i, j | 0 <= i < j < |s|
      ensures s[i] < s[j]
    {
      assert !Below(Ascending(s[j]), Ascending(s[i]));
    }
  }
}
