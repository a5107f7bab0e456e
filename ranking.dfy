/**
 * `nlargest(n, column)`: the n rows with the largest values of a column,
 * largest first. Rows whose value is NaN rank below every number and come
 * after all numbered rows; rows with equal values keep their original order.
 */
module Ranking {
  import opened Wrappers

  /** `a` ranks at or above `b`; a missing value ranks below every number. */
  predicate Outranks(a: Option<int>, b: Option<int>)
  {
    b.None? || (a.Some? && a.value >= b.value)
  }

  /** `s` is in non-increasing order of `key`. */
  ghost predicate SortedDesc<T>(s: seq<T>, key: T -> Option<int>)
  {
    forall i, j :: 0 <= i < j < |s| ==> Outranks(key(s[i]), key(s[j]))
  }

  /** Places `x` before the first element it ranks at or above. */
  function Insert<T(==)>(x: T, s: seq<T>, key: T -> Option<int>): (r: seq<T>)
    ensures |r| == |s| + 1
    ensures multiset(r) == multiset(s) + multiset{x}
  {
    if s == [] || Outranks(key(x), key(s[0])) then [x] + s
    else
      assert s == [s[0]] + s[1..];
      [s[0]] + Insert(x, s[1..], key)
  }

  /** Stable sort, largest first; an element goes before the equal ones that follow it. */
  function SortDesc<T(==)>(s: seq<T>, key: T -> Option<int>): (r: seq<T>)
    ensures |r| == |s|
    ensures multiset(r) == multiset(s)
  {
    if s == [] then []
    else
      assert s == [s[0]] + s[1..];
      Insert(s[0], SortDesc(s[1..], key), key)
  }

  lemma {:induction false} InsertSorted<T>(x: T, s: seq<T>, key: T -> Option<int>)
    requires SortedDesc(s, key)
    ensures SortedDesc(Insert(x, s, key), key)
  {
    if s == [] || Outranks(key(x), key(s[0])) {
    } else {
      var rest := Insert(x, s[1..], key);
      InsertSorted(x, s[1..], key);
      forall k | 0 <= k < |rest| ensures Outranks(key(s[0]), key(rest[k])) {
        var e := rest[k];
        assert e in multiset(rest);
        if e != x {
          assert e in multiset(s[1..]);
          var j :| 0 <= j < |s[1..]| && s[1..][j] == e;
          assert s[j + 1] == e;
        }
      }
      var r := [s[0]] + rest;
      assert Insert(x, s, key) == r;
      forall i, j | 0 <= i < j < |r| ensures Outranks(key(r[i]), key(r[j])) {
        if i > 0 {
          assert r[i] == rest[i - 1] && r[j] == rest[j - 1];
        } else {
          assert r[j] == rest[j - 1];
        }
      }
    }
  }

  lemma {:induction false} SortDescSorted<T>(s: seq<T>, key: T -> Option<int>)
    ensures SortedDesc(SortDesc(s, key), key)
  {
    if s != [] {
      SortDescSorted(s[1..], key);
      InsertSorted(s[0], SortDesc(s[1..], key), key);
    }
  }

  /** The first `n` rows by `key`, largest first (fewer when there are fewer rows). */
  function NLargest<T(==)>(s: seq<T>, n: nat, key: T -> Option<int>): seq<T>
  {
    var sorted := SortDesc(s, key);
    sorted[..if n < |sorted| then n else |sorted|]
  }

  /**
   * `NLargest` returns min(n, |s|) rows, all drawn from `s`, in
   * non-increasing order of `key`, and no row it leaves out ranks strictly
   * above a row it returns.
   */
  lemma NLargestSpec<T>(s: seq<T>, n: nat, key: T -> Option<int>)
    ensures |NLargest(s, n, key)| == if n < |s| then n else |s|
    ensures multiset(NLargest(s, n, key)) <= multiset(s)
    ensures SortedDesc(NLargest(s, n, key), key)
    ensures forall x, y :: x in NLargest(s, n, key) && y in multiset(s) - multiset(NLargest(s, n, key)) ==>
      Outranks(key(x), key(y))
  {
    var sorted := SortDesc(s, key);
    var m := if n < |sorted| then n else |sorted|;
    var top, rest := sorted[..m], sorted[m..];
    assert sorted == top + rest;
    assert multiset(sorted) == multiset(top) + multiset(rest);
    SortDescSorted(s, key);
    forall x, y | x in top && y in multiset(s) - multiset(top) ensures Outranks(key(x), key(y)) {
      var i :| 0 <= i < |top| && top[i] == x;
      assert y in multiset(rest);
      var j :| 0 <= j < |rest| && rest[j] == y;
      assert sorted[i] == x && sorted[m + j] == y;
    }
  }
}
