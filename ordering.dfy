/**
 * `sorted(set_of_values)`: the distinct values of a column in strictly
 * increasing order of a strict total order, and Python's string order
 * (character by character, by code point; a proper prefix comes first).
 */
module Ordering {

  ghost predicate IsStrictTotalOrder<T(!new)>(lt: (T, T) -> bool)
  {
    && (forall a :: !lt(a, a))
    && (forall a, b :: a != b ==> lt(a, b) || lt(b, a))
    && (forall a, b, c :: lt(a, b) && lt(b, c) ==> lt(a, c))
  }

  ghost predicate StrictlySorted<T>(s: seq<T>, lt: (T, T) -> bool)
  {
    forall i, j :: 0 <= i < j < |s| ==> lt(s[i], s[j])
  }

  /** Adds `x` to a sorted list of distinct values, unless it is already there. */
  function InsertUnique<T(==,!new)>(x: T, s: seq<T>, lt: (T, T) -> bool): (r: seq<T>)
    ensures forall y :: y in r <==> y == x || y in s
  {
    if s == [] then [x]
    else if x == s[0] then s
    else if lt(x, s[0]) then [x] + s
    else [s[0]] + InsertUnique(x, s[1..], lt)
  }

  /** The distinct values of `s`, sorted by `lt`. */
  function SortedUnique<T(==,!new)>(s: seq<T>, lt: (T, T) -> bool): (r: seq<T>)
    ensures forall y :: y in r <==> y in s
  {
    if s == [] then [] else InsertUnique(s[0], SortedUnique(s[1..], lt), lt)
  }

  lemma {:induction false} InsertUniqueSorted<T(!new)>(x: T, s: seq<T>, lt: (T, T) -> bool)
    requires IsStrictTotalOrder(lt) && StrictlySorted(s, lt)
    ensures StrictlySorted(InsertUnique(x, s, lt), lt)
  {
    if s != [] && x != s[0] && !lt(x, s[0]) {
      var rest := InsertUnique(x, s[1..], lt);
      InsertUniqueSorted(x, s[1..], lt);
      assert lt(s[0], x);
      forall k | 0 <= k < |rest| ensures lt(s[0], rest[k]) {
        if rest[k] != x {
          assert rest[k] in s[1..];
          var j :| 0 <= j < |s[1..]| && s[1..][j] == rest[k];
          assert s[j + 1] == rest[k];
        }
      }
      var r := [s[0]] + rest;
      forall i, j | 0 <= i < j < |r| ensures lt(r[i], r[j]) {
        assert r[j] == rest[j - 1];
        if i > 0 {
          assert r[i] == rest[i - 1];
        }
      }
    } else if s != [] && x != s[0] {
      var r := [x] + s;
      forall i, j | 0 <= i < j < |r| ensures lt(r[i], r[j]) {
        assert r[j] == s[j - 1];
        if i > 0 {
          assert r[i] == s[i - 1];
        } else if j > 1 {
          assert lt(s[0], s[j - 1]);
        }
      }
    }
  }

  /**
   * The option list holds each value of `s` once, in strictly increasing
   * order, and nothing else.
   */
  lemma {:induction false} SortedUniqueSpec<T(!new)>(s: seq<T>, lt: (T, T) -> bool)
    requires IsStrictTotalOrder(lt)
    ensures StrictlySorted(SortedUnique(s, lt), lt)
    ensures forall i, j :: 0 <= i < j < |SortedUnique(s, lt)| ==> SortedUnique(s, lt)[i] != SortedUnique(s, lt)[j]
  {
    if s != [] {
      SortedUniqueSpec(s[1..], lt);
      InsertUniqueSorted(s[0], SortedUnique(s[1..], lt), lt);
    }
  }

  /** Python's `<` on strings. */
  predicate LexLess(a: string, b: string)
  {
    if a == [] then b != []
    else if b == [] then false
    else if a[0] != b[0] then a[0] < b[0]
    else LexLess(a[1..], b[1..])
  }

  lemma {:induction false} LexLessIrreflexive(a: string)
    ensures !LexLess(a, a)
  {
    if a != [] {
      LexLessIrreflexive(a[1..]);
    }
  }

  lemma {:induction false} LexLessTotal(a: string, b: string)
    ensures a != b ==> LexLess(a, b) || LexLess(b, a)
  {
    if a != [] && b != [] && a[0] == b[0] {
      LexLessTotal(a[1..], b[1..]);
      if a != b {
        assert a == [a[0]] + a[1..] && b == [b[0]] + b[1..];
      }
    }
  }

  lemma {:induction false} LexLessTransitive(a: string, b: string, c: string)
    ensures LexLess(a, b) && LexLess(b, c) ==> LexLess(a, c)
  {
    if a != [] && b != [] && c != [] {
      LexLessTransitive(a[1..], b[1..], c[1..]);
    }
  }

  lemma LexLessIsStrictTotalOrder()
    ensures IsStrictTotalOrder(LexLess)
  {
    forall a ensures !LexLess(a, a) {
      LexLessIrreflexive(a);
    }
    forall a, b ensures a != b ==> LexLess(a, b) || LexLess(b, a) {
      LexLessTotal(a, b);
    }
    forall a, b, c ensures LexLess(a, b) && LexLess(b, c) ==> LexLess(a, c) {
      LexLessTransitive(a, b, c);
    }
  }

  /** The order of `sorted(..., reverse=True)` on integers. */
  predicate Greater(a: int, b: int) { a > b }

  lemma GreaterIsStrictTotalOrder()
    ensures IsStrictTotalOrder(Greater)
  {
  }
}
