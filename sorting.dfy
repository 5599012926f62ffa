/** Stable insertion sort over a caller-supplied order, used for `list.sort()`
    on file names and for the median that `np.median` takes of a trace width. */
module Sorting {

  /** `le` is a total preorder: any two elements compare, and comparison chains. */
  ghost predicate TotalOrder<T(!new)>(le: (T, T) -> bool) {
    (forall a, b :: le(a, b) || le(b, a)) &&
    (forall a, b, c :: le(a, b) && le(b, c) ==> le(a, c))
  }

  predicate Sorted<T>(s: seq<T>, le: (T, T) -> bool) {
    forall i, j :: 0 <= i < j < |s| ==> le(s[i], s[j])
  }

  /** Places `x` before the first element it does not follow. */
  function Insert<T>(x: T, s: seq<T>, le: (T, T) -> bool): (r: seq<T>)
    ensures multiset(r) == multiset(s) + multiset{x}
    ensures |r| == |s| + 1
  {
    if |s| == 0 then [x]
    else if le(x, s[0]) then [x] + s
    else
      assert s == [s[0]] + s[1..];
      [s[0]] + Insert(x, s[1..], le)
  }

  function SortBy<T>(s: seq<T>, le: (T, T) -> bool): (r: seq<T>)
    ensures multiset(r) == multiset(s)
    ensures |r| == |s|
  {
    if |s| == 0 then []
    else
      assert s == [s[0]] + s[1..];
      Insert(s[0], SortBy(s[1..], le), le)
  }

  lemma {:induction false} InsertSorted<T(!new)>(x: T, s: seq<T>, le: (T, T) -> bool)
    requires TotalOrder(le) && Sorted(s, le)
    ensures Sorted(Insert(x, s, le), le)
  {
    if |s| > 0 && !le(x, s[0]) {
      InsertSorted(x, s[1..], le);
      var t := Insert(x, s[1..], le);
      assert le(s[0], x);
      forall k | 0 <= k < |t| ensures le(s[0], t[k]) {
        assert t[k] in multiset(t);
        assert t[k] in multiset(s[1..]) + multiset{x};
        if t[k] != x {
          assert t[k] in multiset(s[1..]);
          var j :| 0 <= j < |s[1..]| && s[1..][j] == t[k];
          assert s[j + 1] == t[k];
        }
      }
    }
  }

  /** The sorted sequence is ordered (and, by the contract of `SortBy`, a permutation). */
  lemma {:induction false} SortBySorted<T(!new)>(s: seq<T>, le: (T, T) -> bool)
    requires TotalOrder(le)
    ensures Sorted(SortBy(s, le), le)
    ensures multiset(SortBy(s, le)) == multiset(s)
  {
    if |s| > 0 {
      SortBySorted(s[1..], le);
      InsertSorted(s[0], SortBy(s[1..], le), le);
    }
  }

  // ---------------------------------------------------------------- numbers

  function RealLe(a: real, b: real): bool { a <= b }

  lemma RealLeTotal()
    ensures TotalOrder(RealLe)
  {
  }

  /** `np.median` of a non-empty vector: the middle of the sorted values, or
      the mean of the two middle ones for an even count. */
  function Median(xs: seq<real>): real
    requires |xs| >= 1
  {
    var s := SortBy(xs, RealLe);
    var n := |s|;
    if n % 2 == 1 then s[n / 2] else (s[n / 2 - 1] + s[n / 2]) / 2.0
  }

  /** The median lies between two values of the vector. */
  lemma MedianBetween(xs: seq<real>)
    requires |xs| >= 1
    ensures exists i :: 0 <= i < |xs| && xs[i] <= Median(xs)
    ensures exists i :: 0 <= i < |xs| && Median(xs) <= xs[i]
  {
    var s := SortBy(xs, RealLe);
    RealLeTotal();
    SortBySorted(xs, RealLe);
    var n := |s|;
    var lo := if n % 2 == 1 then n / 2 else n / 2 - 1;
    assert s[lo] <= Median(xs) <= s[n / 2];
    assert s[lo] in multiset(xs) && s[n / 2] in multiset(xs);
    var i :| 0 <= i < |xs| && xs[i] == s[lo];
    var j :| 0 <= j < |xs| && xs[j] == s[n / 2];
  }

  /** A constant vector has that constant as its median. */
  lemma MedianConstant(xs: seq<real>, c: real)
    requires |xs| >= 1 && forall i :: 0 <= i < |xs| ==> xs[i] == c
    ensures Median(xs) == c
  {
    var s := SortBy(xs, RealLe);
    forall k | 0 <= k < |s| ensures s[k] == c {
      assert s[k] in multiset(xs);
    }
  }
}
