/** Failure-carrying results shared by every module of the model.
    Python raises an exception (msgs.error, KeyError, IndexError, ValueError,
    AssertionError); the model returns Err with a short description instead. */
module Common {

  datatype Option<+T> = None | Some(value: T)

  datatype Result<+T> = Ok(value: T) | Err(msg: string) {
    predicate IsFailure() { Err? }

    function PropagateFailure<U>(): Result<U>
      requires Err?
    {
      Err(msg)
    }

    function Extract(): T
      requires Ok?
    {
      value
    }
  }

  /** Python's `xs[i]` on a list: negative indices count from the end. */
  function PyIndex<T>(xs: seq<T>, i: int): (r: Result<T>)
    ensures 0 <= i < |xs| ==> r == Ok(xs[i])
    ensures -|xs| <= i < 0 ==> r == Ok(xs[|xs| + i])
    ensures r.Ok? <==> -|xs| <= i < |xs|
  {
    if 0 <= i < |xs| then Ok(xs[i])
    else if -|xs| <= i < 0 then Ok(xs[|xs| + i])
    else Err("IndexError: list index out of range")
  }

  /** True when no element occurs twice. */
  predicate NoDup<T(==)>(xs: seq<T>) {
    forall i, j :: 0 <= i < j < |xs| ==> xs[i] != xs[j]
  }

  /** The distinct elements of `xs` in order of first appearance. */
  function Dedup<T(==)>(xs: seq<T>): seq<T>
  {
    if |xs| == 0 then []
    else
      var d := Dedup(xs[..|xs| - 1]);
      var x := xs[|xs| - 1];
      if x in d then d else d + [x]
  }

  /** `Dedup` keeps exactly the elements of `xs`. */
  lemma {:induction false} DedupMembers<T>(xs: seq<T>)
    ensures forall x :: x in Dedup(xs) <==> x in xs
  {
    if |xs| > 0 {
      var p := xs[..|xs| - 1];
      DedupMembers(p);
      assert xs == p + [xs[|xs| - 1]];
    }
  }

  /** `Dedup` keeps each element once. */
  lemma {:induction false} DedupNoDup<T>(xs: seq<T>)
    ensures NoDup(Dedup(xs))
  {
    if |xs| > 0 {
      DedupNoDup(xs[..|xs| - 1]);
    }
  }

  /** Position of the first occurrence of `x` in `xs`. */
  function First<T(==)>(xs: seq<T>, x: T): (k: nat)
    requires x in xs
    ensures k < |xs| && xs[k] == x && forall j :: 0 <= j < k ==> xs[j] != x
  {
    var p := xs[..|xs| - 1];
    assert xs == p + [xs[|xs| - 1]];
    if x in p then First(p, x) else |xs| - 1
  }

  /** A position holding `x` with no `x` before it is the first occurrence. */
  lemma {:induction false} FirstUnique<T>(xs: seq<T>, x: T, k: nat)
    requires k < |xs| && xs[k] == x && forall j :: 0 <= j < k ==> xs[j] != x
    ensures First(xs, x) == k
  {
    var p := xs[..|xs| - 1];
    if k < |xs| - 1 {
      assert p[k] == x;
      FirstUnique(p, x, k);
    } else {
      assert forall j :: 0 <= j < |p| ==> p[j] != x;
    }
  }

  lemma NoDupFirst<T>(xs: seq<T>, p: nat)
    requires NoDup(xs) && p < |xs|
    ensures First(xs, xs[p]) == p
  {
    FirstUnique(xs, xs[p], p);
  }

  /** `Dedup` lists the distinct elements in the order of their first occurrences. */
  lemma {:induction false} DedupOrder<T>(xs: seq<T>)
    ensures forall x :: x in Dedup(xs) <==> x in xs
    ensures forall i, j :: 0 <= i < j < |Dedup(xs)| ==> First(xs, Dedup(xs)[i]) < First(xs, Dedup(xs)[j])
  {
    DedupMembers(xs);
    if |xs| > 0 {
      var n := |xs| - 1;
      var p := xs[..n];
      var d := Dedup(p);
      var x := xs[n];
      DedupOrder(p);
      var e := Dedup(xs);
      assert e == if x in d then d else d + [x];
      forall i, j | 0 <= i < j < |e|
        ensures First(xs, e[i]) < First(xs, e[j])
      {
        DedupAt(p, i);
        FirstPrefix(xs, d[i]);
        if j < |d| {
          DedupAt(p, j);
          FirstPrefix(xs, d[j]);
        } else {
          assert e[j] == x && x !in p;
          FirstLast(xs);
        }
      }
    }
  }

  lemma DedupAt<T>(p: seq<T>, i: nat)
    requires i < |Dedup(p)|
    ensures Dedup(p)[i] in p
  {
    DedupMembers(p);
    assert Dedup(p)[i] in Dedup(p);
  }

  /** An element of all but the last place is first found there. */
  lemma FirstPrefix<T>(xs: seq<T>, y: T)
    requires |xs| > 0 && y in xs[..|xs| - 1]
    ensures y in xs && First(xs, y) == First(xs[..|xs| - 1], y) < |xs| - 1
  {
    assert xs == xs[..|xs| - 1] + [xs[|xs| - 1]];
  }

  /** An element found only in the last place is first found there. */
  lemma FirstLast<T>(xs: seq<T>)
    requires |xs| > 0 && xs[|xs| - 1] !in xs[..|xs| - 1]
    ensures First(xs, xs[|xs| - 1]) == |xs| - 1
  {
  }
}
