/** Optional values and tagged outcomes shared by every module of the model. */
module Wrappers {

  /** A value that may be absent: Java's `null` and `Optional.empty()`. */
  datatype Option<+T> = None | Some(value: T) {
    /** The value, or `default` when absent (Java's `x == null ? default : x`). */
    function GetOr(default: T): T {
      match this
      case Some(v) => v
      case None => default
    }
  }

  /** The outcome of an operation that the source ends by returning or by throwing. */
  datatype Result<+T, +E> = Ok(value: T) | Err(error: E)

  /** The elements of `s` that satisfy `keep`, in their original order. */
  function Filter<T(!new)>(s: seq<T>, keep: T -> bool): (r: seq<T>)
    ensures |r| <= |s|
    ensures forall x :: x in r <==> x in s && keep(x)
    ensures forall i :: 0 <= i < |r| ==> keep(r[i])
    ensures forall x :: multiset(r)[x] == if keep(x) then multiset(s)[x] else 0
  {
    if s == [] then []
    else
      var rest := Filter(s[1..], keep);
      assert s == [s[0]] + s[1..];
      if keep(s[0]) then [s[0]] + rest else rest
  }

  /** When exactly one element satisfies `keep`, the filter yields that element alone. */
  lemma {:induction false} FilterSingle<T(!new)>(s: seq<T>, keep: T -> bool, i: int)
    requires 0 <= i < |s| && keep(s[i])
    requires forall j :: 0 <= j < |s| && j != i ==> !keep(s[j])
    ensures Filter(s, keep) == [s[i]]
  {
    if i == 0 {
      assert forall x :: x in s[1..] ==> !keep(x);
    } else {
      assert !keep(s[0]);
      FilterSingle(s[1..], keep, i - 1);
    }
  }
}
