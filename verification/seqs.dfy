/** Sequence combinators behind the query-builder calls of the catalog models:
    `where` is a filter, `pluck` a projection, `first()` a first-match search.
    Result order is catalog order; nothing here sorts. */
module Seqs {
  import opened Wrappers

  /** `a` is obtained from `b` by deleting elements, keeping the rest in order. */
  ghost predicate IsSubsequence<T>(a: seq<T>, b: seq<T>)
    decreases |b|
  {
    if |a| == 0 then true
    else if |b| == 0 then false
    else (a[0] == b[0] && IsSubsequence(a[1..], b[1..])) || IsSubsequence(a, b[1..])
  }

  /** The rows of `s` that satisfy `keep`, in their original order and unaltered. */
  function Filter<T(==,!new)>(s: seq<T>, keep: T -> bool): (r: seq<T>)
    ensures forall x :: x in r <==> x in s && keep(x)
    ensures IsSubsequence(r, s)
    ensures |r| <= |s|
  {
    if |s| == 0 then []
    else if keep(s[0]) then [s[0]] + Filter(s[1..], keep)
    else Filter(s[1..], keep)
  }

  /** Filtering a second time with the same condition changes nothing. */
  lemma {:induction false} FilterIdempotent<T(!new)>(s: seq<T>, keep: T -> bool)
    ensures Filter(Filter(s, keep), keep) == Filter(s, keep)
  {
    if |s| > 0 {
      FilterIdempotent(s[1..], keep);
      if keep(s[0]) {
        var rest := Filter(s[1..], keep);
        assert ([s[0]] + rest)[1..] == rest;
      }
    }
  }

  /** Two conditions that agree on every row of `s` select the same rows. */
  lemma {:induction false} FilterCongruent<T(!new)>(s: seq<T>, p: T -> bool, q: T -> bool)
    requires forall x :: x in s ==> p(x) == q(x)
    ensures Filter(s, p) == Filter(s, q)
  {
    if |s| > 0 {
      assert s[0] in s;
      assert forall x :: x in s[1..] ==> x in s;
      FilterCongruent(s[1..], p, q);
    }
  }

  /** The values `f` extracts from the rows of `s`, rows yielding `None` skipped.
      Laravel's `pluck` keeps the `NULL`s, but a `NULL` inside `WHERE IN (...)`
      never matches, so only membership of the non-null values matters. */
  function Pluck<T(==,!new), U(==,!new)>(s: seq<T>, f: T -> Option<U>): (r: seq<U>)
    ensures forall y :: y in r <==> exists x :: x in s && f(x) == Some(y)
    ensures |r| <= |s|
  {
    if |s| == 0 then []
    else
      var rest := Pluck(s[1..], f);
      assert forall x :: x in s <==> x == s[0] || x in s[1..];
      match f(s[0])
      case Some(y) => [y] + rest
      case None => rest
  }

  /** `x` is the first row of `s` (in catalog order) that satisfies `p`. */
  ghost predicate IsFirst<T>(s: seq<T>, p: T -> bool, x: T) {
    exists i :: 0 <= i < |s| && s[i] == x && p(x) && forall j :: 0 <= j < i ==> !p(s[j])
  }

  /** Position of the first row of `s` satisfying `p`. */
  function FirstIndex<T>(s: seq<T>, p: T -> bool): (r: Option<nat>)
    ensures r.None? <==> forall i :: 0 <= i < |s| ==> !p(s[i])
    ensures r.Some? ==> r.value < |s| && p(s[r.value])
    ensures r.Some? ==> forall j :: 0 <= j < r.value ==> !p(s[j])
  {
    if |s| == 0 then None
    else if p(s[0]) then Some(0)
    else
      match FirstIndex(s[1..], p)
      case None => None
      case Some(i) => Some(i + 1)
  }

  /** `->first()`: the first row satisfying `p`, or `None` when no row does. */
  function First<T(==,!new)>(s: seq<T>, p: T -> bool): (r: Option<T>)
    ensures r.None? <==> forall x :: x in s ==> !p(x)
    ensures r.Some? ==> r.value in s && IsFirst(s, p, r.value)
  {
    match FirstIndex(s, p)
    case None => None
    case Some(i) => Some(s[i])
  }

  /** At most one row is the first match. */
  lemma FirstIsUnique<T>(s: seq<T>, p: T -> bool, x: T, y: T)
    requires IsFirst(s, p, x) && IsFirst(s, p, y)
    ensures x == y
  {
    var i :| 0 <= i < |s| && s[i] == x && p(x) && forall j :: 0 <= j < i ==> !p(s[j]);
    var k :| 0 <= k < |s| && s[k] == y && p(y) && forall j :: 0 <= j < k ==> !p(s[j]);
    assert !(i < k) && !(k < i);
  }
}
