/** Generic building blocks of the model: an optional value, order-preserving
    filtering and lookup over the rows of a table, and pairwise row invariants
    (unique keys, increasing ids) together with the operations that keep them. */
module Basics {

  datatype Option<+T> = None | Some(value: T)

  /** The rows of `s` that satisfy `p`, in their original order (a list
      comprehension, or a DELETE that keeps the rows not matching). */
  function Keep<T(!new)>(s: seq<T>, p: T -> bool): (r: seq<T>)
    ensures |r| <= |s|
    ensures forall x :: x in r <==> x in s && p(x)
  {
    if s == [] then [] else (if p(s[0]) then [s[0]] else []) + Keep(s[1..], p)
  }

  /** Keeping commutes with concatenation: the filter preserves order. */
  lemma {:induction false} KeepAppend<T(!new)>(a: seq<T>, b: seq<T>, p: T -> bool)
    ensures Keep(a + b, p) == Keep(a, p) + Keep(b, p)
  {
    if a == [] {
      assert a + b == b;
    } else {
      assert (a + b)[1..] == a[1..] + b;
      KeepAppend(a[1..], b, p);
    }
  }

  /** Two complementary filters share the rows between them. */
  lemma {:induction false} KeepSplit<T(!new)>(s: seq<T>, p: T -> bool, q: T -> bool)
    requires forall x :: q(x) == !p(x)
    ensures |Keep(s, p)| + |Keep(s, q)| == |s|
  {
    if s != [] {
      KeepSplit(s[1..], p, q);
    }
  }

  /** Position of the first row satisfying `p` (a `.first()` query). */
  function FirstIndex<T>(s: seq<T>, p: T -> bool): (r: Option<nat>)
    ensures r.None? <==> forall i :: 0 <= i < |s| ==> !p(s[i])
    ensures r.Some? ==> r.value < |s| && p(s[r.value])
    ensures r.Some? ==> forall i :: 0 <= i < r.value ==> !p(s[i])
  {
    if s == [] then None
    else if p(s[0]) then Some(0)
    else match FirstIndex(s[1..], p)
      case None => None
      case Some(k) => Some(k + 1)
  }

  /** `rel` holds of every pair of rows in table order. */
  ghost predicate Pairwise<T>(s: seq<T>, rel: (T, T) -> bool)
  {
    forall i, j :: 0 <= i < j < |s| ==> rel(s[i], s[j])
  }

  /** The rows after the first keep the invariant, and the first row is
      related to each of them. */
  lemma PairwiseTail<T>(s: seq<T>, rel: (T, T) -> bool)
    requires Pairwise(s, rel) && s != []
    ensures Pairwise(s[1..], rel)
    ensures forall y :: y in s[1..] ==> rel(s[0], y)
  {
    var tail := s[1..];
    forall i, j | 0 <= i < j < |tail| ensures rel(tail[i], tail[j]) {
      assert tail[i] == s[i + 1] && tail[j] == s[j + 1];
    }
    forall y | y in tail ensures rel(s[0], y) {
      var k :| 0 <= k < |tail| && tail[k] == y;
      assert s[k + 1] == y;
    }
  }

  /** A row related to every row of a table can be put in front of it. */
  lemma PairwiseCons<T>(x: T, r: seq<T>, rel: (T, T) -> bool)
    requires Pairwise(r, rel)
    requires forall y :: y in r ==> rel(x, y)
    ensures Pairwise([x] + r, rel)
  {
    var xr := [x] + r;
    forall i, j | 0 <= i < j < |xr| ensures rel(xr[i], xr[j]) {
      assert xr[j] == r[j - 1];
      if i == 0 {
        assert r[j - 1] in r;
      } else {
        assert xr[i] == r[i - 1];
      }
    }
  }

  /** Deleting rows keeps a pairwise invariant. */
  lemma {:induction false} KeepPairwise<T(!new)>(s: seq<T>, p: T -> bool, rel: (T, T) -> bool)
    requires Pairwise(s, rel)
    ensures Pairwise(Keep(s, p), rel)
  {
    if s != [] {
      PairwiseTail(s, rel);
      KeepPairwise(s[1..], p, rel);
      if p(s[0]) {
        PairwiseCons(s[0], Keep(s[1..], p), rel);
      } else {
        assert Keep(s, p) == Keep(s[1..], p);
      }
    }
  }

  /** Appending a row that is related to every existing row keeps the invariant. */
  lemma PairwiseAppend<T>(s: seq<T>, x: T, rel: (T, T) -> bool)
    requires Pairwise(s, rel)
    requires forall i :: 0 <= i < |s| ==> rel(s[i], x)
    ensures Pairwise(s + [x], rel)
  {
    var r := s + [x];
    forall i, j | 0 <= i < j < |r| ensures rel(r[i], r[j]) {
      if j == |s| {
        assert r[i] == s[i] && r[j] == x;
      } else {
        assert r[i] == s[i] && r[j] == s[j];
      }
    }
  }

  /** Replacing a row by one related to the others exactly as the old row was. */
  lemma PairwiseReplace<T>(s: seq<T>, k: nat, x: T, rel: (T, T) -> bool)
    requires Pairwise(s, rel) && k < |s|
    requires forall i :: 0 <= i < k ==> rel(s[i], x)
    requires forall j :: k < j < |s| ==> rel(x, s[j])
    ensures Pairwise(s[k := x], rel)
  {
  }

  /** Removing one row keeps the invariant. */
  lemma PairwiseRemove<T>(s: seq<T>, k: nat, rel: (T, T) -> bool)
    requires Pairwise(s, rel) && k < |s|
    ensures Pairwise(s[..k] + s[k + 1..], rel)
  {
    var r := s[..k] + s[k + 1..];
    forall i, j | 0 <= i < j < |r| ensures rel(r[i], r[j]) {
      var i' := if i < k then i else i + 1;
      var j' := if j < k then j else j + 1;
      assert r[i] == s[i'] && r[j] == s[j'];
    }
  }
}
