/**
 * Sequence operations the query layer is built from: a table is a sequence of
 * rows, a queryset filter keeps the rows a predicate accepts (in table order),
 * and a lookup finds a row by a predicate.
 */
module Seqs {
  import opened Wrappers

  function Min(a: int, b: int): int { if a < b then a else b }

  /** The elements of `s` that `keep` accepts, in their order in `s`. */
  function Filter<T(!new)>(s: seq<T>, keep: T -> bool): (r: seq<T>)
    ensures |r| <= |s|
    ensures forall x :: x in r <==> x in s && keep(x)
  {
    if |s| == 0 then []
    else if keep(s[0]) then [s[0]] + Filter(s[1..], keep)
    else Filter(s[1..], keep)
  }

  /** The index of the first element of `s` that `p` accepts, if any. */
  function Find<T(!new)>(s: seq<T>, p: T -> bool): (r: Option<nat>)
    ensures r.Some? ==> r.value < |s| && p(s[r.value])
    ensures r.Some? ==> forall i :: 0 <= i < r.value ==> !p(s[i])
    ensures r.None? ==> forall x :: x in s ==> !p(x)
  {
    if |s| == 0 then None
    else if p(s[0]) then Some(0)
    else match Find(s[1..], p)
      case None => None
      case Some(i) => Some(i + 1)
  }

  /** `R` holds of every two elements, taken in their order in `s`. */
  ghost predicate Pairwise<T>(s: seq<T>, R: (T, T) -> bool) {
    forall i, j :: 0 <= i < j < |s| ==> R(s[i], s[j])
  }

  /** Filtering keeps the relative order of what it keeps. */
  lemma {:induction false} FilterPairwise<T(!new)>(s: seq<T>, keep: T -> bool, R: (T, T) -> bool)
    ensures Pairwise(s, R) ==> Pairwise(Filter(s, keep), R)
  {
    if |s| > 0 && Pairwise(s, R) {
      var rest := Filter(s[1..], keep);
      assert Pairwise(s[1..], R) by {
        forall i, j | 0 <= i < j < |s[1..]| ensures R(s[1..][i], s[1..][j]) {
          assert s[1..][i] == s[i + 1] && s[1..][j] == s[j + 1];
        }
      }
      FilterPairwise(s[1..], keep, R);
      if keep(s[0]) {
        forall y | y in rest ensures R(s[0], y) {
          var k :| 0 <= k < |s[1..]| && s[1..][k] == y;
          assert s[k + 1] == y;
        }
        PairwisePrepend(s[0], rest, R);
      }
    }
  }

  lemma PairwiseTail<T>(s: seq<T>, R: (T, T) -> bool)
    requires |s| > 0 && Pairwise(s, R)
    ensures Pairwise(s[1..], R)
    ensures forall y :: y in s[1..] ==> R(s[0], y)
  {
  }

  lemma PairwisePrepend<T>(x: T, s: seq<T>, R: (T, T) -> bool)
    requires Pairwise(s, R)
    requires forall y :: y in s ==> R(x, y)
    ensures Pairwise([x] + s, R)
  {
  }

  lemma PairwiseAppend<T>(s: seq<T>, x: T, R: (T, T) -> bool)
    requires Pairwise(s, R)
    requires forall y :: y in s ==> R(y, x)
    ensures Pairwise(s + [x], R)
  {
  }

  /** Filtering a sequence extended by one element. */
  lemma {:induction false} FilterAppend<T(!new)>(s: seq<T>, x: T, keep: T -> bool)
    ensures Filter(s + [x], keep) == Filter(s, keep) + (if keep(x) then [x] else [])
  {
    if |s| > 0 {
      assert (s + [x])[1..] == s[1..] + [x];
      FilterAppend(s[1..], x, keep);
    } else {
      assert s + [x] == [x];
    }
  }

  /** A filter that accepts every element returns the sequence unchanged. */
  lemma {:induction false} FilterKeepsAll<T(!new)>(s: seq<T>, keep: T -> bool)
    requires forall x :: x in s ==> keep(x)
    ensures Filter(s, keep) == s
  {
    if |s| > 0 {
      assert forall x :: x in s[1..] ==> x in s;
      FilterKeepsAll(s[1..], keep);
      assert [s[0]] + s[1..] == s;
    }
  }

  /** A filter keeps every copy of an element it accepts and no copy of one it rejects. */
  lemma {:induction false} FilterMultiplicity<T(!new)>(s: seq<T>, keep: T -> bool, x: T)
    ensures multiset(Filter(s, keep))[x] == if keep(x) then multiset(s)[x] else 0
  {
    if |s| > 0 {
      FilterMultiplicity(s[1..], keep, x);
      assert s == [s[0]] + s[1..];
      assert multiset(s) == multiset{s[0]} + multiset(s[1..]);
    }
  }

  /** FilterMultiplicity for every element at once. */
  lemma FilterCounts<T(!new)>(s: seq<T>, keep: T -> bool)
    ensures forall x :: multiset(Filter(s, keep))[x] == if keep(x) then multiset(s)[x] else 0
  {
    forall x {
      FilterMultiplicity(s, keep, x);
    }
  }

  /** In a sequence whose elements are pairwise different, nothing occurs twice. */
  lemma {:induction false} DistinctOccursOnce<T>(s: seq<T>, R: (T, T) -> bool, x: T)
    requires Pairwise(s, R)
    requires forall a, b :: R(a, b) ==> a != b
    ensures multiset(s)[x] <= 1
  {
    if |s| > 0 {
      assert Pairwise(s[1..], R) by {
        forall i, j | 0 <= i < j < |s[1..]| ensures R(s[1..][i], s[1..][j]) {
          assert s[1..][i] == s[i + 1] && s[1..][j] == s[j + 1];
        }
      }
      DistinctOccursOnce(s[1..], R, x);
      assert s == [s[0]] + s[1..];
      assert multiset(s) == multiset{s[0]} + multiset(s[1..]);
      if s[0] == x {
        forall k | 0 <= k < |s[1..]| ensures s[1..][k] != x {
          assert R(s[0], s[k + 1]);
        }
        assert x !in s[1..];
      }
    }
  }
}
