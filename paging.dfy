/**
 * Page slicing as the list views use it (posts/views.py): a Paginator over a
 * list with a fixed page size, asked for one page by its 1-based number.
 * Only page numbers within the paginator's range are modelled.
 */
module Paging {
  import opened Seqs

  /** Page size of the index view. */
  const IndexPageSize: nat := 10
  /** Page size of the group, profile and follow-feed views. */
  const PageSize: nat := 5

  /**
   * The paginator's page count: one page for an empty list (the empty first
   * page is allowed), otherwise the least number of pages that holds every item.
   */
  function NumPages(count: nat, size: nat): (n: nat)
    requires size > 0
    ensures n >= 1
    ensures count == 0 ==> n == 1
    ensures count <= n * size
    ensures count == 0 || (n - 1) * size < count
  {
    if count <= size then 1 else 1 + NumPages(count - size, size)
  }

  /** Page `k` exists. */
  predicate InRange(count: nat, size: nat, k: nat)
    requires size > 0
  {
    1 <= k <= NumPages(count, size)
  }

  lemma MulMonotonic(a: nat, b: nat, c: nat)
    requires a <= b
    ensures a * c <= b * c
  {
  }

  /** The first item of an existing page is an item of the list, or the list is empty. */
  lemma PageStart(count: nat, size: nat, k: nat)
    requires size > 0 && InRange(count, size, k)
    ensures (k - 1) * size <= count
    ensures count > 0 ==> (k - 1) * size < count
  {
  }

  /** Page `k` of `s`: the items at positions (k-1)*size up to, not including, min(k*size, |s|). */
  function Page<T>(s: seq<T>, size: nat, k: nat): (page: seq<T>)
    requires size > 0 && InRange(|s|, size, k)
    ensures |page| == Min(size, |s| - (k - 1) * size)
    ensures forall i :: 0 <= i < |page| ==> page[i] == s[(k - 1) * size + i]
  {
    PageStart(|s|, size, k);
    s[(k - 1) * size .. Min(k * size, |s|)]
  }

  /** Every item of the list is on exactly the page its position says, at its offset there. */
  lemma ItemOnItsPage<T>(s: seq<T>, size: nat, i: nat)
    requires size > 0 && i < |s|
    ensures InRange(|s|, size, i / size + 1)
    ensures i % size < |Page(s, size, i / size + 1)|
    ensures Page(s, size, i / size + 1)[i % size] == s[i]
  {
    var k, n := i / size + 1, NumPages(|s|, size);
    assert (k - 1) * size + i % size == i;
    if k > n {
      MulMonotonic(n, k - 1, size);
      assert false;
    }
  }

  /** Every existing page holds at most `size` items, and all pages but the last hold exactly `size`. */
  lemma PageIsFull<T>(s: seq<T>, size: nat, k: nat)
    requires size > 0 && InRange(|s|, size, k)
    ensures |Page(s, size, k)| <= size
    ensures k < NumPages(|s|, size) ==> |Page(s, size, k)| == size
  {
    if k < NumPages(|s|, size) {
      MulMonotonic(k, NumPages(|s|, size) - 1, size);
    }
  }

  /** A page keeps any relation its list keeps between earlier and later items, such as newest-first order. */
  lemma PageKeepsPairwise<T>(s: seq<T>, size: nat, k: nat, R: (T, T) -> bool)
    requires size > 0 && InRange(|s|, size, k)
    ensures Pairwise(s, R) ==> Pairwise(Page(s, size, k), R)
  {
    var page := Page(s, size, k);
    if Pairwise(s, R) {
      forall i, j | 0 <= i < j < |page| ensures R(page[i], page[j]) {
        assert page[i] == s[(k - 1) * size + i] && page[j] == s[(k - 1) * size + j];
      }
    }
  }

  /** The first page of a list is its prefix of (at most) `size` items. */
  lemma FirstPageIsPrefix<T>(s: seq<T>, size: nat)
    requires size > 0
    ensures InRange(|s|, size, 1)
    ensures Page(s, size, 1) == s[..Min(size, |s|)]
  {
  }

  /** Sixteen posts on the index: a full first page of ten and a second page of six. */
  lemma SixteenPostsOnTheIndex<T>(s: seq<T>)
    requires |s| == 16
    ensures NumPages(|s|, IndexPageSize) == 2
    ensures |Page(s, IndexPageSize, 1)| == 10 && |Page(s, IndexPageSize, 2)| == 6
  {
  }

  /** Eleven posts in a group: the first page shows the first five. */
  lemma ElevenPostsInAGroup<T>(s: seq<T>)
    requires |s| == 11
    ensures NumPages(|s|, PageSize) == 3
    ensures Page(s, PageSize, 1) == s[..5]
  {
  }
}
