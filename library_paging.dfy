/** The Library page's on-screen pagination over the filtered list: pages of
    twelve, a clamped current page, the page slice and the Prev/Next steps.
    The UI page is 1-based. */
module LibraryPaging {
  import opened Arith

  /** Rows per UI page, which is also the backend fetch size. */
  const PageSize: nat := 12

  /** How many page buttons the pager shows at most. */
  const MaxPageButtons: nat := 5

  /** `Math.max(1, Math.ceil(n / pageSize))`: the fewest pages of twelve
      that hold `n` items, and never fewer than one. */
  function TotalPages(n: nat): (t: nat)
    ensures t >= 1
    ensures n <= t * PageSize
    ensures n > 0 ==> (t - 1) * PageSize < n
    ensures n == 0 ==> t == 1
  {
    Max(1, CeilDiv(n, PageSize))
  }

  /** `Math.min(uiPage, totalPages)`: the requested page, clamped to the
      last page. */
  function CurrentPage(uiPage: int, n: nat): (p: int)
    requires uiPage >= 1
    ensures 1 <= p <= TotalPages(n)
    ensures p == uiPage || (uiPage > TotalPages(n) && p == TotalPages(n))
  {
    Min(uiPage, TotalPages(n))
  }

  /** `filteredItems.slice(start, start + pageSize)` for the current page. */
  function PageSlice<T>(filtered: seq<T>, uiPage: int): (r: seq<T>)
    requires uiPage >= 1
    ensures |r| <= PageSize
    ensures r == [] <==> filtered == []
    ensures var start := (CurrentPage(uiPage, |filtered|) - 1) * PageSize;
      start + |r| <= |filtered| &&
      (start + PageSize <= |filtered| ==> |r| == PageSize) &&
      (start + PageSize > |filtered| ==> start + |r| == |filtered|) &&
      forall k :: 0 <= k < |r| ==> r[k] == filtered[start + k]
  {
    var start := (CurrentPage(uiPage, |filtered|) - 1) * PageSize;
    filtered[start..Min(start + PageSize, |filtered|)]
  }

  /** The Prev button: `Math.max(1, p - 1)`. */
  function Prev(p: int): (q: int)
    ensures q >= 1
    ensures p >= 1 ==> q <= p
    ensures p > 1 ==> q == p - 1
  {
    Max(1, p - 1)
  }

  /** The Next button: `Math.min(totalPages, p + 1)`. */
  function Next(p: int, totalPages: nat): (q: int)
    ensures q <= totalPages
    ensures p <= q || p > totalPages
    ensures p < totalPages ==> q == p + 1
  {
    Min(totalPages, p + 1)
  }

  /** The number of numbered page buttons: the first five pages at most. */
  function PageButtons(n: nat): (b: nat)
    ensures 1 <= b <= MaxPageButtons
    ensures b <= TotalPages(n)
    ensures TotalPages(n) <= MaxPageButtons ==> b == TotalPages(n)
    ensures TotalPages(n) >= MaxPageButtons ==> b == MaxPageButtons
  {
    Min(MaxPageButtons, TotalPages(n))
  }

  /** Prev and Next never take a page in `[1, totalPages]` out of it, and
      they undo each other away from the ends. */
  lemma NavigationStaysInRange(p: int, totalPages: nat)
    requires 1 <= p <= totalPages
    ensures 1 <= Prev(p) <= totalPages
    ensures 1 <= Next(p, totalPages) <= totalPages
    ensures p < totalPages ==> Prev(Next(p, totalPages)) == p
    ensures p > 1 ==> Next(Prev(p), totalPages) == p
  {
  }

  /** The pages 1 .. `last`, concatenated. */
  function PagesUpTo<T>(filtered: seq<T>, last: nat): seq<T> {
    if last == 0 then [] else PagesUpTo(filtered, last - 1) + PageSlice(filtered, last)
  }

  /** The first `last` pages are the first `last * 12` items (or all of
      them when there are fewer). */
  lemma {:induction false} PagesUpToPrefix<T>(filtered: seq<T>, last: nat)
    requires last <= TotalPages(|filtered|)
    ensures PagesUpTo(filtered, last) == filtered[..Min(last * PageSize, |filtered|)]
  {
    if last > 0 {
      PagesUpToPrefix(filtered, last - 1);
      var start := (last - 1) * PageSize;
      assert CurrentPage(last, |filtered|) == last;
      assert Min((last - 1) * PageSize, |filtered|) == start;
      var page := PageSlice(filtered, last);
      assert page == filtered[start..Min(last * PageSize, |filtered|)];
      assert filtered[..start] + filtered[start..Min(last * PageSize, |filtered|)] ==
        filtered[..Min(last * PageSize, |filtered|)];
    }
  }

  /** Paging loses nothing and repeats nothing: the pages, in order, put
      together give back the whole filtered list. */
  lemma PagesPartition<T>(filtered: seq<T>)
    ensures PagesUpTo(filtered, TotalPages(|filtered|)) == filtered
  {
    PagesUpToPrefix(filtered, TotalPages(|filtered|));
    assert filtered[..|filtered|] == filtered;
  }
}
