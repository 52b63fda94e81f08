/**
 * The row of page numbers that AdminListView.render_with_pagination offers
 * as navigation links. `numPages` comes from the paginator and `page` from
 * the `page` query parameter, so both are arbitrary integers here.
 */
module Pagination {

  /** Python's `range(lo, hi)`: lo, lo + 1, ..., hi - 1, and empty when hi <= lo. */
  function Range(lo: int, hi: int): (r: seq<int>)
    ensures |r| == if lo < hi then hi - lo else 0
    ensures forall i :: 0 <= i < |r| ==> r[i] == lo + i
    ensures forall x :: x in r <==> lo <= x < hi
    decreases hi - lo
  {
    if lo < hi then [lo] + Range(lo + 1, hi) else []
  }

  function Min(a: int, b: int): int
  {
    if a <= b then a else b
  }

  /** Each number is one more than the one before it. */
  predicate Consecutive(w: seq<int>)
  {
    forall i :: 0 <= i < |w| - 1 ==> w[i + 1] == w[i] + 1
  }

  /** Every number names an existing page. */
  predicate WithinPages(w: seq<int>, numPages: int)
  {
    forall i :: 0 <= i < |w| ==> 1 <= w[i] <= numPages
  }

  /** The window exactly as the view computes it. */
  function PageWindow(numPages: int, page: int): (w: seq<int>)
    ensures Consecutive(w) && WithinPages(w, numPages)
    ensures |w| <= 7
    ensures numPages <= 7 || page <= 4 ==> |w| <= 6
  {
    if numPages <= 7 || page <= 4 then Range(1, Min(numPages + 1, 7))
    else if page > numPages - 4 then Range(numPages - 6, numPages + 1)
    else Range(page - 3, page + 4)
  }

  /** Few pages, or a page near the start: the first min(numPages, 6) pages. */
  lemma FirstBlockWindow(numPages: int, page: int)
    requires numPages <= 7 || page <= 4
    ensures |PageWindow(numPages, page)| == if numPages <= 0 then 0 else Min(numPages, 6)
    ensures forall i :: 0 <= i < |PageWindow(numPages, page)| ==> PageWindow(numPages, page)[i] == i + 1
  {
  }

  /** Many pages and a page within four of the end: the last seven pages. */
  lemma LastBlockWindow(numPages: int, page: int)
    requires numPages > 7 && page > 4 && page > numPages - 4
    ensures |PageWindow(numPages, page)| == 7
    ensures PageWindow(numPages, page)[0] == numPages - 6
    ensures PageWindow(numPages, page)[6] == numPages
  {
  }

  /** Many pages and a page away from both ends: seven pages centred on it. */
  lemma CenteredWindow(numPages: int, page: int)
    requires numPages > 7 && 4 < page <= numPages - 4
    ensures |PageWindow(numPages, page)| == 7
    ensures PageWindow(numPages, page)[3] == page
    ensures PageWindow(numPages, page)[0] == page - 3
  {
  }

  /**
   * At page == numPages - 4 the code takes the centred branch (its test is
   * `page > numPages - 4`), not the last seven pages.
   */
  lemma BoundaryPageIsCentred(numPages: int)
    requires numPages > 8
    ensures PageWindow(numPages, numPages - 4)[0] == numPages - 7
    ensures PageWindow(numPages, numPages - 4)[6] == numPages - 1
    ensures numPages !in PageWindow(numPages, numPages - 4)
  {
  }

  /** With exactly seven pages every request shows pages one to six. */
  lemma SevenPagesWindow(page: int)
    ensures PageWindow(7, page) == [1, 2, 3, 4, 5, 6]
  {
  }

  /**
   * The current page is in the window for every existing page, except the
   * last page of a seven-page list.
   */
  lemma PageWindowContainsPage(numPages: int, page: int)
    requires 1 <= page <= numPages
    requires !(numPages == 7 && page == 7)
    ensures page in PageWindow(numPages, page)
  {
  }

  /** The page-7-of-7 counterexample: an existing current page missing from its own window. */
  lemma SevenPagesHideLastPage()
    ensures 7 !in PageWindow(7, 7)
  {
  }

  /**
   * The as-written window with the first branch's bound 7 raised to 8
   * (`range(1, min(num_pages + 1, 8))`): all pages when there are at most
   * seven, the first seven when the current page is at most 4. The other two
   * branches, including their boundary at page == numPages - 4, are kept.
   */
  function PageWindowIntended(numPages: int, page: int): (w: seq<int>)
    ensures Consecutive(w) && WithinPages(w, numPages)
    ensures |w| == if numPages <= 0 then 0 else Min(numPages, 7)
    ensures 1 <= page <= numPages ==> page in w
    ensures numPages <= 7 ==> forall p :: 1 <= p <= numPages ==> p in w
  {
    if numPages <= 7 || page <= 4 then Range(1, Min(numPages + 1, 8))
    else if page > numPages - 4 then Range(numPages - 6, numPages + 1)
    else Range(page - 3, page + 4)
  }

  /** The corrected window differs from the as-written one only in its first branch. */
  lemma IntendedAgreesAwayFromStart(numPages: int, page: int)
    requires numPages > 7 && page > 4
    ensures PageWindowIntended(numPages, page) == PageWindow(numPages, page)
  {
  }
}
