/** Pagination of search results: the remote service returns ten results a
    page and serves at most one hundred pages. */
module Pager {

  const PageSize: nat := 10
  const PageLimit: nat := 100

  /** The last page the pager lets the user reach: the number of pages of
      ten results, rounded up, at least one and at most one hundred. */
  function MaxPage(total: nat): (m: nat)
    ensures 1 <= m <= PageLimit
    ensures total == 0 ==> m == 1
    ensures total > 0 && m < PageLimit ==> (m - 1) * PageSize < total <= m * PageSize
    ensures total > 0 ==> (m == PageLimit <==> total > (PageLimit - 1) * PageSize)
  {
    var pages := (total + PageSize - 1) / PageSize;
    var nonZero := if pages == 0 then 1 else pages;
    if PageLimit < nonZero then PageLimit else nonZero
  }

  /** What `setPager` writes into the page label and the two buttons. */
  datatype PagerView = PagerView(shownPage: int, prevDisabled: bool, nextDisabled: bool)

  function SetPager(page: int, total: nat): (v: PagerView)
    ensures v.shownPage == page
    ensures v.prevDisabled <==> page <= 1
    ensures v.nextDisabled <==> page >= MaxPage(total)
  {
    PagerView(page, page <= 1, page >= MaxPage(total))
  }

  /** "Next" is enabled exactly when results remain beyond the current page
      and the page limit has not been reached. */
  lemma NextEnabledIffMoreResults(page: int, total: nat)
    requires page >= 1
    ensures !SetPager(page, total).nextDisabled <==> page < PageLimit && page * PageSize < total
  {
    var m := MaxPage(total);
    if total > 0 && m < PageLimit {
      if page < m {
        assert page * PageSize <= (m - 1) * PageSize;
      } else {
        assert page * PageSize >= m * PageSize;
      }
    } else if total > 0 && page < PageLimit {
      assert page * PageSize <= (PageLimit - 1) * PageSize;
    }
  }

  /** With no results there is one page and both buttons are disabled. */
  lemma EmptyDisablesBoth(page: int)
    requires page >= 1
    ensures SetPager(page, 0).nextDisabled
    ensures SetPager(page, 0).prevDisabled <==> page == 1
  {
  }

  /** Following an enabled "next" never leaves the reachable pages. */
  lemma NextStaysInRange(page: int, total: nat)
    requires !SetPager(page, total).nextDisabled
    ensures page + 1 <= MaxPage(total) <= PageLimit
  {
  }
}
