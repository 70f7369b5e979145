/** The previous/next (and first/last) buttons of the two pagers, in
    src/components/DocumentTable.jsx and src/components/SamplesPage.jsx,
    which disable them by the same rule. */
module Pager {
  /** Back (previous, first) is disabled only on page 1. */
  function CanGoBack(currentPage: int): bool {
    currentPage != 1
  }

  /** Forward (next, last) is disabled only on the last page. */
  function CanGoForward(currentPage: int, totalPages: int): bool {
    currentPage != totalPages
  }

  /** On a real page, each button is enabled exactly when the page it leads
      to exists. */
  lemma NeighbourExists(currentPage: int, totalPages: int)
    requires 1 <= currentPage <= totalPages
    ensures CanGoBack(currentPage) <==> 1 <= currentPage - 1
    ensures CanGoForward(currentPage, totalPages) <==> currentPage + 1 <= totalPages
  {
  }

  /** With no pages at all the pager still sits on page 1, and its forward
      button stays enabled, leading to page 2. */
  lemma NoPagesForwardEnabled(totalPages: int)
    requires totalPages == 0
    ensures CanGoForward(1, totalPages) && !CanGoBack(1)
  {
  }
}
