/**
 * Server-side pagination arithmetic (app.js fetchData and updatePaginationUI):
 * the offset a page is requested at and the two pager flags computed from a
 * returned page.
 */
module Paging {
  /** `(currentPage - 1) * pageSize`: the index of the first record of a page. */
  function Offset(page: int, size: int): int {
    (page - 1) * size
  }

  /**
   * Pages are consecutive windows of `size` records: page 1 starts at 0,
   * every page starts where the previous one ends, and no offset is negative.
   * Plain arithmetic on the offset formula.
   */
  lemma OffsetWindows(page: int, size: int)
    requires page >= 1 && size >= 1
    ensures Offset(1, size) == 0
    ensures Offset(page + 1, size) == Offset(page, size) + size
    ensures Offset(page, size) >= 0
  {
  }

  /**
   * Distinct pages ask for disjoint windows: a later page starts after an
   * earlier one ends. Plain arithmetic: the gap between the two offsets is
   * (p2 - p1) * size.
   */
  lemma LaterPagesStartLater(p1: int, p2: int, size: int)
    requires 1 <= p1 < p2 && size >= 1
    ensures Offset(p1, size) + size <= Offset(p2, size)
  {
    assert Offset(p2, size) - Offset(p1, size) == (p2 - p1) * size;
    assert (p2 - p1 - 1) * size >= 0;
  }

  /** The disabled state of the two pager buttons. */
  datatype PagerFlags = PagerFlags(prevDisabled: bool, nextDisabled: bool)

  /**
   * updatePaginationUI(count): "previous" is disabled on page 1, "next" when the
   * page came back shorter than the page size (the last-page heuristic).
   */
  function PagerFlagsFor(page: int, count: int, size: int): (f: PagerFlags)
    ensures f.prevDisabled <==> page == 1
    ensures f.nextDisabled <==> count < size
  {
    PagerFlags(PrevDisabled(page), count < size)
  }

  /** `btnPrev.disabled = currentPage === 1`: the one flag that does not depend on the returned page. */
  predicate PrevDisabled(page: int) {
    page == 1
  }

  /**
   * With a server that returns at most `size` records, "next" stays enabled
   * exactly when the page came back full; on any page at or after the first,
   * "previous" is enabled exactly when there is an earlier page.
   */
  lemma PagerFlagsMeaning(page: int, count: nat, size: int)
    requires page >= 1 && count <= size
    ensures !PagerFlagsFor(page, count, size).nextDisabled <==> count == size
    ensures !PagerFlagsFor(page, count, size).prevDisabled <==> page > 1
  {
  }
}
