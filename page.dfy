/**
 * Paging of support/page.go: the number of rows a page query skips.
 */
module Paging {

  /** `BaseQueryPageCmd`: the page number (from 1) and the page size. */
  datatype QueryPage = QueryPage(page: int, size: int)

  /** `BaseQueryPageCmd.Offset`: the rows before the page; no bounds are checked. */
  function Offset(cmd: QueryPage): (r: int)
    ensures cmd.page >= 1 && cmd.size >= 0 ==> r >= 0
    ensures cmd.page < 1 && cmd.size > 0 ==> r < 0
  {
    (cmd.page - 1) * cmd.size
  }

  /**
   * The first page starts at row 0, each next page starts `size` rows
   * further, and page `p` starts after `p - 1` whole pages.
   */
  lemma {:induction false} OffsetSteps(p: int, size: int)
    ensures Offset(QueryPage(1, size)) == 0
    ensures Offset(QueryPage(p + 1, size)) - Offset(QueryPage(p, size)) == size
  {
    assert p * size - (p - 1) * size == size;
  }

  /** For page numbers from 1, the offset is the sum of the sizes of the pages before. */
  lemma {:induction false} OffsetCountsPages(p: int, size: int)
    requires p >= 1
    ensures Offset(QueryPage(p, size)) == PagesBefore(p, size)
    decreases p
  {
    if p > 1 {
      OffsetCountsPages(p - 1, size);
      OffsetSteps(p - 1, size);
    }
  }

  /** The rows of the `p - 1` pages before page `p`, one page at a time. */
  function PagesBefore(p: int, size: int): int
    requires p >= 1
    decreases p
  {
    if p == 1 then 0 else PagesBefore(p - 1, size) + size
  }
}
