/**
 * The paging arithmetic of the list handlers.  The salesperson list replaces a
 * non-positive page or page size by its default; the software and key-type
 * lists replace a page below 1 by 1 and a limit outside 1..100 by 10, and
 * report the page count as the ceiling of total / limit.  A query parameter
 * that does not parse as an integer arrives here as 0.
 */
module Pagination {

  const DefaultPageSize: int := 10
  const MaxLimit: int := 100

  /**
   * GetAllSalespersons: the defaults reassigned into the query, then the
   * offset of the page.
   */
  method SalespersonPaging(page: int, pageSize: int) returns (page': int, pageSize': int, offset: int)
    ensures page' == (if page <= 0 then 1 else page)
    ensures pageSize' == (if pageSize <= 0 then DefaultPageSize else pageSize)
    ensures page' >= 1 && pageSize' >= 1
    ensures offset == (page' - 1) * pageSize' && offset >= 0
  {
    page', pageSize' := page, pageSize;
    if page' <= 0 {
      page' := 1;
    }
    if pageSize' <= 0 {
      pageSize' := DefaultPageSize;
    }
    offset := (page' - 1) * pageSize';
    MultiplyMonotone(0, page' - 1, pageSize');
  }

  lemma MultiplyMonotone(a: int, b: int, size: int)
    requires a <= b && size >= 1
    ensures a * size <= b * size
  {
    assert b * size - a * size == (b - a) * size;
  }

  /** The page, limit and offset the software and key-type lists use. */
  datatype Paging = Paging(page: int, limit: int, offset: int)

  /** GetAllSoftware / GetAllKeyTypes: the page and limit after validation, and the offset. */
  function CatalogPaging(page: int, limit: int): (p: Paging)
    ensures p.page == (if page < 1 then 1 else page)
    ensures 1 <= p.limit <= MaxLimit
    ensures 1 <= limit <= MaxLimit ==> p.limit == limit
    ensures !(1 <= limit <= MaxLimit) ==> p.limit == DefaultPageSize
    ensures p.offset == (p.page - 1) * p.limit && p.offset >= 0
  {
    var page' := if page < 1 then 1 else page;
    var limit' := if limit < 1 || limit > MaxLimit then DefaultPageSize else limit;
    MultiplyMonotone(0, page' - 1, limit');
    Paging(page', limit', (page' - 1) * limit')
  }

  /**
   * `(total + limit - 1) / limit`; the total is a row count, never negative.
   * It is the ceiling of total / limit: the pages hold every row, the last one
   * is not empty, and there are none only when there are no rows.
   */
  function Pages(total: nat, limit: int): (pages: nat)
    requires limit >= 1
    ensures pages * limit >= total
    ensures (pages - 1) * limit < total || total == 0
    ensures total == 0 <==> pages == 0
  {
    var n := total + limit - 1;
    var q, r := n / limit, n % limit;
    assert n == q * limit + r && 0 <= r < limit;
    assert total == 0 ==> q == 0 by {
      if total == 0 && q >= 1 {
        MultiplyMonotone(1, q, limit);
      }
    }
    assert total > 0 ==> q >= 1 by {
      if total > 0 && q <= 0 {
        MultiplyMonotone(q, 0, limit);
      }
    }
    q
  }

  /**
   * A page of a catalog list shows rows exactly when it is one of the
   * reported pages: its offset is below the total iff page <= pages.
   */
  lemma PageWithinPages(total: nat, page: int, limit: int)
    ensures var p := CatalogPaging(page, limit);
            p.offset < total <==> p.page <= Pages(total, p.limit)
  {
    var p := CatalogPaging(page, limit);
    var pages := Pages(total, p.limit);
    if p.page > pages {
      MultiplyMonotone(pages, p.page - 1, p.limit);
    } else if total > 0 {
      MultiplyMonotone(p.page - 1, pages - 1, p.limit);
    }
  }
}
