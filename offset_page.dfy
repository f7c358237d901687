/** `OffsetPage<T>`: a page of a list endpoint with its 32-bit `Total`, `Page`
    (1-based) and `PageSize`, and the two computed properties `HasMore` and
    `TotalPages`. */
module Pagination {
  import Text

  type int32 = x: int | Text.Int32Min <= x <= Text.Int32Max

  datatype OffsetPage<T> = OffsetPage(data: seq<T>, total: int32, page: int32, pageSize: int32)

  /** An `int` expression evaluated in C#'s default unchecked context: the result
      wraps around modulo 2^32. */
  function Wrap32(x: int): (r: int32)
    ensures (r - x) % 0x1_0000_0000 == 0
    ensures Text.Int32Min <= x <= Text.Int32Max ==> r == x
  {
    (x - Text.Int32Min) % 0x1_0000_0000 + Text.Int32Min
  }

  /** `HasMore` as written: `Page * PageSize < Total` with a 32-bit product. */
  function HasMoreAsWritten<T>(p: OffsetPage<T>): bool {
    Wrap32(p.page * p.pageSize) < p.total
  }

  /** `HasMore` as intended: the items before the end of this page are fewer than
      `Total`, with the product computed without overflow. */
  function HasMore<T>(p: OffsetPage<T>): bool {
    p.page * p.pageSize < p.total
  }

  /** `TotalPages`: `Total / PageSize` rounded up. For a positive page size the
      double quotient of two 32-bit integers never rounds across an integer, so
      `Math.Ceiling` gives the exact ceiling. */
  function TotalPages<T>(p: OffsetPage<T>): (r: int)
    requires p.pageSize > 0
    ensures (r - 1) * p.pageSize < p.total <= r * p.pageSize
  {
    var q := (p.total + p.pageSize - 1) / p.pageSize;
    assert q * p.pageSize <= p.total + p.pageSize - 1 < (q + 1) * p.pageSize;
    q
  }

  lemma MulMonotone(a: int, b: int, c: int)
    requires a <= b && c > 0
    ensures a * c <= b * c
  {
  }

  /** On a non-empty page size, there is more to fetch exactly when this page comes
      before the last one. */
  lemma HasMoreIffBeforeLastPage<T>(p: OffsetPage<T>)
    requires p.pageSize > 0 && p.total >= 0 && p.page >= 0
    ensures HasMore(p) <==> p.page < TotalPages(p)
  {
    var r := TotalPages(p);
    if p.page < r {
      MulMonotone(p.page, r - 1, p.pageSize);
    } else {
      MulMonotone(r, p.page, p.pageSize);
    }
  }

  /** An empty listing has no pages, and no page of it has more. */
  lemma EmptyListing<T>(p: OffsetPage<T>)
    requires p.total == 0 && p.pageSize > 0 && p.page >= 0
    ensures TotalPages(p) == 0
    ensures !HasMore(p)
  {
    var r := TotalPages(p);
    if r > 0 {
      MulMonotone(1, r, p.pageSize);
    } else if r < 0 {
      MulMonotone(r, -1, p.pageSize);
    }
  }

  /** Where the product fits in 32 bits, the page as written and as intended agree. */
  lemma HasMoreAgreesInRange<T>(p: OffsetPage<T>)
    requires Text.Int32Min <= p.page * p.pageSize <= Text.Int32Max
    ensures HasMoreAsWritten(p) == HasMore(p)
  {
  }

  /** The 32-bit product wraps: page 65536 of an empty listing with 32768 items per
      page claims to have more, although the listing has no pages at all. */
  lemma HasMoreOverflows()
    ensures var p: OffsetPage<int> := OffsetPage([], 0, 65536, 32768);
            HasMoreAsWritten(p) && !HasMore(p) && TotalPages(p) == 0
  {
    var p: OffsetPage<int> := OffsetPage([], 0, 65536, 32768);
    assert p.page * p.pageSize == 0x8000_0000;
    assert Wrap32(0x8000_0000) == Text.Int32Min;
  }
}
