/** The query-parameter normalisation and page arithmetic that the message
    list (internal/controllers/messages.go) and the blog list
    (internal/controllers/blogs.go) both perform, each with its own maximum
    and default page size. Query values arrive already parsed, as Go's
    strconv.Atoi leaves them: a value with a syntax error arrives as 0, and
    an out-of-range numeral arrives clamped to the 64-bit range. */
module Pagination {

  /** A normalised page request. */
  datatype Page = Page(page: int, pageSize: int, offset: int)

  /** Clamp `page` to at least 1 and replace an out-of-range `pageSize` by
      `defaultSize`; offset is the number of rows to skip. */
  function Normalize(page: int, pageSize: int, maxSize: int, defaultSize: int): (p: Page)
    requires 1 <= defaultSize <= maxSize
    ensures p.page >= 1 && 1 <= p.pageSize <= maxSize
    ensures p.page == (if page >= 1 then page else 1)
    ensures p.pageSize == (if 1 <= pageSize <= maxSize then pageSize else defaultSize)
    ensures p.offset == (p.page - 1) * p.pageSize && p.offset >= 0
  {
    var pg := if page < 1 then 1 else page;
    var size := if pageSize < 1 || pageSize > maxSize then defaultSize else pageSize;
    Page(pg, size, (pg - 1) * size)
  }

  /** `(total + pageSize - 1) / pageSize`: the number of pages needed to
      show `total` rows. For non-negative operands Go's truncating division
      and Dafny's Euclidean division agree. */
  function PageCount(total: int, pageSize: int): (pages: int)
    requires total >= 0 && pageSize >= 1
    ensures pages >= 0
    ensures pages * pageSize >= total
    ensures total > 0 ==> (pages - 1) * pageSize < total
    ensures pages == 0 <==> total == 0
  {
    var n := total + pageSize - 1;
    var q := n / pageSize;
    assert q * pageSize == n - n % pageSize;
    assert 0 <= n % pageSize < pageSize;
    assert q * pageSize >= total;
    assert (q - 1) * pageSize == q * pageSize - pageSize;
    q
  }

  /** The rows a LIMIT `limit` OFFSET `offset` query returns from `rows`. */
  function Window<T>(rows: seq<T>, offset: int, limit: int): (w: seq<T>)
    requires offset >= 0 && limit >= 1
    ensures |w| <= limit
    ensures |w| == (if offset >= |rows| then 0 else if offset + limit <= |rows| then limit else |rows| - offset)
    ensures forall i :: 0 <= i < |w| ==> offset + i < |rows| && w[i] == rows[offset + i]
  {
    if offset >= |rows| then []
    else if offset + limit <= |rows| then rows[offset..offset + limit]
    else rows[offset..]
  }

  /** The `pagination` object of a list reply and the rows it shows. */
  datatype PageOf<T> = PageOf(items: seq<T>, page: int, pageSize: int, total: int, pages: int)

  /** One page of `rows` for the parsed query parameters. */
  function Paginate<T>(rows: seq<T>, page: int, pageSize: int, maxSize: int, defaultSize: int): (l: PageOf<T>)
    requires 1 <= defaultSize <= maxSize
    ensures l.page >= 1 && 1 <= l.pageSize <= maxSize && l.total == |rows|
    ensures |l.items| <= l.pageSize
    ensures forall i :: 0 <= i < |l.items| ==> (l.page - 1) * l.pageSize + i < |rows| &&
                                               l.items[i] == rows[(l.page - 1) * l.pageSize + i]
    ensures l.pages * l.pageSize >= l.total
    ensures l.total > 0 ==> (l.pages - 1) * l.pageSize < l.total
    ensures l.pages == 0 <==> l.total == 0
    ensures l.page == (if page >= 1 then page else 1)
    ensures l.pageSize == (if 1 <= pageSize <= maxSize then pageSize else defaultSize)
    ensures l.items == Window(rows, (l.page - 1) * l.pageSize, l.pageSize)
    ensures l.pages == PageCount(|rows|, l.pageSize)
  {
    var p := Normalize(page, pageSize, maxSize, defaultSize);
    PageOf(Window(rows, p.offset, p.pageSize), p.page, p.pageSize, |rows|, PageCount(|rows|, p.pageSize))
  }

  /** The last page is the last one that holds any row: its window is not
      empty, and the page after it is. */
  lemma {:induction false} LastPageIsNonEmpty<T>(rows: seq<T>, pageSize: int)
    requires pageSize >= 1 && |rows| > 0
    ensures var pages := PageCount(|rows|, pageSize);
      |Window(rows, (pages - 1) * pageSize, pageSize)| > 0 &&
      |Window(rows, pages * pageSize, pageSize)| == 0
  {
    var pages := PageCount(|rows|, pageSize);
    assert pages >= 1;
    assert (pages - 1) * pageSize >= 0 by {
      assert (pages - 1) * pageSize == pages * pageSize - pageSize;
    }
  }
}
