/** Page arithmetic of the chat API's list endpoints (`PaginationParams` and
    `PaginationResponse` in the API's base models). */
module Pagination {
  import opened Wrappers

  /** Query parameters as validated by the API: `page >= 1`, `1 <= size <= 100`. */
  datatype Params = Params(page: int, size: int)

  predicate ValidParams(p: Params) {
    p.page >= 1 && 1 <= p.size <= 100
  }

  /** Number of rows skipped before the requested page. */
  function Offset(p: Params): (offset: int)
    requires ValidParams(p)
    ensures offset >= 0 && offset % p.size == 0
    ensures offset / p.size == p.page - 1
  {
    MultipleDivMod(p.page - 1, p.size);
    (p.page - 1) * p.size
  }

  /** Dividing a multiple of `d` by `d` gives back the factor with no remainder. */
  lemma MultipleDivMod(k: nat, d: int)
    requires d > 0
    ensures (k * d) / d == k && (k * d) % d == 0
  {
    var q, r := (k * d) / d, (k * d) % d;
    assert k * d == q * d + r && 0 <= r < d;
    assert (k - q) * d == r;
    ScaleBounds(k - q, d);
  }

  lemma ScaleBounds(x: int, d: int)
    requires d > 0
    ensures x >= 1 ==> x * d >= d
    ensures x <= -1 ==> x * d <= -d
    ensures x == 0 ==> x * d == 0
  {
  }

  datatype Response = Response(total: int, page: int, size: int, pages: int, hasNext: bool, hasPrev: bool)

  datatype PageError = DivisionByZero

  /** Python's `//`, which rounds towards negative infinity for either sign of divisor. */
  function FloorDiv(a: int, b: int): (q: int)
    requires b != 0
    ensures b > 0 ==> q * b <= a < q * b + b
    ensures b < 0 ==> q * b >= a > q * b + b
  {
    if b > 0 then a / b else (-a) / (-b)
  }

  /** `PaginationResponse.create`: `pages` is `(total + size - 1) // size`; a zero
      `size` raises in the source. */
  function Create(total: int, page: int, size: int): (r: Result<Response, PageError>)
    ensures size == 0 <==> r.Err?
    ensures r.Ok? ==> r.value.total == total && r.value.page == page && r.value.size == size
    ensures r.Ok? ==> (r.value.hasNext <==> page < r.value.pages)
    ensures r.Ok? ==> (r.value.hasPrev <==> page > 1)
  {
    if size == 0 then Err(DivisionByZero)
    else
      var pages := FloorDiv(total + size - 1, size);
      Ok(Response(total, page, size, pages, page < pages, page > 1))
  }

  /** For a real page size and a non-negative total, `pages` is the ceiling of
      `total / size`: the fewest pages that hold every row. */
  lemma PagesIsCeiling(total: int, page: int, size: int)
    requires total >= 0 && size >= 1
    ensures Create(total, page, size).Ok?
    ensures var pages := Create(total, page, size).value.pages;
      pages >= 0 && pages * size >= total && (pages == 0 || (pages - 1) * size < total)
  {
  }

  /** `has_next` holds exactly when rows exist beyond the current page, and
      `has_prev` exactly when the current page skips rows. */
  lemma {:induction false} HasNextMeansMoreRows(total: int, page: int, size: int)
    requires total >= 0 && 1 <= size && page >= 1
    ensures Create(total, page, size).Ok?
    ensures Create(total, page, size).value.hasNext <==> page * size < total
    ensures Create(total, page, size).value.hasPrev <==> page > 1
    ensures size <= 100 ==> (page > 1 <==> Offset(Params(page, size)) > 0)
  {
    PagesIsCeiling(total, page, size);
    CeilingSplitsPages(total, page, size, Create(total, page, size).value.pages);
  }

  /** Against the ceiling of `total / size`, a page lies before the last page
      exactly when the rows up to its end fall short of `total`. */
  lemma CeilingSplitsPages(total: int, page: int, size: int, pages: int)
    requires page >= 1 && size >= 1 && pages * size >= total && (pages == 0 || (pages - 1) * size < total)
    ensures page < pages <==> page * size < total
  {
    if page < pages {
      ScaleBounds(pages - 1 - page, size);
      assert (pages - 1) * size - page * size == (pages - 1 - page) * size;
      assert (pages - 1 - page) * size >= 0;
      assert page * size <= (pages - 1) * size < total;
    } else {
      ScaleBounds(page - pages, size);
      assert page * size - pages * size == (page - pages) * size;
      assert (page - pages) * size >= 0;
      assert page * size >= pages * size >= total;
    }
  }

  /** An empty result set has no pages and no next page. */
  lemma EmptyTotal(page: int, size: int)
    requires size >= 1
    ensures Create(0, page, size).Ok?
    ensures Create(0, page, size).value.pages == 0
    ensures page >= 0 ==> !Create(0, page, size).value.hasNext
  {
  }
}
