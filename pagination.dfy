/**
 * Page arithmetic shared by the listing endpoints: the aggregation helper that
 * reports the total, its older copy that does not, and the query-string
 * defaults of the ticket service. A pipeline's output is a sequence; its
 * `$count` stage is that sequence's length (an empty output has no count
 * document, which the helpers read as 0).
 */
module Pagination {
  import opened Wrappers

  const RangeMessage: string := "Page and limit must be greater than 0."
  const PageNotFoundMessage: string := "Page not found!"

  /** One page of a listing, with the total number of items when the helper reports it. */
  datatype Page<T> = Page(results: seq<T>, totalPages: nat, currentPage: int, totalResults: nat)

  /** `Math.ceil(n / d)` for a whole count and a positive whole limit. */
  function CeilDiv(n: nat, d: nat): (q: nat)
    requires d > 0
    ensures n <= q * d
    ensures q > 0 ==> (q - 1) * d < n
    ensures q == 0 <==> n == 0
  {
    (n + d - 1) / d
  }

  /** The number of items before page `page`. */
  function Skip(page: int, limit: int): int {
    (page - 1) * limit
  }

  /** A page that is not past the last one starts inside the listing. */
  lemma SkipInRange(page: int, limit: int, n: nat)
    requires page > 0 && limit > 0
    ensures 0 <= Skip(page, limit)
    ensures page <= CeilDiv(n, limit) ==> Skip(page, limit) < n
  {
    MulMonotone(0, page - 1, limit);
    var q := CeilDiv(n, limit);
    if page <= q {
      MulMonotone(page - 1, q - 1, limit);
    }
  }

  /** `$skip` then `$limit`: at most `limit` items starting at `skip`, fewer at the end. */
  function Window<T>(items: seq<T>, skip: nat, limit: nat): (w: seq<T>)
    ensures |w| <= limit
    ensures skip >= |items| ==> w == []
    ensures skip < |items| ==> |w| == if skip + limit <= |items| then limit else |items| - skip
    ensures forall j :: 0 <= j < |w| ==> skip + j < |items| && w[j] == items[skip + j]
  {
    if skip >= |items| then []
    else if skip + limit <= |items| then items[skip..skip + limit]
    else items[skip..]
  }

  /** The items of page `page` of `limit`: the `$skip`/`$limit` window at `(page-1)*limit`. */
  function PageWindow<T>(items: seq<T>, page: int, limit: int): seq<T>
    requires page > 0 && limit > 0
  {
    SkipInRange(page, limit, 0);
    Window(items, Skip(page, limit), limit)
  }

  /**
   * `aggregatePagination`: 400 for a non-positive page or limit, 404 for a
   * page past the last one, otherwise that page's window with the page
   * count, the page asked for and the total.
   */
  function AggregatePagination<T>(items: seq<T>, page: int, limit: int): (r: Result<Page<T>>)
    ensures page <= 0 || limit <= 0 ==> r == Err(Error(BadRequest, RangeMessage))
    ensures page > 0 && limit > 0 && page > CeilDiv(|items|, limit) ==> r == Err(Error(NotFound, PageNotFoundMessage))
    ensures r.Ok? <==> page > 0 && limit > 0 && page <= CeilDiv(|items|, limit)
    ensures r.Ok? ==>
      && r.value.totalPages == CeilDiv(|items|, limit)
      && r.value.currentPage == page
      && r.value.totalResults == |items|
      && 0 < |r.value.results| <= limit
      && forall j :: 0 <= j < |r.value.results| ==>
           0 <= (page - 1) * limit + j < |items| && r.value.results[j] == items[(page - 1) * limit + j]
  {
    if page <= 0 || limit <= 0 then Err(Error(BadRequest, RangeMessage))
    else
      var totalCount := |items|;
      var totalPages := CeilDiv(totalCount, limit);
      SkipInRange(page, limit, totalCount);
      if page > totalPages then Err(Error(NotFound, PageNotFoundMessage))
      else Ok(Page(Window(items, Skip(page, limit), limit), totalPages, page, totalCount))
  }

  /** An empty listing has no first page: any valid page and limit give 404. */
  lemma EmptyIs404<T>(page: int, limit: int)
    requires page > 0 && limit > 0
    ensures AggregatePagination<T>([], page, limit) == Err(Error(NotFound, PageNotFoundMessage))
  {
  }

  /**
   * Every item is found on exactly the page its position says: item `i`
   * is item `i % limit` of page `i / limit + 1`.
   */
  lemma EveryItemOnItsPage<T>(items: seq<T>, limit: int, i: nat)
    requires limit > 0 && i < |items|
    ensures AggregatePagination(items, i / limit + 1, limit).Ok?
    ensures i % limit < |AggregatePagination(items, i / limit + 1, limit).value.results|
    ensures AggregatePagination(items, i / limit + 1, limit).value.results[i % limit] == items[i]
  {
    var page := i / limit + 1;
    var q := CeilDiv(|items|, limit);
    assert i == (page - 1) * limit + i % limit;
    MulCancelLess(page - 1, q, limit);
  }

  lemma MulCancelLess(a: nat, b: nat, c: nat)
    requires a * c < b * c
    ensures a < b
  {
    if a >= b {
      MulMonotone(b, a, c);
    }
  }

  lemma MulMonotone(a: nat, b: nat, c: nat)
    requires a <= b
    ensures a * c <= b * c
  {
  }

  /** The page `paginateHelper` returns: the same window and page count, no total. */
  datatype HelperPage<T> = HelperPage(results: seq<T>, totalPages: nat, currentPage: int)

  /** `paginate` of the older helper: the same guards and window as `aggregatePagination`. */
  function Paginate<T>(items: seq<T>, page: int, limit: int): (r: Result<HelperPage<T>>)
    ensures page <= 0 || limit <= 0 ==> r == Err(Error(BadRequest, RangeMessage))
    ensures r.Ok? ==> 0 < |r.value.results| <= limit && r.value.currentPage == page
  {
    if page <= 0 || limit <= 0 then Err(Error(BadRequest, RangeMessage))
    else
      var totalPages := CeilDiv(|items|, limit);
      SkipInRange(page, limit, |items|);
      if page > totalPages then Err(Error(NotFound, PageNotFoundMessage))
      else Ok(HelperPage(Window(items, Skip(page, limit), limit), totalPages, page))
  }

  /** The two helpers agree on every input, apart from the total the older one leaves out. */
  lemma PaginateMatchesAggregate<T>(items: seq<T>, page: int, limit: int)
    ensures Paginate(items, page, limit).Ok? <==> AggregatePagination(items, page, limit).Ok?
    ensures Paginate(items, page, limit).Err? ==>
      Paginate(items, page, limit).error == AggregatePagination(items, page, limit).error
    ensures Paginate(items, page, limit).Ok? ==>
      var p := Paginate(items, page, limit).value;
      var q := AggregatePagination(items, page, limit).value;
      p.results == q.results && p.totalPages == q.totalPages && p.currentPage == q.currentPage
  {
  }

  /**
   * `x || d` on a parsed number: NaN (an unparsable string, here `None`) and
   * 0 are falsy and give the default; any other value, negative ones too,
   * is kept.
   */
  function OrDefault(parsed: Option<int>, default: int): (v: int)
    ensures parsed.None? || parsed.value == 0 ==> v == default
    ensures parsed.Some? && parsed.value != 0 ==> v == parsed.value
  {
    if parsed.None? || parsed.value == 0 then default else parsed.value
  }

  /** The page, limit and skip the ticket service derives from the query string. */
  datatype PaginationParams = PaginationParams(page: int, limit: int, skip: int)

  /**
   * `getPaginationParams`: page defaults to 1, limit to 10, and skip is the
   * number of items before the page. Nothing is rejected.
   */
  function GetPaginationParams(page: Option<int>, limit: Option<int>): (p: PaginationParams)
    ensures p.page == OrDefault(page, 1) && p.limit == OrDefault(limit, 10)
    ensures p.page != 0 && p.limit != 0
    ensures p.page > 0 && p.limit > 0 ==> p.skip >= 0
    ensures p.page == 1 ==> p.skip == 0
    ensures p.skip == (p.page - 1) * p.limit
  {
    var pg := OrDefault(page, 1);
    var lim := OrDefault(limit, 10);
    PaginationParams(pg, lim, Skip(pg, lim))
  }

  /** With neither parameter, the first page of ten. */
  lemma GetPaginationParamsDefaults()
    ensures GetPaginationParams(None, None) == PaginationParams(1, 10, 0)
  {
  }

  /** A negative page is not rejected and yields a negative skip. */
  lemma GetPaginationParamsAcceptsNegative()
    ensures GetPaginationParams(Some(-2), None) == PaginationParams(-2, 10, -30)
  {
  }
}
