/**
 * The listing helper object: it holds a query and the page and limit read
 * from the query string, and its `paginate` narrows the query to one page
 * before reporting page counts taken from the whole collection.
 */
module ApiFeatures {
  import opened Wrappers
  import opened Pagination

  class ApiFeatures<T> {
    /** The documents the query would return, in order. */
    var query: seq<T>
    var page: int
    var limit: int

    /** The constructor throws unless both are positive, so a live object always has them positive. */
    ghost predicate Valid()
      reads this
    {
      page > 0 && limit > 0
    }

    constructor (query: seq<T>, page: int, limit: int)
      requires page > 0 && limit > 0
      ensures Valid()
      ensures this.query == query && this.page == page && this.limit == limit
    {
      this.query := query;
      this.page := page;
      this.limit := limit;
    }

    /**
     * `paginate`: apply skip and limit to the query (this happens before any
     * check, so the query is narrowed even when the page is then refused),
     * run it, and count the whole collection (`collectionCount`) for the page
     * numbers.
     */
    method Paginate(collectionCount: nat) returns (r: Result<Page<T>>)
      requires Valid()
      modifies this
      ensures Valid() && page == old(page) && limit == old(limit)
      ensures query == Window(old(query), Skip(page, limit), limit)
      ensures r == FeaturesPage(old(query), collectionCount, page, limit)
    {
      query := Window(query, Skip(page, limit), limit);
      var results := query;
      var totalPages := CeilDiv(collectionCount, limit);
      if page > totalPages {
        return Err(Error(NotFound, PageNotFoundMessage));
      }
      r := Ok(Page(results, totalPages, page, collectionCount));
    }
  }

  /**
   * What `paginate` returns for a query and a collection size: 404 past the
   * last page of the collection, else the page of the query with the
   * collection's page count and size.
   */
  function FeaturesPage<T>(query: seq<T>, collectionCount: nat, page: int, limit: int): (r: Result<Page<T>>)
    requires page > 0 && limit > 0
    ensures r.Err? <==> page > CeilDiv(collectionCount, limit)
    ensures r.Err? ==> r.error == Error(NotFound, PageNotFoundMessage)
    ensures r.Ok? ==>
      && r.value.totalPages == CeilDiv(collectionCount, limit)
      && r.value.currentPage == page
      && r.value.totalResults == collectionCount
      && |r.value.results| <= limit
      && forall j :: 0 <= j < |r.value.results| ==>
           0 <= (page - 1) * limit + j < |query| && r.value.results[j] == query[(page - 1) * limit + j]
  {
    var totalPages := CeilDiv(collectionCount, limit);
    SkipInRange(page, limit, collectionCount);
    if page > totalPages then Err(Error(NotFound, PageNotFoundMessage))
    else Ok(Page(Window(query, Skip(page, limit), limit), totalPages, page, collectionCount))
  }

  /** An empty query has only empty pages. */
  lemma EmptyQueryPage<T>(collectionCount: nat, page: int, limit: int)
    requires page > 0 && limit > 0
    ensures FeaturesPage<T>([], collectionCount, page, limit).Ok? ==>
      FeaturesPage<T>([], collectionCount, page, limit).value.results == []
  {
    SkipInRange(page, limit, collectionCount);
    var w := Window<T>([], Skip(page, limit), limit);
    assert w == [];
  }

  /** When the query is the whole collection, `paginate` and `aggregatePagination` agree. */
  lemma FeaturesPageOnWholeCollection<T>(items: seq<T>, page: int, limit: int)
    requires page > 0 && limit > 0
    ensures FeaturesPage(items, |items|, page, limit) == AggregatePagination(items, page, limit)
  {
  }

  /**
   * Counting the whole collection rather than the query lets a page through
   * that holds nothing: an empty query in a collection of five still gives
   * page 1 of 1.
   */
  lemma FeaturesPageEmptyQuery<T>()
    ensures FeaturesPage<T>([], 5, 1, 10) == Ok(Page([], 1, 1, 5))
  {
  }

  /**
   * The constructor: page and limit from the query string, where an absent,
   * unparsable or zero value gives 1 and 10; a negative one is refused with 400.
   */
  method NewApiFeatures<T>(query: seq<T>, pageParam: Option<int>, limitParam: Option<int>)
    returns (r: Result<ApiFeatures<T>>)
    ensures r.Err? <==> OrDefault(pageParam, 1) <= 0 || OrDefault(limitParam, 10) <= 0
    ensures r.Err? ==> r.error == Error(BadRequest, RangeMessage)
    ensures r.Ok? ==> fresh(r.value) && r.value.Valid()
    ensures r.Ok? ==>
      r.value.query == query && r.value.page == OrDefault(pageParam, 1) && r.value.limit == OrDefault(limitParam, 10)
  {
    var page := OrDefault(pageParam, 1);
    var limit := OrDefault(limitParam, 10);
    if page <= 0 || limit <= 0 {
      return Err(Error(BadRequest, RangeMessage));
    }
    var features := new ApiFeatures(query, page, limit);
    r := Ok(features);
  }

  /** After defaulting, only a negative value can be refused. */
  lemma OnlyNegativesRefused(pageParam: Option<int>, limitParam: Option<int>)
    ensures OrDefault(pageParam, 1) <= 0 <==> pageParam.Some? && pageParam.value < 0
    ensures OrDefault(limitParam, 10) <= 0 <==> limitParam.Some? && limitParam.value < 0
  {
  }
}
