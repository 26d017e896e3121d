/**
 * The older statistics controller. Its day and activity statistics run the
 * same pipelines as the newer controller; its user statistics page through
 * the helper that reports no total, pass the parsed page and limit on
 * without defaulting a zero, and group nationalities by the raw
 * `nationality` string rather than by `nationality.countryName`.
 */
module StatsController {
  import opened Wrappers
  import opened Grouping
  import opened Pagination
  import opened StatController

  /** The older controller groups by the `nationality` string itself, which every user has. */
  function RawNationalityOf(u: StatUser): Option<string> {
    Some(u.nationality)
  }

  /** The body of an older nationality answer: no total, and `results` for the number of nationalities. */
  datatype LegacyNationalityResponse = LegacyNationalityResponse(
    currentPage: int,
    totalPages: nat,
    results: nat,
    nationalityStats: map<string, GenderRecord>)

  /** The body of an older birthdate or registration answer. */
  datatype LegacyListResponse<T> = LegacyListResponse(currentPage: int, totalPages: nat, results: nat, stats: seq<T>)

  /**
   * `getNationalityStats` of the older controller: one page of the groups by
   * raw nationality (400 for a page or limit that is not positive, 404 past
   * the last page), turned into the nationality-to-record object.
   */
  method LegacyGetNationalityStats(users: seq<StatUser>, page: int, limit: int)
    returns (r: Result<LegacyNationalityResponse>)
    ensures var groups := NationalityGroups(users, RawNationalityOf);
      && (r.Err? <==> page <= 0 || limit <= 0 || page > CeilDiv(|groups|, limit))
      && (r.Err? ==> r.error == Paginate(groups, page, limit).error)
      && (r.Ok? ==>
            var results := Paginate(groups, page, limit).value.results;
            && r.value.nationalityStats == FillSpec(results)
            && r.value.currentPage == page
            && r.value.totalPages == CeilDiv(|groups|, limit)
            && 0 < r.value.results <= |results| <= limit)
  {
    var groups := NationalityGroups(users, RawNationalityOf);
    var paged := Paginate(groups, page, limit);
    PaginateMatchesAggregate(groups, page, limit);
    if paged.Err? {
      return Err(paged.error);
    }
    var userStats := paged.value.results;
    assert userStats != [];
    var stats := FillNationalityStats(userStats);
    FillSpecKeys(userStats);
    FillSpecSize(userStats);
    assert NationalityKey(userStats[0].id) in stats.Keys;
    r := Ok(LegacyNationalityResponse(paged.value.currentPage, paged.value.totalPages, |stats.Keys|, stats));
  }

  /** Grouped by the raw string, no nationality group is the missing one. */
  lemma RawNationalityNeverMissing(users: seq<StatUser>)
    ensures forall g :: g in NationalityGroups(users, RawNationalityOf) ==> g.id.Some?
  {
    var gs := NationalityGroups(users, RawNationalityOf);
    forall g | g in gs ensures g.id.Some? {
      var i :| 0 <= i < |gs| && gs[i] == g;
      NationalityGroupOfSomeUser(users, RawNationalityOf, i);
    }
  }

  /**
   * The older paged list handlers: 400 for a page or limit that is not
   * positive, 404 past the last page, otherwise the page and its length.
   */
  function LegacyPagedList<T>(all: seq<T>, page: int, limit: int): (r: Result<LegacyListResponse<T>>)
    ensures && (r.Err? <==> page <= 0 || limit <= 0 || page > CeilDiv(|all|, limit))
      && (r.Err? && (page <= 0 || limit <= 0) ==> r.error == Error(BadRequest, RangeMessage))
      && (r.Err? && page > 0 && limit > 0 ==> r.error == Error(NotFound, PageNotFoundMessage))
      && (r.Ok? ==>
            && r.value.currentPage == page
            && r.value.totalPages == CeilDiv(|all|, limit)
            && r.value.results == |r.value.stats|
            && 0 < |r.value.stats| <= limit
            && forall j :: 0 <= j < |r.value.stats| ==>
                 0 <= (page - 1) * limit + j < |all| && r.value.stats[j] == all[(page - 1) * limit + j])
  {
    var paged := Paginate(all, page, limit);
    PaginateMatchesAggregate(all, page, limit);
    if paged.Err? then Err(paged.error)
    else
      var p := paged.value;
      assert p.results != [];
      Ok(LegacyListResponse(p.currentPage, p.totalPages, |p.results|, p.results))
  }

  /** `getUserBirthdateStats` of the older controller. */
  function LegacyGetUserBirthdateStats(users: seq<StatUser>, page: int, limit: int)
    : (r: Result<LegacyListResponse<BirthdateStat>>)
    ensures var all := BirthdateStats(users);
      && (r.Err? <==> page <= 0 || limit <= 0 || page > CeilDiv(|Keys(users, BirthYearOf)|, limit))
      && (r.Err? && (page <= 0 || limit <= 0) ==> r.error == Error(BadRequest, RangeMessage))
      && (r.Err? && page > 0 && limit > 0 ==> r.error == Error(NotFound, PageNotFoundMessage))
      && (r.Ok? ==>
            && r.value.currentPage == page
            && r.value.totalPages == CeilDiv(|all|, limit)
            && r.value.results == |r.value.stats|
            && 0 < |r.value.stats| <= limit)
  {
    LegacyPagedList(BirthdateStats(users), page, limit)
  }

  /**
   * An answered birthdate page of the older controller holds, in order, the
   * birth-year counts of its window of the whole year-sorted list.
   */
  lemma LegacyBirthdatePage(users: seq<StatUser>, page: int, limit: int)
    requires LegacyGetUserBirthdateStats(users, page, limit).Ok?
    ensures page > 0 && limit > 0
    ensures LegacyGetUserBirthdateStats(users, page, limit).value.stats == PageWindow(BirthdateStats(users), page, limit)
  {
    PaginateMatchesAggregate(BirthdateStats(users), page, limit);
  }

  /** `getUserRegistrationStats` of the older controller: the page of registration groups, flattened. */
  function LegacyGetUserRegistrationStats(users: seq<StatUser>, page: int, limit: int)
    : (r: Result<LegacyListResponse<RegistrationStat>>)
    ensures r.Err? <==> page <= 0 || limit <= 0 || page > CeilDiv(|Keys(users, RegistrationKeyOf)|, limit)
    ensures r.Ok? ==> r.value.results == |r.value.stats| && 0 < |r.value.stats| <= limit
    ensures r.Err? && (page <= 0 || limit <= 0) ==> r.error == Error(BadRequest, RangeMessage)
    ensures r.Err? && page > 0 && limit > 0 ==> r.error == Error(NotFound, PageNotFoundMessage)
    ensures r.Ok? ==> r.value.currentPage == page && r.value.totalPages == CeilDiv(|RegistrationGroups(users)|, limit)
  {
    var paged := Paginate(RegistrationGroups(users), page, limit);
    PaginateMatchesAggregate(RegistrationGroups(users), page, limit);
    if paged.Err? then Err(paged.error)
    else
      var p := paged.value;
      var registrationStats := Flatten(p.results);
      Ok(LegacyListResponse(p.currentPage, p.totalPages, |registrationStats|, registrationStats))
  }

  /**
   * An answered registration page of the older controller holds, in order and
   * flattened, the registration groups of its window of the whole list.
   */
  lemma LegacyRegistrationPage(users: seq<StatUser>, page: int, limit: int)
    requires LegacyGetUserRegistrationStats(users, page, limit).Ok?
    ensures page > 0 && limit > 0
    ensures LegacyGetUserRegistrationStats(users, page, limit).value.stats
            == Flatten(PageWindow(RegistrationGroups(users), page, limit))
  {
  }

  /**
   * A zero page is refused by the older controller with 400, while the newer
   * one reads it as page 1 and answers whenever there is a user.
   */
  lemma PageZeroDiffers(users: seq<StatUser>)
    requires users != []
    ensures LegacyGetUserBirthdateStats(users, 0, 10) == Err(Error(BadRequest, RangeMessage))
    ensures GetUserBirthdateStats(users, Some(0), None).Ok?
  {
    assert BirthYearOf(users[0]) in Keys(users, BirthYearOf);
  }

  /** On a positive page and limit the two controllers list the same birth years. */
  lemma BirthdatePagesAgree(users: seq<StatUser>, page: int, limit: int)
    requires page > 0 && limit > 0
    ensures LegacyGetUserBirthdateStats(users, page, limit).Ok? <==> GetUserBirthdateStats(users, Some(page), Some(limit)).Ok?
    ensures LegacyGetUserBirthdateStats(users, page, limit).Ok? ==>
      LegacyGetUserBirthdateStats(users, page, limit).value.stats == GetUserBirthdateStats(users, Some(page), Some(limit)).value.stats
  {
  }
}
