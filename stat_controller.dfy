/**
 * The statistics endpoints: activity counts and durations per weekday and
 * category, per category overall, and user counts per nationality, birth year
 * and registration month. Each aggregation pipeline is written as the
 * grouping, ordering and paging it performs on the collection's documents.
 */
module StatController {
  import opened Wrappers
  import opened Activities
  import opened RoutineModel
  import opened Days
  import opened Grouping
  import opened Sorting
  import opened Pagination

  const NoActivitiesMessage: string := "No activities found!"
  const NoUsersMessage: string := "No users found!"

  /** `$sum` of the duration field: a document without one adds nothing. */
  function DurationOf(a: Activity): int {
    a.duration.GetOr(0)
  }

  function CategoryOf(a: Activity): string {
    a.category
  }

  /** Every activity stored under day `d`, routine by routine (the two `$unwind` stages). */
  function DayActivities(routines: seq<Routine>, d: Day): seq<Activity> {
    if routines == [] then []
    else DayActivities(routines[..|routines| - 1], d) + routines[|routines| - 1].Get(d)
  }

  /** One entry of a day's `categories` list. */
  datatype CategoryDuration = CategoryDuration(categoryName: string, duration: int)

  /** One day of the day statistics. */
  datatype DayStat = DayStat(day: Day, totalActivities: nat, categories: seq<CategoryDuration>)

  /** `$sortArray` by `{duration: -1}`. */
  predicate DurationDesc(a: CategoryDuration, b: CategoryDuration) {
    a.duration >= b.duration
  }

  lemma DurationDescIsTotalPreorder()
    ensures IsTotalPreorder(DurationDesc)
  {
  }

  /** The `$push` of `{categoryName, duration}` over the category groups of a day. */
  function CategoryDurations(gs: seq<Group<string>>): (cs: seq<CategoryDuration>)
    ensures |cs| == |gs|
    ensures forall i :: 0 <= i < |gs| ==> cs[i] == CategoryDuration(gs[i].key, gs[i].sum)
  {
    if gs == [] then [] else [CategoryDuration(gs[0].key, gs[0].sum)] + CategoryDurations(gs[1..])
  }

  /** A day's entry: the counts of its category groups added up, and the categories by duration, longest first. */
  function DayStatFor(routines: seq<Routine>, d: Day): (st: DayStat)
    ensures st.day == d
  {
    var groups := GroupBy(DayActivities(routines, d), CategoryOf, DurationOf);
    DayStat(d, CountTotal(groups), Sort(CategoryDurations(groups), DurationDesc))
  }

  /** The days of `days` that hold at least one activity (`$unwind` drops the empty ones), in order. */
  function ActiveDays(routines: seq<Routine>, days: seq<Day>): seq<Day> {
    if days == [] then []
    else (if DayActivities(routines, days[0]) == [] then [] else [days[0]]) + ActiveDays(routines, days[1..])
  }

  /** One entry per day, in the order given. */
  function DayStatsOf(routines: seq<Routine>, days: seq<Day>): (s: seq<DayStat>)
    ensures |s| == |days|
  {
    if days == [] then [] else [DayStatFor(routines, days[0])] + DayStatsOf(routines, days[1..])
  }

  lemma {:induction false} DayStatsOfAt(routines: seq<Routine>, days: seq<Day>, i: nat)
    requires i < |days|
    ensures DayStatsOf(routines, days)[i] == DayStatFor(routines, days[i])
  {
    if i > 0 {
      DayStatsOfAt(routines, days[1..], i - 1);
    }
  }

  /**
   * `getDayStats`: the days that hold activities, ordered Monday first by
   * their position in the week, or 404 when no routine holds any activity.
   */
  function GetDayStats(routines: seq<Routine>): (r: Result<seq<DayStat>>)
    ensures r.Err? ==> r.error == Error(NotFound, NoActivitiesMessage)
    ensures r.Ok? ==> r.value != []
  {
    var stats := DayStatsOf(routines, ActiveDays(routines, AllDays));
    if stats == [] then Err(Error(NotFound, NoActivitiesMessage)) else Ok(stats)
  }

  /** A day's total is the number of activities stored under that day across all routines. */
  lemma DayTotalCountsActivities(routines: seq<Routine>, d: Day)
    ensures DayStatFor(routines, d).totalActivities == |DayActivities(routines, d)|
  {
    GroupsAddUp(DayActivities(routines, d), CategoryOf, DurationOf);
  }

  /**
   * A day's categories are listed by total duration, longest first; every
   * category of the day's activities is listed with the summed duration of
   * its activities, and nothing else is listed.
   */
  lemma DayCategoriesSpec(routines: seq<Routine>, d: Day)
    ensures SortedBy(DayStatFor(routines, d).categories, DurationDesc)
    ensures forall a :: a in DayActivities(routines, d) ==>
      CategoryDuration(a.category, SumOf(DayActivities(routines, d), CategoryOf, DurationOf, a.category))
        in DayStatFor(routines, d).categories
    ensures forall c :: c in DayStatFor(routines, d).categories ==>
      c.duration == SumOf(DayActivities(routines, d), CategoryOf, DurationOf, c.categoryName)
      && exists a :: a in DayActivities(routines, d) && a.category == c.categoryName
  {
    var acts := DayActivities(routines, d);
    var unsorted := CategoryDurations(GroupBy(acts, CategoryOf, DurationOf));
    DurationDescIsTotalPreorder();
    SortSorted(unsorted, DurationDesc);
    forall a | a in acts
      ensures CategoryDuration(a.category, SumOf(acts, CategoryOf, DurationOf, a.category)) in DayStatFor(routines, d).categories
    {
      CategoryListed(acts, a);
    }
    forall c | c in DayStatFor(routines, d).categories
      ensures c.duration == SumOf(acts, CategoryOf, DurationOf, c.categoryName)
      ensures exists a :: a in acts && a.category == c.categoryName
    {
      CategoryFromActivity(acts, c);
    }
  }

  /** The category of every activity is listed with its summed duration. */
  lemma CategoryListed(acts: seq<Activity>, a: Activity)
    requires a in acts
    ensures CategoryDuration(a.category, SumOf(acts, CategoryOf, DurationOf, a.category))
      in Sort(CategoryDurations(GroupBy(acts, CategoryOf, DurationOf)), DurationDesc)
  {
    var unsorted := CategoryDurations(GroupBy(acts, CategoryOf, DurationOf));
    var cats := Sort(unsorted, DurationDesc);
    var ks := Keys(acts, CategoryOf);
    var i :| 0 <= i < |acts| && acts[i] == a;
    assert CategoryOf(acts[i]) in ks;
    var j :| 0 <= j < |ks| && ks[j] == a.category;
    assert unsorted[j] == CategoryDuration(a.category, SumOf(acts, CategoryOf, DurationOf, a.category));
    InMultiset(unsorted, cats, unsorted[j]);
  }

  /** Every listed category is that of some activity, with the summed duration of its activities. */
  lemma CategoryFromActivity(acts: seq<Activity>, c: CategoryDuration)
    requires c in Sort(CategoryDurations(GroupBy(acts, CategoryOf, DurationOf)), DurationDesc)
    ensures c.duration == SumOf(acts, CategoryOf, DurationOf, c.categoryName)
    ensures exists a :: a in acts && a.category == c.categoryName
  {
    var unsorted := CategoryDurations(GroupBy(acts, CategoryOf, DurationOf));
    var cats := Sort(unsorted, DurationDesc);
    var ks := Keys(acts, CategoryOf);
    InMultiset(unsorted, cats, c);
    var j :| 0 <= j < |unsorted| && unsorted[j] == c;
    assert ks[j] in ks;
    var i :| 0 <= i < |acts| && CategoryOf(acts[i]) == ks[j];
    assert acts[i] in acts;
  }

  /** Filtering a list of days keeps exactly the days that hold an activity. */
  lemma {:induction false} ActiveDaysMember(routines: seq<Routine>, days: seq<Day>, d: Day)
    ensures d in ActiveDays(routines, days) <==> d in days && DayActivities(routines, d) != []
  {
    if days != [] {
      ActiveDaysMember(routines, days[1..], d);
      assert d in days <==> d == days[0] || d in days[1..];
    }
  }

  /** Days listed in week order, Monday first, each at most once. */
  predicate InWeekOrder(days: seq<Day>) {
    forall i, j :: 0 <= i < j < |days| ==> Index(days[i]) < Index(days[j])
  }

  lemma InWeekOrderTail(days: seq<Day>)
    requires days != [] && InWeekOrder(days)
    ensures InWeekOrder(days[1..])
    ensures forall d :: d in days[1..] ==> Index(days[0]) < Index(d)
  {
    var tail := days[1..];
    forall i, j | 0 <= i < j < |tail| ensures Index(tail[i]) < Index(tail[j]) {
      assert tail[i] == days[i + 1] && tail[j] == days[j + 1];
    }
    forall d | d in tail ensures Index(days[0]) < Index(d) {
      var k :| 0 <= k < |tail| && tail[k] == d;
      assert days[k + 1] == d;
    }
  }

  lemma InWeekOrderCons(d0: Day, rest: seq<Day>)
    requires InWeekOrder(rest)
    requires forall d :: d in rest ==> Index(d0) < Index(d)
    ensures InWeekOrder([d0] + rest)
  {
    var s := [d0] + rest;
    forall i, j | 0 <= i < j < |s| ensures Index(s[i]) < Index(s[j]) {
      assert s[j] == rest[j - 1];
      if i == 0 {
        assert rest[j - 1] in rest;
      } else {
        assert s[i] == rest[i - 1];
      }
    }
  }

  /** Filtering a list of days in week order keeps them in week order. */
  lemma {:induction false} ActiveDaysOrdered(routines: seq<Routine>, days: seq<Day>)
    requires InWeekOrder(days)
    ensures InWeekOrder(ActiveDays(routines, days))
  {
    if days != [] {
      var d0, tail := days[0], days[1..];
      InWeekOrderTail(days);
      ActiveDaysOrdered(routines, tail);
      var rest := ActiveDays(routines, tail);
      forall d | d in rest ensures Index(d0) < Index(d) {
        ActiveDaysMember(routines, tail, d);
      }
      if DayActivities(routines, d0) == [] {
        assert ActiveDays(routines, days) == rest;
      } else {
        InWeekOrderCons(d0, rest);
        assert ActiveDays(routines, days) == [d0] + rest;
      }
    }
  }

  /** `getDayStats` answers 404 exactly when no day of any routine holds an activity. */
  lemma GetDayStatsErrIff(routines: seq<Routine>)
    ensures GetDayStats(routines).Err? <==> forall d: Day :: DayActivities(routines, d) == []
  {
    var days := ActiveDays(routines, AllDays);
    assert GetDayStats(routines).Err? <==> days == [];
    if days == [] {
      forall d: Day ensures DayActivities(routines, d) == [] {
        ActiveDaysMember(routines, AllDays, d);
        assert AllDays[Index(d)] == d;
      }
    } else {
      ActiveDaysMember(routines, AllDays, days[0]);
    }
  }

  /**
   * The entries of `getDayStats`, when it answers, are the days that hold an
   * activity, each once, Monday first.
   */
  lemma GetDayStatsDays(routines: seq<Routine>)
    ensures GetDayStats(routines).Ok? ==>
      var s := GetDayStats(routines).value;
      && (forall i, j :: 0 <= i < j < |s| ==> Index(s[i].day) < Index(s[j].day))
      && (forall d: Day :: DayActivities(routines, d) != [] <==> exists i :: 0 <= i < |s| && s[i].day == d)
  {
    if GetDayStats(routines).Ok? {
      var s := GetDayStats(routines).value;
      DayStatsInWeekOrder(routines);
      forall d: Day ensures DayActivities(routines, d) != [] <==> exists i :: 0 <= i < |s| && s[i].day == d {
        DayStatsCoverDay(routines, d);
      }
    }
  }

  lemma DayStatsInWeekOrder(routines: seq<Routine>)
    requires GetDayStats(routines).Ok?
    ensures forall i, j :: 0 <= i < j < |GetDayStats(routines).value| ==>
      Index(GetDayStats(routines).value[i].day) < Index(GetDayStats(routines).value[j].day)
  {
    var days := ActiveDays(routines, AllDays);
    var s := GetDayStats(routines).value;
    assert s == DayStatsOf(routines, days);
    AllDaysIndexed();
    ActiveDaysOrdered(routines, AllDays);
    forall i, j | 0 <= i < j < |s| ensures Index(s[i].day) < Index(s[j].day) {
      DayStatsOfDay(routines, days, i);
      DayStatsOfDay(routines, days, j);
    }
  }

  lemma DayStatsCoverDay(routines: seq<Routine>, d: Day)
    requires GetDayStats(routines).Ok?
    ensures DayActivities(routines, d) != [] <==>
      exists i :: 0 <= i < |GetDayStats(routines).value| && GetDayStats(routines).value[i].day == d
  {
    var days := ActiveDays(routines, AllDays);
    var s := GetDayStats(routines).value;
    assert s == DayStatsOf(routines, days);
    ActiveDayOfWeek(routines, d);
    if DayActivities(routines, d) != [] {
      var i :| 0 <= i < |days| && days[i] == d;
      DayStatsOfDay(routines, days, i);
    } else {
      forall i | 0 <= i < |s| ensures s[i].day != d {
        DayStatsOfDay(routines, days, i);
        assert days[i] in days;
      }
    }
  }

  lemma DayStatsOfDay(routines: seq<Routine>, days: seq<Day>, i: nat)
    requires i < |days|
    ensures DayStatsOf(routines, days)[i].day == days[i]
  {
    DayStatsOfAt(routines, days, i);
  }

  /** A day is listed exactly when it holds an activity. */
  lemma ActiveDayOfWeek(routines: seq<Routine>, d: Day)
    ensures d in ActiveDays(routines, AllDays) <==> DayActivities(routines, d) != []
  {
    ActiveDaysMember(routines, AllDays, d);
    assert AllDays[Index(d)] == d;
  }

  /**
   * Each entry of `getDayStats` is that day's statistics, and its total is
   * the number of activities stored under that day.
   */
  lemma GetDayStatsEntries(routines: seq<Routine>)
    ensures GetDayStats(routines).Ok? ==>
      var s := GetDayStats(routines).value;
      && (forall i :: 0 <= i < |s| ==> s[i] == DayStatFor(routines, s[i].day))
      && (forall i :: 0 <= i < |s| ==> s[i].totalActivities == |DayActivities(routines, s[i].day)|)
  {
    var days := ActiveDays(routines, AllDays);
    var s := DayStatsOf(routines, days);
    forall i | 0 <= i < |s|
      ensures s[i] == DayStatFor(routines, s[i].day)
      ensures s[i].totalActivities == |DayActivities(routines, s[i].day)|
    {
      DayStatsOfAt(routines, days, i);
      DayTotalCountsActivities(routines, days[i]);
    }
  }

  /** One entry of the activity statistics. */
  datatype CategoryStat = CategoryStat(categoryName: string, totalDuration: int, totalActivity: nat)

  /** `$sort` by `{totalDuration: -1}`. */
  predicate TotalDurationDesc(a: CategoryStat, b: CategoryStat) {
    a.totalDuration >= b.totalDuration
  }

  lemma TotalDurationDescIsTotalPreorder()
    ensures IsTotalPreorder(TotalDurationDesc)
  {
  }

  /** The `$project` of each category group. */
  function CategoryStats(gs: seq<Group<string>>): (cs: seq<CategoryStat>)
    ensures |cs| == |gs|
    ensures forall i :: 0 <= i < |gs| ==> cs[i] == CategoryStat(gs[i].key, gs[i].sum, gs[i].count)
  {
    if gs == [] then [] else [CategoryStat(gs[0].key, gs[0].sum, gs[0].count)] + CategoryStats(gs[1..])
  }

  /**
   * `getActivityStats`: per category of the activities collection, the summed
   * duration and the number of activities, longest total first; 404 when the
   * collection is empty.
   */
  function GetActivityStats(activities: seq<Activity>): (r: Result<seq<CategoryStat>>)
    ensures r.Err? <==> activities == []
    ensures r.Err? ==> r.error == Error(NotFound, NoActivitiesMessage)
  {
    var groups := GroupBy(activities, CategoryOf, DurationOf);
    var stats := Sort(CategoryStats(groups), TotalDurationDesc);
    assert activities == [] || CategoryOf(activities[0]) in Keys(activities, CategoryOf);
    if stats == [] then Err(Error(NotFound, NoActivitiesMessage)) else Ok(stats)
  }

  /** The activity statistics are ordered by total duration, longest first. */
  lemma ActivityStatsSorted(activities: seq<Activity>)
    requires activities != []
    ensures SortedBy(GetActivityStats(activities).value, TotalDurationDesc)
  {
    var unsorted := CategoryStats(GroupBy(activities, CategoryOf, DurationOf));
    TotalDurationDescIsTotalPreorder();
    SortSorted(unsorted, TotalDurationDesc);
  }

  /** Every category of the collection is listed with its summed duration and its number of activities. */
  lemma ActivityStatsComplete(activities: seq<Activity>)
    requires activities != []
    ensures forall a :: a in activities ==>
      CategoryStat(a.category, SumOf(activities, CategoryOf, DurationOf, a.category),
                   CountOf(activities, CategoryOf, a.category)) in GetActivityStats(activities).value
  {
    var unsorted := CategoryStats(GroupBy(activities, CategoryOf, DurationOf));
    var s := Sort(unsorted, TotalDurationDesc);
    assert s == GetActivityStats(activities).value;
    var ks := Keys(activities, CategoryOf);
    forall a | a in activities
      ensures CategoryStat(a.category, SumOf(activities, CategoryOf, DurationOf, a.category),
                           CountOf(activities, CategoryOf, a.category)) in s
    {
      var i :| 0 <= i < |activities| && activities[i] == a;
      assert CategoryOf(activities[i]) in ks;
      var j :| 0 <= j < |ks| && ks[j] == a.category;
      InMultiset(unsorted, s, unsorted[j]);
    }
  }

  /** Every listed entry carries its category's own count and summed duration, and names a category of the collection. */
  lemma ActivityStatsSound(activities: seq<Activity>)
    requires activities != []
    ensures forall c :: c in GetActivityStats(activities).value ==>
      && c.totalActivity == CountOf(activities, CategoryOf, c.categoryName)
      && c.totalDuration == SumOf(activities, CategoryOf, DurationOf, c.categoryName)
      && exists a :: a in activities && a.category == c.categoryName
  {
    var unsorted := CategoryStats(GroupBy(activities, CategoryOf, DurationOf));
    var s := Sort(unsorted, TotalDurationDesc);
    assert s == GetActivityStats(activities).value;
    var ks := Keys(activities, CategoryOf);
    forall c | c in s
      ensures c.totalActivity == CountOf(activities, CategoryOf, c.categoryName)
      ensures c.totalDuration == SumOf(activities, CategoryOf, DurationOf, c.categoryName)
      ensures exists a :: a in activities && a.category == c.categoryName
    {
      InMultiset(unsorted, s, c);
      var j :| 0 <= j < |unsorted| && unsorted[j] == c;
      assert ks[j] in ks;
      var i :| 0 <= i < |activities| && CategoryOf(activities[i]) == ks[j];
      assert activities[i] in activities;
    }
  }

  // ---------------------------------------------------------------------
  // User statistics
  // ---------------------------------------------------------------------

  /** The `gender` enumeration of a user document. */
  datatype Gender = Male | Female | NoGender

  function GenderName(g: Gender): string {
    match g
    case Male => "male"
    case Female => "female"
    case NoGender => "none"
  }

  /**
   * The fields of a user document the statistics read: the `nationality`
   * string, the `nationality.countryName` path (absent when the nationality
   * has no such field), the optional gender, and the calendar fields `$year`
   * and `$month` extract from the birth date and the registration date.
   */
  datatype StatUser = StatUser(
    nationality: string,
    countryName: Option<string>,
    gender: Option<Gender>,
    birthYear: int,
    registrationYear: int,
    registrationMonth: int)

  /** `{$sum: 1}` */
  function OneUser(u: StatUser): int {
    1
  }

  /** The `_id` of the first `$group` stage of the nationality pipeline. */
  datatype NationalityGender = NationalityGender(nationality: Option<string>, gender: Option<Gender>)

  /** That stage's key, for a given reading of the nationality field. */
  function PairKey(key: StatUser -> Option<string>): StatUser -> NationalityGender {
    u => NationalityGender(key(u), u.gender)
  }

  function NationalityOf(g: Group<NationalityGender>): Option<string> {
    g.key.nationality
  }

  /** The first stage's `count` field. */
  function CountField(g: Group<NationalityGender>): int {
    g.count
  }

  /** One pushed `{gender, count}` entry. */
  datatype GenderCount = GenderCount(gender: Option<Gender>, count: int)

  /** One output document of the second `$group` stage. */
  datatype NationalityGroup = NationalityGroup(id: Option<string>, genders: seq<GenderCount>, total: int)

  /** `$push` of `{gender, count}` over the first-stage groups of nationality `id`, in their order. */
  function GendersOf(pairs: seq<Group<NationalityGender>>, id: Option<string>): (gcs: seq<GenderCount>)
    ensures forall gc :: gc in gcs ==>
      exists i :: 0 <= i < |pairs| && pairs[i].key == NationalityGender(id, gc.gender) && pairs[i].count == gc.count
    ensures forall i :: 0 <= i < |pairs| && pairs[i].key.nationality == id ==>
      GenderCount(pairs[i].key.gender, pairs[i].count) in gcs
  {
    if pairs == [] then []
    else
      var init, last := pairs[..|pairs| - 1], pairs[|pairs| - 1];
      assert forall i :: 0 <= i < |init| ==> init[i] == pairs[i];
      GendersOf(init, id) + (if last.key.nationality == id then [GenderCount(last.key.gender, last.count)] else [])
  }

  /** The second `$group` stage for the nationalities `ids`, in that order. */
  function SecondStage(pairs: seq<Group<NationalityGender>>, ids: seq<Option<string>>): (gs: seq<NationalityGroup>)
    ensures |gs| == |ids|
    ensures forall i :: 0 <= i < |ids| ==>
      gs[i] == NationalityGroup(ids[i], GendersOf(pairs, ids[i]), SumOf(pairs, NationalityOf, CountField, ids[i]))
  {
    if ids == [] then []
    else
      var g := NationalityGroup(ids[0], GendersOf(pairs, ids[0]), SumOf(pairs, NationalityOf, CountField, ids[0]));
      [g] + SecondStage(pairs, ids[1..])
  }

  /** The nationality pipeline: count users per (nationality, gender), then regroup by nationality. */
  function NationalityGroups(users: seq<StatUser>, key: StatUser -> Option<string>): seq<NationalityGroup> {
    var pairs := GroupBy(users, PairKey(key), OneUser);
    SecondStage(pairs, Keys(pairs, NationalityOf))
  }

  /** The sum of the pushed counts. */
  function SumCounts(gcs: seq<GenderCount>): int {
    if gcs == [] then 0 else SumCounts(gcs[..|gcs| - 1]) + gcs[|gcs| - 1].count
  }

  /** A nationality's `total` is the sum of the counts pushed for it. */
  lemma {:induction false} TotalIsSumOfCounts(pairs: seq<Group<NationalityGender>>, id: Option<string>)
    ensures SumOf(pairs, NationalityOf, CountField, id) == SumCounts(GendersOf(pairs, id))
  {
    if pairs != [] {
      var init, last := pairs[..|pairs| - 1], pairs[|pairs| - 1];
      TotalIsSumOfCounts(init, id);
      var gcs := GendersOf(init, id);
      if last.key.nationality == id {
        var gc := GenderCount(last.key.gender, last.count);
        assert (gcs + [gc])[..|gcs + [gc]| - 1] == gcs;
      } else {
        assert gcs + [] == gcs;
      }
    }
  }

  /** Each gender appears at most once among the pushed entries. */
  predicate GendersDistinct(gcs: seq<GenderCount>) {
    forall a, b :: 0 <= a < b < |gcs| ==> gcs[a].gender != gcs[b].gender
  }

  predicate PairKeysDistinct(pairs: seq<Group<NationalityGender>>) {
    forall a, b :: 0 <= a < b < |pairs| ==> pairs[a].key != pairs[b].key
  }

  /** When the first-stage keys are distinct, so are the genders pushed for one nationality. */
  lemma {:induction false} GendersOfDistinct(pairs: seq<Group<NationalityGender>>, id: Option<string>)
    requires PairKeysDistinct(pairs)
    ensures GendersDistinct(GendersOf(pairs, id))
  {
    if pairs != [] {
      var init, last := pairs[..|pairs| - 1], pairs[|pairs| - 1];
      assert PairKeysDistinct(init) by {
        forall a, b | 0 <= a < b < |init| ensures init[a].key != init[b].key {
          assert init[a] == pairs[a] && init[b] == pairs[b];
        }
      }
      GendersOfDistinct(init, id);
      var gcs := GendersOf(init, id);
      var all := GendersOf(pairs, id);
      if last.key.nationality == id {
        forall a | 0 <= a < |gcs| ensures gcs[a].gender != last.key.gender {
          assert gcs[a] in gcs;
          var i :| 0 <= i < |init| && init[i].key == NationalityGender(id, gcs[a].gender) && init[i].count == gcs[a].count;
          assert pairs[i] == init[i];
        }
        assert all == gcs + [GenderCount(last.key.gender, last.count)];
        forall a, b | 0 <= a < b < |all| ensures all[a].gender != all[b].gender {
          assert all[a] == gcs[a];
          if b < |gcs| {
            assert all[b] == gcs[b];
          }
        }
      } else {
        assert all == gcs + [];
        assert all == gcs;
      }
    }
  }

  /** The nationality of every user is among the second stage's ids. */
  lemma UserNationalityIsId(users: seq<StatUser>, key: StatUser -> Option<string>, k: nat)
    requires k < |users|
    ensures key(users[k]) in Keys(GroupBy(users, PairKey(key), OneUser), NationalityOf)
  {
    var pk := PairKey(key);
    var ks := Keys(users, pk);
    var pairs := GroupBy(users, pk, OneUser);
    assert pk(users[k]) in ks;
    var p :| 0 <= p < |ks| && ks[p] == pk(users[k]);
    assert pairs[p].key == ks[p];
    assert NationalityOf(pairs[p]) == key(users[k]);
  }

  lemma NationalityIdsDistinct(users: seq<StatUser>, key: StatUser -> Option<string>)
    ensures forall i, j :: 0 <= i < j < |NationalityGroups(users, key)| ==>
      NationalityGroups(users, key)[i].id != NationalityGroups(users, key)[j].id
  {
    var pairs := GroupBy(users, PairKey(key), OneUser);
    var ids := Keys(pairs, NationalityOf);
    var gs := SecondStage(pairs, ids);
    assert gs == NationalityGroups(users, key);
    forall i, j | 0 <= i < j < |gs| ensures gs[i].id != gs[j].id {
      assert gs[i].id == ids[i] && gs[j].id == ids[j];
    }
  }

  lemma NationalityIdOfUser(users: seq<StatUser>, key: StatUser -> Option<string>, k: nat)
    requires k < |users|
    ensures exists i :: 0 <= i < |NationalityGroups(users, key)| && NationalityGroups(users, key)[i].id == key(users[k])
  {
    var pairs := GroupBy(users, PairKey(key), OneUser);
    var ids := Keys(pairs, NationalityOf);
    var gs := SecondStage(pairs, ids);
    assert gs == NationalityGroups(users, key);
    UserNationalityIsId(users, key, k);
    var i :| 0 <= i < |ids| && ids[i] == key(users[k]);
    assert gs[i].id == key(users[k]);
  }

  /** The nationality groups: one per nationality value, each once, and every user's nationality has one. */
  lemma NationalityGroupsIds(users: seq<StatUser>, key: StatUser -> Option<string>)
    ensures forall i, j :: 0 <= i < j < |NationalityGroups(users, key)| ==>
      NationalityGroups(users, key)[i].id != NationalityGroups(users, key)[j].id
    ensures forall u :: u in users ==>
      exists i :: 0 <= i < |NationalityGroups(users, key)| && NationalityGroups(users, key)[i].id == key(u)
  {
    NationalityIdsDistinct(users, key);
    forall u | u in users
      ensures exists i :: 0 <= i < |NationalityGroups(users, key)| && NationalityGroups(users, key)[i].id == key(u)
    {
      var k :| 0 <= k < |users| && users[k] == u;
      NationalityIdOfUser(users, key, k);
    }
  }

  /** Every nationality group is some user's nationality. */
  lemma NationalityGroupOfSomeUser(users: seq<StatUser>, key: StatUser -> Option<string>, i: nat)
    requires i < |NationalityGroups(users, key)|
    ensures exists u :: u in users && key(u) == NationalityGroups(users, key)[i].id
  {
    var pk := PairKey(key);
    var ks := Keys(users, pk);
    var pairs := GroupBy(users, pk, OneUser);
    var ids := Keys(pairs, NationalityOf);
    assert NationalityGroups(users, key)[i].id == ids[i];
    assert ids[i] in ids;
    var p :| 0 <= p < |pairs| && NationalityOf(pairs[p]) == ids[i];
    assert pairs[p].key == ks[p] && ks[p] in ks;
    var u :| 0 <= u < |users| && pk(users[u]) == ks[p];
    assert users[u] in users;
  }

  /** The first stage's groups have distinct keys and count the users of their key. */
  lemma PairsCountUsers(users: seq<StatUser>, key: StatUser -> Option<string>)
    ensures PairKeysDistinct(GroupBy(users, PairKey(key), OneUser))
    ensures forall p :: 0 <= p < |GroupBy(users, PairKey(key), OneUser)| ==>
      GroupBy(users, PairKey(key), OneUser)[p].count
        == CountOf(users, PairKey(key), GroupBy(users, PairKey(key), OneUser)[p].key)
  {
    var pk := PairKey(key);
    var pairs := GroupBy(users, pk, OneUser);
    var ks := Keys(users, pk);
    forall a, b | 0 <= a < b < |pairs| ensures pairs[a].key != pairs[b].key {
      assert pairs[a].key == ks[a] && pairs[b].key == ks[b];
    }
  }

  /**
   * Within one nationality group each gender appears once, with the number
   * of users of that nationality and gender, and the group's total is the
   * sum of those counts.
   */
  lemma NationalityGroupAt(users: seq<StatUser>, key: StatUser -> Option<string>, i: nat)
    requires i < |NationalityGroups(users, key)|
    ensures var g := NationalityGroups(users, key)[i];
      && g.total == SumCounts(g.genders)
      && GendersDistinct(g.genders)
      && forall gc :: gc in g.genders ==> gc.count == CountOf(users, PairKey(key), NationalityGender(g.id, gc.gender))
  {
    var pairs := GroupBy(users, PairKey(key), OneUser);
    var ids := Keys(pairs, NationalityOf);
    var g := SecondStage(pairs, ids)[i];
    assert g == NationalityGroups(users, key)[i];
    assert g.id == ids[i] && g.genders == GendersOf(pairs, ids[i]);
    TotalIsSumOfCounts(pairs, ids[i]);
    PairsCountUsers(users, key);
    GendersOfDistinct(pairs, ids[i]);
    forall gc | gc in g.genders ensures gc.count == CountOf(users, PairKey(key), NationalityGender(g.id, gc.gender)) {
      var p :| 0 <= p < |pairs| && pairs[p].key == NationalityGender(g.id, gc.gender) && pairs[p].count == gc.count;
    }
  }

  /** The response record of one nationality: `total` and one count per gender. */
  type GenderRecord = map<string, int>

  const TotalKey: string := "total"

  /** The property name a group `_id` becomes: a missing nationality is `null`. */
  function NationalityKey(id: Option<string>): string {
    if id.None? then "null" else id.value
  }

  /** The property name a pushed gender becomes: a user without one gives `undefined`. */
  function GenderKey(g: Option<Gender>): string {
    if g.None? then "undefined" else GenderName(g.value)
  }

  /** `{total, male: 0, female: 0, none: 0}` */
  function BaseRecord(total: int): (rec: GenderRecord)
    ensures rec.Keys == {TotalKey, "male", "female", "none"}
  {
    map[TotalKey := total, "male" := 0, "female" := 0, "none" := 0]
  }

  /** The record after writing each pushed count under its gender, in order. */
  function FillGenders(rec: GenderRecord, gcs: seq<GenderCount>): GenderRecord {
    if gcs == [] then rec
    else FillGenders(rec, gcs[..|gcs| - 1])[GenderKey(gcs[|gcs| - 1].gender) := gcs[|gcs| - 1].count]
  }

  /** The record has its initial properties and one per pushed gender, and no others. */
  lemma {:induction false} FillGendersKeys(rec: GenderRecord, gcs: seq<GenderCount>)
    ensures FillGenders(rec, gcs).Keys == rec.Keys + set gc | gc in gcs :: GenderKey(gc.gender)
  {
    if gcs != [] {
      var init, last := gcs[..|gcs| - 1], gcs[|gcs| - 1];
      assert forall gc :: gc in gcs <==> gc in init || gc == last;
      FillGendersKeys(rec, init);
    }
  }

  function NationalityRecord(g: NationalityGroup): GenderRecord {
    FillGenders(BaseRecord(g.total), g.genders)
  }

  /** The whole `nationalityStats` object after the outer loop over `groups`. */
  function FillSpec(groups: seq<NationalityGroup>): map<string, GenderRecord> {
    if groups == [] then map[]
    else FillSpec(groups[..|groups| - 1])[NationalityKey(groups[|groups| - 1].id) := NationalityRecord(groups[|groups| - 1])]
  }

  /** `nationalityStats` has one property per group's nationality, and no others. */
  lemma {:induction false} FillSpecKeys(groups: seq<NationalityGroup>)
    ensures FillSpec(groups).Keys == set g | g in groups :: NationalityKey(g.id)
  {
    if groups != [] {
      var init, last := groups[..|groups| - 1], groups[|groups| - 1];
      assert forall g :: g in groups <==> g in init || g == last;
      FillSpecKeys(init);
    }
  }

  /**
   * The nested `forEach` of `getNationalityStats`: for each group, write a
   * fresh record with every gender at 0, then overwrite each pushed gender
   * with its count.
   */
  method FillNationalityStats(groups: seq<NationalityGroup>) returns (stats: map<string, GenderRecord>)
    ensures stats == FillSpec(groups)
  {
    stats := map[];
    for i := 0 to |groups|
      invariant stats == FillSpec(groups[..i])
    {
      var g := groups[i];
      var id := NationalityKey(g.id);
      ghost var before := stats;
      stats := stats[id := BaseRecord(g.total)];
      for j := 0 to |g.genders|
        invariant stats == before[id := FillGenders(BaseRecord(g.total), g.genders[..j])]
      {
        FillGendersStep(BaseRecord(g.total), g.genders, j);
        stats := stats[id := stats[id][GenderKey(g.genders[j].gender) := g.genders[j].count]];
      }
      assert g.genders[..|g.genders|] == g.genders;
      FillSpecStep(groups, i);
    }
    assert groups[..|groups|] == groups;
  }

  lemma FillGendersStep(rec: GenderRecord, gcs: seq<GenderCount>, j: nat)
    requires j < |gcs|
    ensures FillGenders(rec, gcs[..j + 1]) == FillGenders(rec, gcs[..j])[GenderKey(gcs[j].gender) := gcs[j].count]
  {
    assert gcs[..j + 1][..j] == gcs[..j];
  }

  lemma FillSpecStep(groups: seq<NationalityGroup>, i: nat)
    requires i < |groups|
    ensures FillSpec(groups[..i + 1]) == FillSpec(groups[..i])[NationalityKey(groups[i].id) := NationalityRecord(groups[i])]
  {
    assert groups[..i + 1][..i] == groups[..i];
  }

  /** A gender written last wins: its count is what the record holds. */
  lemma {:induction false} FillGendersLast(rec: GenderRecord, gcs: seq<GenderCount>, i: nat)
    requires i < |gcs|
    requires forall j :: i < j < |gcs| ==> GenderKey(gcs[j].gender) != GenderKey(gcs[i].gender)
    ensures GenderKey(gcs[i].gender) in FillGenders(rec, gcs)
    ensures FillGenders(rec, gcs)[GenderKey(gcs[i].gender)] == gcs[i].count
  {
    if i < |gcs| - 1 {
      FillGendersLast(rec, gcs[..|gcs| - 1], i);
    }
  }

  /** A property no pushed gender names keeps its initial value. */
  lemma {:induction false} FillGendersKeeps(rec: GenderRecord, gcs: seq<GenderCount>, k: string)
    requires k in rec
    requires forall gc :: gc in gcs ==> GenderKey(gc.gender) != k
    ensures k in FillGenders(rec, gcs) && FillGenders(rec, gcs)[k] == rec[k]
  {
    if gcs != [] {
      var init := gcs[..|gcs| - 1];
      assert forall gc :: gc in init ==> gc in gcs;
      FillGendersKeeps(rec, init, k);
    }
  }

  lemma GenderKeyInjective(a: Option<Gender>, b: Option<Gender>)
    ensures GenderKey(a) == GenderKey(b) <==> a == b
  {
    if a != b {
      var ka, kb := GenderKey(a), GenderKey(b);
      if a.Some? && b.Some? {
        assert ka[0] != kb[0] || |ka| != |kb|;
      } else {
        assert ka[0] != kb[0];
      }
    }
  }

  /** A record's `total` is the group's total: no gender is named `total`. */
  lemma RecordTotal(g: NationalityGroup)
    ensures TotalKey in NationalityRecord(g) && NationalityRecord(g)[TotalKey] == g.total
  {
    forall gc | gc in g.genders ensures GenderKey(gc.gender) != TotalKey {
      var k := GenderKey(gc.gender);
      assert k[0] != 't';
    }
    FillGendersKeeps(BaseRecord(g.total), g.genders, TotalKey);
  }

  /** When each gender is pushed once, a pushed gender's record entry is its count. */
  lemma RecordHoldsPushed(g: NationalityGroup, a: nat, gender: Gender)
    requires GendersDistinct(g.genders)
    requires a < |g.genders| && g.genders[a].gender == Some(gender)
    ensures GenderName(gender) in NationalityRecord(g)
    ensures NationalityRecord(g)[GenderName(gender)] == g.genders[a].count
  {
    var gcs := g.genders;
    forall b | a < b < |gcs| ensures GenderKey(gcs[b].gender) != GenderKey(gcs[a].gender) {
      GenderKeyInjective(gcs[b].gender, gcs[a].gender);
    }
    FillGendersLast(BaseRecord(g.total), gcs, a);
  }

  /** A gender the group pushed no entry for keeps the initial 0. */
  lemma RecordKeepsUnpushed(g: NationalityGroup, gender: Gender)
    requires forall gc :: gc in g.genders ==> gc.gender != Some(gender)
    ensures GenderName(gender) in NationalityRecord(g) && NationalityRecord(g)[GenderName(gender)] == 0
  {
    forall gc | gc in g.genders ensures GenderKey(gc.gender) != GenderName(gender) {
      GenderKeyInjective(gc.gender, Some(gender));
    }
    FillGendersKeeps(BaseRecord(g.total), g.genders, GenderName(gender));
  }

  /**
   * Each nationality's record holds its total, which is the sum of its
   * gender counts, and under `male`, `female` and `none` the number of users
   * of that nationality and gender: 0 when the group pushed no entry for it.
   */
  lemma NationalityRecordCounts(users: seq<StatUser>, key: StatUser -> Option<string>, i: nat, gender: Gender)
    requires i < |NationalityGroups(users, key)|
    ensures var g := NationalityGroups(users, key)[i];
      && TotalKey in NationalityRecord(g)
      && NationalityRecord(g)[TotalKey] == g.total == SumCounts(g.genders)
      && GenderName(gender) in NationalityRecord(g)
      && NationalityRecord(g)[GenderName(gender)] == CountOf(users, PairKey(key), NationalityGender(g.id, Some(gender)))
  {
    var g := NationalityGroups(users, key)[i];
    NationalityGroupAt(users, key, i);
    RecordTotal(g);
    if a :| 0 <= a < |g.genders| && g.genders[a].gender == Some(gender) {
      RecordHoldsPushed(g, a, gender);
      assert g.genders[a] in g.genders;
    } else {
      RecordKeepsUnpushed(g, gender);
      UnpushedGenderIsZero(users, key, i, gender);
    }
  }

  /** A gender a nationality group pushed no entry for has no user of that nationality. */
  lemma UnpushedGenderIsZero(users: seq<StatUser>, key: StatUser -> Option<string>, i: nat, gender: Gender)
    requires i < |NationalityGroups(users, key)|
    requires forall gc :: gc in NationalityGroups(users, key)[i].genders ==> gc.gender != Some(gender)
    ensures CountOf(users, PairKey(key), NationalityGender(NationalityGroups(users, key)[i].id, Some(gender))) == 0
  {
    var target := NationalityGender(NationalityGroups(users, key)[i].id, Some(gender));
    forall u | 0 <= u < |users| ensures PairKey(key)(users[u]) != target {
      UserNotUnpushed(users, key, i, gender, u);
    }
    AbsentKeyIsZero(users, PairKey(key), OneUser, target);
  }

  /** One user's (nationality, gender) pair is not a pair the group pushed no entry for. */
  lemma UserNotUnpushed(users: seq<StatUser>, key: StatUser -> Option<string>, i: nat, gender: Gender, u: nat)
    requires i < |NationalityGroups(users, key)| && u < |users|
    requires forall gc :: gc in NationalityGroups(users, key)[i].genders ==> gc.gender != Some(gender)
    ensures PairKey(key)(users[u]) != NationalityGender(NationalityGroups(users, key)[i].id, Some(gender))
  {
    var pk := PairKey(key);
    var pairs := GroupBy(users, pk, OneUser);
    var ids := Keys(pairs, NationalityOf);
    var g := SecondStage(pairs, ids)[i];
    assert g == NationalityGroups(users, key)[i];
    var ks := Keys(users, pk);
    var k := pk(users[u]);
    assert k in ks;
    var p :| 0 <= p < |ks| && ks[p] == k;
    assert pairs[p].key == k;
    if k.nationality == g.id {
      assert GenderCount(k.gender, pairs[p].count) in g.genders;
    }
  }

  /** A nationality written by no later group keeps the record the loop wrote for it. */
  lemma {:induction false} FillSpecAt(groups: seq<NationalityGroup>, i: nat)
    requires i < |groups|
    requires forall j :: i < j < |groups| ==> NationalityKey(groups[j].id) != NationalityKey(groups[i].id)
    ensures NationalityKey(groups[i].id) in FillSpec(groups)
    ensures FillSpec(groups)[NationalityKey(groups[i].id)] == NationalityRecord(groups[i])
  {
    if i < |groups| - 1 {
      FillSpecAt(groups[..|groups| - 1], i);
    }
  }

  /** No two groups become the same property name. */
  predicate NamesDistinct(groups: seq<NationalityGroup>) {
    forall i, j :: 0 <= i < j < |groups| ==> NationalityKey(groups[i].id) != NationalityKey(groups[j].id)
  }

  /** `pageResults` counts the properties written: at most one per group. */
  lemma {:induction false} FillSpecSize(groups: seq<NationalityGroup>)
    ensures |FillSpec(groups).Keys| <= |groups|
  {
    if groups != [] {
      FillSpecSize(groups[..|groups| - 1]);
    }
  }

  /** When the groups' names differ, `pageResults` is the number of groups. */
  lemma {:induction false} FillSpecSizeDistinct(groups: seq<NationalityGroup>)
    requires NamesDistinct(groups)
    ensures |FillSpec(groups).Keys| == |groups|
  {
    if groups != [] {
      var init, last := groups[..|groups| - 1], groups[|groups| - 1];
      assert NamesDistinct(init) by {
        forall a, b | 0 <= a < b < |init| ensures NationalityKey(init[a].id) != NationalityKey(init[b].id) {
          assert init[a] == groups[a] && init[b] == groups[b];
        }
      }
      FillSpecSizeDistinct(init);
      FillSpecKeys(init);
      forall g | g in init ensures NationalityKey(g.id) != NationalityKey(last.id) {
        var k :| 0 <= k < |init| && init[k] == g;
        assert groups[k] == g;
      }
      assert NationalityKey(last.id) !in FillSpec(init).Keys;
    }
  }

  /** `getNationalityStats` groups by the `nationality.countryName` path. */
  function CountryNameOf(u: StatUser): Option<string> {
    u.countryName
  }

  /** The body of a nationality statistics answer. */
  datatype NationalityResponse = NationalityResponse(
    currentPage: int,
    totalPages: nat,
    pageResults: nat,
    totalResults: nat,
    nationalityStats: map<string, GenderRecord>)

  /**
   * `getNationalityStats`: one page of the nationality groups (400 for a
   * negative page or limit, 404 past the last page), turned into the
   * nationality-to-record object. Its own 404 for an empty page cannot
   * fire: a page that is answered holds at least one group.
   */
  method GetNationalityStats(users: seq<StatUser>, pageParam: Option<int>, limitParam: Option<int>)
    returns (r: Result<NationalityResponse>)
    ensures var page, limit := OrDefault(pageParam, 1), OrDefault(limitParam, 10);
      var groups := NationalityGroups(users, CountryNameOf);
      && (r.Err? <==> page <= 0 || limit <= 0 || page > CeilDiv(|groups|, limit))
      && (r.Err? ==> r.error == AggregatePagination(groups, page, limit).error)
      && (r.Ok? ==>
            var results := AggregatePagination(groups, page, limit).value.results;
            && r.value.nationalityStats == FillSpec(results)
            && r.value.currentPage == page
            && r.value.totalPages == CeilDiv(|groups|, limit)
            && r.value.totalResults == |groups|
            && 0 < r.value.pageResults <= |results| <= limit)
  {
    var groups := NationalityGroups(users, CountryNameOf);
    var paged := AggregatePagination(groups, OrDefault(pageParam, 1), OrDefault(limitParam, 10));
    if paged.Err? {
      return Err(paged.error);
    }
    var userStats := paged.value.results;
    assert userStats != [];
    var stats := FillNationalityStats(userStats);
    FillSpecKeys(userStats);
    FillSpecSize(userStats);
    assert NationalityKey(userStats[0].id) in stats.Keys;
    r := Ok(NationalityResponse(paged.value.currentPage, paged.value.totalPages, |stats.Keys|,
                                paged.value.totalResults, stats));
  }

  /** The `$year` of a user's birth date. */
  function BirthYearOf(u: StatUser): int {
    u.birthYear
  }

  /** One entry of the birthdate statistics. */
  datatype BirthdateStat = BirthdateStat(year: int, userCount: nat)

  /** The `$project` of each birth-year group. */
  function YearProjection(gs: seq<Group<int>>): (bs: seq<BirthdateStat>)
    ensures |bs| == |gs|
    ensures forall i :: 0 <= i < |gs| ==> bs[i] == BirthdateStat(gs[i].key, gs[i].count)
  {
    if gs == [] then [] else [BirthdateStat(gs[0].key, gs[0].count)] + YearProjection(gs[1..])
  }

  /** `$sort` by `{year: 1}`. */
  predicate YearAsc(a: BirthdateStat, b: BirthdateStat) {
    a.year <= b.year
  }

  lemma YearAscIsTotalPreorder()
    ensures IsTotalPreorder(YearAsc)
  {
  }

  predicate YearsDiffer(a: BirthdateStat, b: BirthdateStat) {
    a.year != b.year
  }

  /** The birthdate pipeline: users per birth year, earliest year first. */
  function BirthdateStats(users: seq<StatUser>): (bs: seq<BirthdateStat>)
    ensures |bs| == |Keys(users, BirthYearOf)|
  {
    Sort(YearProjection(GroupBy(users, BirthYearOf, OneUser)), YearAsc)
  }

  /** The birth years come out strictly increasing: sorted, and each year once. */
  lemma BirthdateStatsOrdered(users: seq<StatUser>)
    ensures var bs := BirthdateStats(users);
      forall i, j :: 0 <= i < j < |bs| ==> bs[i].year < bs[j].year
  {
    var ks := Keys(users, BirthYearOf);
    var unsorted := YearProjection(GroupBy(users, BirthYearOf, OneUser));
    var bs := Sort(unsorted, YearAsc);
    YearAscIsTotalPreorder();
    SortSorted(unsorted, YearAsc);
    assert Pairwise(unsorted, YearsDiffer) by {
      forall i, j | 0 <= i < |unsorted| && 0 <= j < |unsorted| && i != j ensures YearsDiffer(unsorted[i], unsorted[j]) {
        assert unsorted[i].year == ks[i] && unsorted[j].year == ks[j];
      }
    }
    SortPairwise(unsorted, YearsDiffer, YearAsc);
    forall i, j | 0 <= i < j < |bs| ensures bs[i].year < bs[j].year {
      assert YearAsc(bs[i], bs[j]) && YearsDiffer(bs[i], bs[j]);
    }
  }

  /**
   * Every user's birth year is listed with the number of users born that
   * year, and every listed year is some user's with that count.
   */
  lemma BirthdateStatsCounts(users: seq<StatUser>)
    ensures forall u :: u in users ==>
      BirthdateStat(u.birthYear, CountOf(users, BirthYearOf, u.birthYear)) in BirthdateStats(users)
    ensures forall b :: b in BirthdateStats(users) ==>
      b.userCount == CountOf(users, BirthYearOf, b.year) && exists u :: u in users && u.birthYear == b.year
  {
    var ks := Keys(users, BirthYearOf);
    var unsorted := YearProjection(GroupBy(users, BirthYearOf, OneUser));
    var bs := Sort(unsorted, YearAsc);
    forall u | u in users ensures BirthdateStat(u.birthYear, CountOf(users, BirthYearOf, u.birthYear)) in bs {
      var i :| 0 <= i < |users| && users[i] == u;
      assert BirthYearOf(users[i]) in ks;
      var j :| 0 <= j < |ks| && ks[j] == u.birthYear;
      InMultiset(unsorted, bs, unsorted[j]);
    }
    forall b | b in bs
      ensures b.userCount == CountOf(users, BirthYearOf, b.year)
      ensures exists u :: u in users && u.birthYear == b.year
    {
      InMultiset(unsorted, bs, b);
      var j :| 0 <= j < |unsorted| && unsorted[j] == b;
      assert ks[j] in ks;
      var i :| 0 <= i < |users| && BirthYearOf(users[i]) == ks[j];
      assert users[i] in users;
    }
  }

  /** The `_id` of a registration group: the `$year` and `$month` of the registration date. */
  datatype RegistrationKey = RegistrationKey(year: int, month: int)

  function RegistrationKeyOf(u: StatUser): RegistrationKey {
    RegistrationKey(u.registrationYear, u.registrationMonth)
  }

  /** `$sort` by `{'_id.year': 1, '_id.month': -1}`. */
  predicate RegistrationOrder(a: Group<RegistrationKey>, b: Group<RegistrationKey>) {
    a.key.year < b.key.year || (a.key.year == b.key.year && a.key.month >= b.key.month)
  }

  lemma RegistrationOrderIsTotalPreorder()
    ensures IsTotalPreorder(RegistrationOrder)
  {
  }

  predicate RegistrationKeysDiffer(a: Group<RegistrationKey>, b: Group<RegistrationKey>) {
    a.key != b.key
  }

  /** The registration pipeline: users per registration month, by year ascending and month descending. */
  function RegistrationGroups(users: seq<StatUser>): (gs: seq<Group<RegistrationKey>>)
    ensures |gs| == |Keys(users, RegistrationKeyOf)|
  {
    Sort(GroupBy(users, RegistrationKeyOf, OneUser), RegistrationOrder)
  }

  /** One entry of the registration statistics after the `map`. */
  datatype RegistrationStat = RegistrationStat(year: int, month: int, userCount: nat)

  /** The `map` from `{_id: {year, month}, userCount}` to `{year, month, userCount}`. */
  function Flatten(gs: seq<Group<RegistrationKey>>): (rs: seq<RegistrationStat>)
    ensures |rs| == |gs|
    ensures forall i :: 0 <= i < |gs| ==> rs[i] == RegistrationStat(gs[i].key.year, gs[i].key.month, gs[i].count)
  {
    if gs == [] then [] else [RegistrationStat(gs[0].key.year, gs[0].key.month, gs[0].count)] + Flatten(gs[1..])
  }

  /** Registration months come out by year ascending, then month descending, each once. */
  lemma RegistrationGroupsOrdered(users: seq<StatUser>)
    ensures var gs := RegistrationGroups(users);
      forall i, j :: 0 <= i < j < |gs| ==>
        gs[i].key.year < gs[j].key.year || (gs[i].key.year == gs[j].key.year && gs[i].key.month > gs[j].key.month)
  {
    var ks := Keys(users, RegistrationKeyOf);
    var unsorted := GroupBy(users, RegistrationKeyOf, OneUser);
    var gs := Sort(unsorted, RegistrationOrder);
    RegistrationOrderIsTotalPreorder();
    SortSorted(unsorted, RegistrationOrder);
    assert Pairwise(unsorted, RegistrationKeysDiffer) by {
      forall i, j | 0 <= i < |unsorted| && 0 <= j < |unsorted| && i != j
        ensures RegistrationKeysDiffer(unsorted[i], unsorted[j])
      {
        assert unsorted[i].key == ks[i] && unsorted[j].key == ks[j];
      }
    }
    SortPairwise(unsorted, RegistrationKeysDiffer, RegistrationOrder);
    forall i, j | 0 <= i < j < |gs|
      ensures gs[i].key.year < gs[j].key.year || (gs[i].key.year == gs[j].key.year && gs[i].key.month > gs[j].key.month)
    {
      assert RegistrationOrder(gs[i], gs[j]) && RegistrationKeysDiffer(gs[i], gs[j]);
    }
  }

  /**
   * Every user's registration month is listed with the number of users who
   * registered that month, and every listed month is some user's with that count.
   */
  lemma RegistrationGroupsCounts(users: seq<StatUser>)
    ensures forall u :: u in users ==>
      Group(RegistrationKeyOf(u), CountOf(users, RegistrationKeyOf, RegistrationKeyOf(u)),
            SumOf(users, RegistrationKeyOf, OneUser, RegistrationKeyOf(u))) in RegistrationGroups(users)
    ensures forall g :: g in RegistrationGroups(users) ==>
      g.count == CountOf(users, RegistrationKeyOf, g.key) && exists u :: u in users && RegistrationKeyOf(u) == g.key
  {
    var ks := Keys(users, RegistrationKeyOf);
    var unsorted := GroupBy(users, RegistrationKeyOf, OneUser);
    var gs := Sort(unsorted, RegistrationOrder);
    forall u | u in users
      ensures Group(RegistrationKeyOf(u), CountOf(users, RegistrationKeyOf, RegistrationKeyOf(u)),
                    SumOf(users, RegistrationKeyOf, OneUser, RegistrationKeyOf(u))) in gs
    {
      var i :| 0 <= i < |users| && users[i] == u;
      assert RegistrationKeyOf(users[i]) in ks;
      var j :| 0 <= j < |ks| && ks[j] == RegistrationKeyOf(u);
      InMultiset(unsorted, gs, unsorted[j]);
    }
    forall g | g in gs
      ensures g.count == CountOf(users, RegistrationKeyOf, g.key)
      ensures exists u :: u in users && RegistrationKeyOf(u) == g.key
    {
      InMultiset(unsorted, gs, g);
      var j :| 0 <= j < |unsorted| && unsorted[j] == g;
      assert ks[j] in ks;
      var i :| 0 <= i < |users| && RegistrationKeyOf(users[i]) == ks[j];
      assert users[i] in users;
    }
  }

  /** The body of a birthdate or registration statistics answer. */
  datatype ListResponse<T> = ListResponse(currentPage: int, totalPages: nat, pageResults: nat, totalResults: nat, stats: seq<T>)

  /**
   * The answer of a paged list handler: 400 for a negative page or limit,
   * 404 past the last page, otherwise the page with the length of the whole
   * list as the total. The handlers' own 404 for an empty page cannot fire:
   * a page that is answered is never empty.
   */
  function PagedList<T>(all: seq<T>, page: int, limit: int): (r: Result<ListResponse<T>>)
    ensures && (r.Err? <==> page <= 0 || limit <= 0 || page > CeilDiv(|all|, limit))
      && (r.Err? && (page <= 0 || limit <= 0) ==> r.error == Error(BadRequest, RangeMessage))
      && (r.Err? && page > 0 && limit > 0 ==> r.error == Error(NotFound, PageNotFoundMessage))
      && (r.Ok? ==>
            && r.value.currentPage == page
            && r.value.totalPages == CeilDiv(|all|, limit)
            && r.value.totalResults == |all|
            && r.value.pageResults == |r.value.stats|
            && 0 < |r.value.stats| <= limit
            && forall j :: 0 <= j < |r.value.stats| ==>
                 0 <= (page - 1) * limit + j < |all| && r.value.stats[j] == all[(page - 1) * limit + j])
  {
    var paged := AggregatePagination(all, page, limit);
    if paged.Err? then Err(paged.error)
    else
      var p := paged.value;
      assert p.results != [];
      Ok(ListResponse(p.currentPage, p.totalPages, |p.results|, p.totalResults, p.results))
  }

  /**
   * `getUserBirthdateStats`: one page of the birth-year counts, with the
   * number of distinct birth years as the total.
   */
  function GetUserBirthdateStats(users: seq<StatUser>, pageParam: Option<int>, limitParam: Option<int>)
    : (r: Result<ListResponse<BirthdateStat>>)
    ensures var page, limit := OrDefault(pageParam, 1), OrDefault(limitParam, 10);
      var all := BirthdateStats(users);
      && (r.Err? <==> page <= 0 || limit <= 0 || page > CeilDiv(|Keys(users, BirthYearOf)|, limit))
      && (r.Err? && (page <= 0 || limit <= 0) ==> r.error == Error(BadRequest, RangeMessage))
      && (r.Err? && page > 0 && limit > 0 ==> r.error == Error(NotFound, PageNotFoundMessage))
      && (r.Ok? ==>
            && r.value.totalResults == |Keys(users, BirthYearOf)|
            && r.value.currentPage == page
            && r.value.totalPages == CeilDiv(|all|, limit)
            && r.value.pageResults == |r.value.stats|
            && 0 < |r.value.stats| <= limit)
  {
    PagedList(BirthdateStats(users), OrDefault(pageParam, 1), OrDefault(limitParam, 10))
  }

  /**
   * An answered birthdate page holds, in order, the birth-year counts of its
   * window of the whole year-sorted list.
   */
  lemma BirthdatePage(users: seq<StatUser>, pageParam: Option<int>, limitParam: Option<int>)
    requires GetUserBirthdateStats(users, pageParam, limitParam).Ok?
    ensures OrDefault(pageParam, 1) > 0 && OrDefault(limitParam, 10) > 0
    ensures GetUserBirthdateStats(users, pageParam, limitParam).value.stats
            == PageWindow(BirthdateStats(users), OrDefault(pageParam, 1), OrDefault(limitParam, 10))
  {
  }

  /**
   * `getUserRegistrationStats`: one page of the registration-month counts,
   * flattened to `{year, month, userCount}`, with the number of distinct
   * months as the total; the same 400 and 404 as the birthdate statistics.
   */
  function GetUserRegistrationStats(users: seq<StatUser>, pageParam: Option<int>, limitParam: Option<int>)
    : (r: Result<ListResponse<RegistrationStat>>)
    ensures var page, limit := OrDefault(pageParam, 1), OrDefault(limitParam, 10);
      && (r.Err? <==> page <= 0 || limit <= 0 || page > CeilDiv(|Keys(users, RegistrationKeyOf)|, limit))
      && (r.Err? && (page <= 0 || limit <= 0) ==> r.error == Error(BadRequest, RangeMessage))
      && (r.Err? && page > 0 && limit > 0 ==> r.error == Error(NotFound, PageNotFoundMessage))
  {
    var paged := AggregatePagination(RegistrationGroups(users), OrDefault(pageParam, 1), OrDefault(limitParam, 10));
    if paged.Err? then Err(paged.error)
    else
      var p := paged.value;
      assert p.results != [];
      var registrationStats := Flatten(p.results);
      Ok(ListResponse(p.currentPage, p.totalPages, |registrationStats|, p.totalResults, registrationStats))
  }

  /**
   * An answered registration page holds, in order and flattened, the groups
   * at its positions of the whole registration list, and reports the number
   * of distinct registration months as the total.
   */
  lemma RegistrationPage(users: seq<StatUser>, pageParam: Option<int>, limitParam: Option<int>)
    requires GetUserRegistrationStats(users, pageParam, limitParam).Ok?
    ensures var page, limit := OrDefault(pageParam, 1), OrDefault(limitParam, 10);
      var all := RegistrationGroups(users);
      var v := GetUserRegistrationStats(users, pageParam, limitParam).value;
      && v.currentPage == page
      && v.totalPages == CeilDiv(|all|, limit)
      && v.totalResults == |Keys(users, RegistrationKeyOf)|
      && v.pageResults == |v.stats|
      && 0 < |v.stats| <= limit
      && forall j :: 0 <= j < |v.stats| ==>
           0 <= (page - 1) * limit + j < |all|
           && v.stats[j] == RegistrationStat(all[(page - 1) * limit + j].key.year,
                                             all[(page - 1) * limit + j].key.month,
                                             all[(page - 1) * limit + j].count)
  {
  }
}
