/**
 * The routine handlers: the guards of the read handlers, the validation that
 * precedes create and update, and the two delete handlers, which find the
 * activity's index in the day and splice it out.
 */
module RoutineController {
  import opened Wrappers
  import opened TimeOfDay
  import opened Activities
  import opened RoutineModel
  import opened Days
  import opened Store
  import opened RoutineHelper
  import opened RoutineService
  import opened Filter
  import Sorting

  const RoutinesNotFoundMessage: string := "Routines not found!"
  const ActivityNotFoundMessage: string := "Activity not found!"
  const EmptyPatchMessage: string :=
    "At least one of startTime, endTime, activity, category or color must be provided."

  /** The body fields an update may carry. */
  const PatchFields: seq<string> := ["startTime", "endTime", "activity", "category", "color"]

  /** `getMyRoutines`: the caller's routine, or 404 when there is none or its counter is 0. */
  function GetMyRoutines(routines: map<Id, Routine>, userId: Id): (r: Result<Routine>)
    ensures r.Ok? <==> userId in routines && routines[userId].allTimeActivities > 0
    ensures r.Ok? ==> r.value == routines[userId]
    ensures r.Err? ==> r.error == Error(NotFound, RoutinesNotFoundMessage)
  {
    if userId !in routines || routines[userId].allTimeActivities == 0 then Err(Error(NotFound, RoutinesNotFoundMessage))
    else Ok(routines[userId])
  }

  /** Once a create has succeeded, the caller's routine is always found: the counter only grows. */
  lemma RoutinesFoundAfterCreate(routines0: map<Id, Routine>, activities0: map<Id, Activity>,
                                 routines1: map<Id, Routine>, activities1: map<Id, Activity>,
                                 userId: Id, routineId: Id, day: Day, a: Activity, conflict: ConflictTest,
                                 r: Result<Activity>)
    requires InsertOutcome(routines0, activities0, routines1, activities1,
                           RoutineOrNew(routines0, userId, routineId), day, a, conflict, r)
    requires userId in routines0 ==> routines0[userId].owner == userId
    requires r.Ok?
    ensures GetMyRoutines(routines1, userId).Ok?
  {
    var routine := RoutineOrNew(routines0, userId, routineId);
    var added := AddActivity(routine, day, a);
    assert added.allTimeActivities == routine.allTimeActivities + 1 && added.owner == userId;
    assert routines1 == routines0[userId := added];
  }

  /** The listing of one day: the activities and their number. */
  datatype DayListing = DayListing(results: nat, activities: seq<Activity>)

  /** `getMyActivities`: 404 when there is no routine or the day is empty; otherwise the day and its length. */
  function GetMyActivities(routines: map<Id, Routine>, userId: Id, day: Day): (r: Result<DayListing>)
    ensures r.Ok? <==> userId in routines && routines[userId].Get(day) != []
    ensures r.Ok? ==> r.value.activities == routines[userId].Get(day)
    ensures r.Ok? ==> r.value.results == |r.value.activities| > 0
    ensures r.Err? ==> r.error == Error(NotFound, NoActivityForDay(day))
  {
    if userId !in routines || routines[userId].Get(day) == [] then Err(Error(NotFound, NoActivityForDay(day)))
    else Ok(DayListing(|routines[userId].Get(day)|, routines[userId].Get(day)))
  }

  /** The activity is the first of the day carrying `id`. */
  predicate FirstWithId(day: seq<Activity>, id: Id, a: Activity) {
    exists k :: 0 <= k < |day| && day[k] == a && a.id == id && forall i :: 0 <= i < k ==> day[i].id != id
  }

  /**
   * `getMyActivity`: 404 for the day without a routine; 404 'Activity not
   * found!' when no activity of the day has the id; otherwise the first that does.
   */
  function GetMyActivity(routines: map<Id, Routine>, userId: Id, day: Day, activityId: Id): (r: Result<Activity>)
    ensures userId !in routines ==> r == Err(Error(NotFound, NoActivityForDay(day)))
    ensures userId in routines ==>
      (r.Ok? <==> exists i :: 0 <= i < |routines[userId].Get(day)| && routines[userId].Get(day)[i].id == activityId)
    ensures userId in routines && r.Err? ==> r.error == Error(NotFound, ActivityNotFoundMessage)
    ensures r.Ok? ==> FirstWithId(routines[userId].Get(day), activityId, r.value)
  {
    if userId !in routines then Err(Error(NotFound, NoActivityForDay(day)))
    else match FirstIndex(routines[userId].Get(day), activityId)
      case None => Err(Error(NotFound, ActivityNotFoundMessage))
      case Some(k) => Ok(routines[userId].Get(day)[k])
  }

  /**
   * `getUserActivityByDayAndID`: the day lookup of the helper (404 for a
   * missing routine or an empty day), then the first activity with the id.
   */
  function GetUserActivityByDayAndID(routines: map<Id, Routine>, userId: Id, day: Day, activityId: Id)
    : (r: Result<Activity>)
    ensures GetRoutineForUserOnDay(routines, userId, day).Err? ==> r == Err(Error(NotFound, NoActivityForDay(day)))
    ensures r.Ok? ==> FirstWithId(routines[userId].Get(day), activityId, r.value)
  {
    match GetRoutineForUserOnDay(routines, userId, day)
    case Err(e) => Err(e)
    case Ok(activities) =>
      match FirstIndex(activities, activityId)
      case None => Err(Error(NotFound, ActivityNotFoundMessage))
      case Some(k) => Ok(activities[k])
  }

  /**
   * The administrator's lookup and the owner's lookup find the same activity;
   * they differ only in the message of the 404 for an empty day.
   */
  lemma {:induction false} AdminAndOwnerLookupsAgree(routines: map<Id, Routine>, userId: Id, day: Day, activityId: Id)
    ensures GetUserActivityByDayAndID(routines, userId, day, activityId).Ok?
            <==> GetMyActivity(routines, userId, day, activityId).Ok?
    ensures GetMyActivity(routines, userId, day, activityId).Ok? ==>
            GetUserActivityByDayAndID(routines, userId, day, activityId) == GetMyActivity(routines, userId, day, activityId)
  {
    if userId in routines && routines[userId].Get(day) == [] {
      assert FirstIndex(routines[userId].Get(day), activityId) == None;
    }
  }

  /**
   * `createMyActivity` (and the administrator's `createUserActivityByDayAndID`,
   * which runs the same steps for the user named in the path): the required
   * fields and the category, then the time format, then the helper's create.
   */
  method CreateMyActivity(store: Store, userId: Id, day: Day, body: Option<ActivityInput>, known: set<string>,
                          conflict: ConflictTest, routineId: Id, activityId: Id)
    returns (r: Result<Activity>)
    requires store.Valid()
    requires FreshActivityId(store.routines, store.activities, activityId)
    modifies store
    ensures store.Valid()
    ensures store.archive == old(store.archive)
    ensures ValidateActivityFields(body, known).Err? ==>
      && r == Err(ValidateActivityFields(body, known).error)
      && store.routines == old(store.routines) && store.activities == old(store.activities)
    ensures ValidateActivityFields(body, known).Ok? && ValidateActivityTimes(body.value).Err? ==>
      && r == Err(Error(BadRequest, TimeFormatMessage))
      && store.routines == old(store.routines) && store.activities == old(store.activities)
    ensures ValidateActivityFields(body, known).Ok? && ValidateActivityTimes(body.value).Ok? ==>
      var routine := RoutineOrNew(old(store.routines), userId, routineId);
      InsertOutcome(old(store.routines), old(store.activities), store.routines, store.activities,
                    routine, day, BuildActivity(activityId, userId, routine.id, body.value), conflict, r)
    ensures r.Ok? ==> r.value.category in known && IsValidTime(r.value.startTime) && IsValidTime(r.value.endTime)
  {
    var fields := ValidateActivityFields(body, known);
    if fields.Err? {
      return Err(fields.error);
    }
    var times := ValidateActivityTimes(body.value);
    if times.Err? {
      return Err(times.error);
    }
    r := CreateActivity(store, userId, day, body.value, conflict, routineId, activityId);
  }

  /**
   * The checks `updateMyActivity` runs before the helper: keep only the five
   * updatable fields (400 when none is left), then reject a truthy category
   * outside the enumeration and a truthy start or end time that is not "HH:MM".
   */
  function ValidatePatch(body: map<string, string>, known: set<string>): (r: Result<map<string, string>>)
    ensures r.Ok? ==> r.value == FilterObj(body, PatchFields)
    ensures r.Ok? <==>
      var patch := FilterObj(body, PatchFields);
      && patch != map[]
      && (Truthy(patch, "category") ==> patch["category"] in known)
      && PatchTimesValid(patch)
    ensures FilterObj(body, PatchFields) == map[] ==> r == Err(FilterObjError(EmptyPatchMessage))
    ensures FilterObj(body, PatchFields) != map[] && Truthy(body, "category") && body["category"] !in known
            ==> r == Err(Error(BadRequest, InvalidCategoryMessage))
    ensures r.Err? && r.error != Error(BadRequest, InvalidCategoryMessage)
            && r.error != FilterObjError(EmptyPatchMessage)
            ==> r.error == Error(BadRequest, TimeFormatMessage)
    ensures var patch := FilterObj(body, PatchFields);
            patch != map[] && !(Truthy(patch, "category") && patch["category"] !in known) && !PatchTimesValid(patch)
            ==> r == Err(Error(BadRequest, TimeFormatMessage))
  {
    var patch := FilterObj(body, PatchFields);
    if patch == map[] then Err(FilterObjError(EmptyPatchMessage))
    else if Truthy(patch, "category") && !IsValidCategory(patch["category"], known) then
      Err(Error(BadRequest, InvalidCategoryMessage))
    else if Truthy(patch, "startTime") && IsValidTimeFormat(patch["startTime"]).Err? then
      Err(IsValidTimeFormat(patch["startTime"]).error)
    else if Truthy(patch, "endTime") && IsValidTimeFormat(patch["endTime"]).Err? then
      Err(IsValidTimeFormat(patch["endTime"]).error)
    else Ok(patch)
  }

  /**
   * `updateMyActivity` (and the administrator's `updateUserActivityByDayAndID`,
   * the same steps for the user named in the path): validate the body, then
   * the helper's update with the filtered patch.
   */
  method UpdateMyActivity(store: Store, userId: Id, day: Day, activityId: Id, body: map<string, string>,
                          known: set<string>, conflict: ConflictTest)
    returns (r: Result<Activity>)
    requires store.Valid()
    modifies store
    ensures store.Valid()
    ensures store.archive == old(store.archive)
    ensures ValidatePatch(body, known).Err? ==>
      && r == Err(ValidatePatch(body, known).error)
      && store.routines == old(store.routines) && store.activities == old(store.activities)
    ensures ValidatePatch(body, known).Ok? ==>
      UpdateOutcome(old(store.routines), old(store.activities), store.routines, store.activities,
                    userId, day, activityId, ValidatePatch(body, known).value, conflict, r)
  {
    var patch := ValidatePatch(body, known);
    if patch.Err? {
      return Err(patch.error);
    }
    assert patch.value.Keys <= UpdatableFields;
    r := UpdateActivity(store, userId, day, activityId, patch.value, conflict);
  }

  /** `splice(k, 1)`: drop the element at `k`. */
  function RemoveAt<T>(s: seq<T>, k: nat): (r: seq<T>)
    requires k < |s|
    ensures |r| == |s| - 1
    ensures forall i :: 0 <= i < k ==> r[i] == s[i]
    ensures forall i :: k <= i < |r| ==> r[i] == s[i + 1]
    ensures multiset(r) == multiset(s) - multiset{s[k]}
  {
    assert s == s[..k] + [s[k]] + s[k + 1..];
    s[..k] + s[k + 1..]
  }

  /** Removing one element keeps a sorted sequence sorted. */
  lemma RemoveAtKeepsSorted<T>(s: seq<T>, k: nat, le: (T, T) -> bool)
    requires k < |s|
    requires Sorting.SortedBy(s, le)
    ensures Sorting.SortedBy(RemoveAt(s, k), le)
  {
    var r := RemoveAt(s, k);
    forall i, j | 0 <= i < j < |r| ensures le(r[i], r[j]) {
      var i' := if i < k then i else i + 1;
      var j' := if j < k then j else j + 1;
      assert r[i] == s[i'] && r[j] == s[j'];
    }
  }

  /** Removing one activity keeps a conflict-free day conflict-free. */
  lemma RemoveAtKeepsNoConflicts(conflict: ConflictTest, s: seq<Activity>, k: nat)
    requires k < |s|
    requires NoConflicts(conflict, s)
    ensures NoConflicts(conflict, RemoveAt(s, k))
  {
    var r := RemoveAt(s, k);
    forall i, j | 0 <= i < |r| && 0 <= j < |r| && i != j ensures Compatible(conflict)(r[i], r[j]) {
      var i' := if i < k then i else i + 1;
      var j' := if j < k then j else j + 1;
      assert r[i] == s[i'] && r[j] == s[j'];
    }
  }

  /** Removing one activity keeps the ids of the day distinct. */
  lemma RemoveAtKeepsUniqueIds(s: seq<Activity>, k: nat)
    requires k < |s|
    requires UniqueIds(s)
    ensures UniqueIds(RemoveAt(s, k))
  {
    var r := RemoveAt(s, k);
    forall i, j | 0 <= i < |r| && 0 <= j < |r| && i != j ensures r[i].id != r[j].id {
      var i' := if i < k then i else i + 1;
      var j' := if j < k then j else j + 1;
      assert r[i] == s[i'] && r[j] == s[j'];
    }
  }

  /** With unique ids, the removed id is no longer in the day, so a second delete answers 404. */
  lemma RemovedIdIsGone(s: seq<Activity>, k: nat)
    requires k < |s|
    requires UniqueIds(s)
    ensures FirstIndex(RemoveAt(s, k), s[k].id).None?
  {
    var r := RemoveAt(s, k);
    forall i | 0 <= i < |r| ensures r[i].id != s[k].id {
      var i' := if i < k then i else i + 1;
      assert r[i] == s[i'];
    }
  }

  /** The routine after the delete: the day without position `k`; counter and other days as they were. */
  function WithoutActivity(routine: Routine, day: Day, k: nat): (r: Routine)
    requires k < |routine.Get(day)|
    ensures r.Get(day) == RemoveAt(routine.Get(day), k)
    ensures forall e: Day :: e != day ==> r.Get(e) == routine.Get(e)
    ensures r.id == routine.id && r.owner == routine.owner && r.allTimeActivities == routine.allTimeActivities
  {
    routine.With(day, RemoveAt(routine.Get(day), k))
  }

  /** Splice position `k` out of the owner's day, delete that activity's own document, and save. */
  method SpliceActivity(store: Store, userId: Id, day: Day, k: nat)
    requires store.Valid()
    requires userId in store.routines && k < |store.routines[userId].Get(day)|
    modifies store
    ensures store.Valid()
    ensures store.archive == old(store.archive)
    ensures store.routines == old(store.routines)[userId := WithoutActivity(old(store.routines)[userId], day, k)]
    ensures store.activities == old(store.activities) - {old(store.routines)[userId].Get(day)[k].id}
  {
    var routine := store.routines[userId];
    var removed := routine.Get(day)[k];
    var spliced := WithoutActivity(routine, day, k);
    forall e: Day ensures DaySorted(spliced.Get(e)) && TimesValid(spliced.Get(e)) && UniqueIds(spliced.Get(e)) {
      if e == day {
        RemoveAtKeepsSorted(routine.Get(day), k, StartLe);
        RemoveAtKeepsUniqueIds(routine.Get(day), k);
      }
    }
    WithSortedDaysOfSorted(spliced);
    store.activities := store.activities - {removed.id};
    Save(store, spliced);
  }

  /**
   * `deleteMyActivity`: 404 for the day when there is no routine or no activity
   * of the day has the id; otherwise splice that activity out (the counter is
   * not decremented) and delete its own document.
   */
  method DeleteMyActivity(store: Store, userId: Id, day: Day, activityId: Id) returns (r: Result<()>)
    requires store.Valid()
    modifies store
    ensures store.Valid()
    ensures store.archive == old(store.archive)
    ensures r.Err? ==> store.routines == old(store.routines) && store.activities == old(store.activities)
    ensures userId !in old(store.routines) ==> r == Err(Error(NotFound, NoActivityForDay(day)))
    ensures userId in old(store.routines) && FirstIndex(old(store.routines)[userId].Get(day), activityId).None?
            ==> r == Err(Error(NotFound, NoActivityForDay(day)))
    ensures userId in old(store.routines) && FirstIndex(old(store.routines)[userId].Get(day), activityId).Some? ==>
      var routine := old(store.routines)[userId];
      && r == Ok(())
      && store.routines == old(store.routines)[userId :=
           WithoutActivity(routine, day, FirstIndex(routine.Get(day), activityId).value)]
      && store.activities == old(store.activities) - {activityId}
  {
    if userId !in store.routines {
      return Err(Error(NotFound, NoActivityForDay(day)));
    }
    var k := FindIndex(store.routines[userId].Get(day), activityId);
    if k == -1 {
      return Err(Error(NotFound, NoActivityForDay(day)));
    }
    SpliceActivity(store, userId, day, k);
    r := Ok(());
  }

  /**
   * `deleteUserActivityByDayAndID`: the same splice for the user named in the
   * path; 404 for the day without a routine, 404 'Activity not found!' when the
   * id is not in the day.
   */
  method DeleteUserActivityByDayAndID(store: Store, userId: Id, day: Day, activityId: Id) returns (r: Result<()>)
    requires store.Valid()
    modifies store
    ensures store.Valid()
    ensures store.archive == old(store.archive)
    ensures r.Err? ==> store.routines == old(store.routines) && store.activities == old(store.activities)
    ensures userId !in old(store.routines) ==> r == Err(Error(NotFound, NoActivityForDay(day)))
    ensures userId in old(store.routines) && FirstIndex(old(store.routines)[userId].Get(day), activityId).None?
            ==> r == Err(Error(NotFound, ActivityNotFoundMessage))
    ensures userId in old(store.routines) && FirstIndex(old(store.routines)[userId].Get(day), activityId).Some? ==>
      var routine := old(store.routines)[userId];
      && r == Ok(())
      && store.routines == old(store.routines)[userId :=
           WithoutActivity(routine, day, FirstIndex(routine.Get(day), activityId).value)]
      && store.activities == old(store.activities) - {activityId}
  {
    if userId !in store.routines {
      return Err(Error(NotFound, NoActivityForDay(day)));
    }
    var k := FindIndex(store.routines[userId].Get(day), activityId);
    if k == -1 {
      return Err(Error(NotFound, ActivityNotFoundMessage));
    }
    SpliceActivity(store, userId, day, k);
    r := Ok(());
  }
}
