/**
 * The current helpers behind the routine handlers: duration in minutes, the
 * day lookup, and creating or updating an activity after a linear conflict scan.
 */
module RoutineHelper {
  import opened Wrappers
  import opened TimeOfDay
  import opened Activities
  import opened RoutineModel
  import opened Days
  import opened Store
  import Sorting

  const DurationMessage: string := "End time must be after start time!"
  const ConflictMessage: string := "Time conflict with existing activity!"
  const NoRoutineMessage: string := "No routine found for this user!"

  function NoActivityForDay(d: Day): string {
    "No activity found for " + Name(d) + "!"
  }

  /**
   * Whole minutes from `start` to `end`. A plain `Error` (no status code, so the
   * error handler answers 500) when the end is not after the start.
   */
  function CalculateDuration(start: string, end: string): (r: Result<nat>)
    requires IsValidTime(start) && IsValidTime(end)
    ensures r.Ok? <==> Minutes(start) < Minutes(end)
    ensures r.Ok? ==> 0 < r.value <= 1439 && Minutes(start) + r.value == Minutes(end)
    ensures r.Err? ==> r.error == Error(InternalError, DurationMessage)
  {
    if Minutes(end) <= Minutes(start) then Err(Error(InternalError, DurationMessage))
    else Ok(Minutes(end) - Minutes(start))
  }

  lemma CalculateDurationExamples()
    ensures CalculateDuration("07:00", "07:30") == Ok(30)
    ensures CalculateDuration("07:00", "08:00") == Ok(60)
    ensures CalculateDuration("09:00", "09:00").Err?
  {
    assert Minutes("07:00") == 420 && Minutes("07:30") == 450 && Minutes("08:00") == 480;
    assert Minutes("09:00") == 540;
  }

  /** The activities of one user's day: 404 when there is no routine or the day is empty. */
  function GetRoutineForUserOnDay(routines: map<Id, Routine>, userId: Id, day: Day): (r: Result<seq<Activity>>)
    ensures r.Ok? <==> userId in routines && routines[userId].Get(day) != []
    ensures r.Ok? ==> r.value == routines[userId].Get(day)
    ensures r.Err? ==> r.error == Error(NotFound, NoActivityForDay(day))
  {
    if userId !in routines then Err(Error(NotFound, NoActivityForDay(day)))
    else if routines[userId].Get(day) == [] then Err(Error(NotFound, NoActivityForDay(day)))
    else Ok(routines[userId].Get(day))
  }

  /** The first position holding an activity with id `id` (what `findIndex` and `find` locate). */
  function FirstIndex(day: seq<Activity>, id: Id): (r: Option<nat>)
    ensures r.Some? ==> r.value < |day| && day[r.value].id == id
    ensures r.Some? ==> forall i :: 0 <= i < r.value ==> day[i].id != id
    ensures r.None? ==> forall i :: 0 <= i < |day| ==> day[i].id != id
  {
    if day == [] then None
    else if day[0].id == id then Some(0)
    else match FirstIndex(day[1..], id)
      case None => None
      case Some(k) => Some(k + 1)
  }

  /** `findIndex` over a day: the first matching position, or -1. */
  method FindIndex(day: seq<Activity>, id: Id) returns (k: int)
    ensures FirstIndex(day, id).None? ==> k == -1
    ensures FirstIndex(day, id).Some? ==> k == FirstIndex(day, id).value
  {
    k := 0;
    while k < |day|
      invariant 0 <= k <= |day|
      invariant forall i :: 0 <= i < k ==> day[i].id != id
    {
      if day[k].id == id {
        return;
      }
      k := k + 1;
    }
    k := -1;
  }

  /** Some activity of the day, other than the one with id `skip`, reports a conflict with [start, end). */
  predicate Clashes(day: seq<Activity>, conflict: ConflictTest, start: string, end: string, skip: Option<Id>) {
    exists i :: 0 <= i < |day| && (skip.None? || day[i].id != skip.value) && conflict(day[i], start, end)
  }

  /** The conflict scan: asks every activity of the day (except `skip`) in order. */
  method ScanForConflict(day: seq<Activity>, conflict: ConflictTest, start: string, end: string, skip: Option<Id>)
    returns (clash: bool)
    ensures clash <==> Clashes(day, conflict, start, end, skip)
  {
    var i := 0;
    while i < |day|
      invariant 0 <= i <= |day|
      invariant forall j :: 0 <= j < i ==> !((skip.None? || day[j].id != skip.value) && conflict(day[j], start, end))
    {
      if (skip.None? || day[i].id != skip.value) && conflict(day[i], start, end) {
        return true;
      }
      i := i + 1;
    }
    return false;
  }

  /** The new activity document: every field copied from the payload, `duration` included, verbatim. */
  function BuildActivity(id: Id, userId: Id, routineId: Id, input: ActivityInput): (a: Activity)
    ensures a.id == id && a.userId == Some(userId) && a.routineId == routineId
    ensures a.startTime == input.startTime && a.endTime == input.endTime && a.duration == input.duration
    ensures a.activity == input.activity && a.category == input.category && a.color == input.color
    ensures a.isCompleted == input.isCompleted
  {
    Activity(id, Some(userId), routineId, input.startTime, input.endTime, input.duration,
      input.activity, input.category, input.isCompleted, input.color)
  }

  /** `routine[day].push(a)`, `allTimeActivities += 1`, then the save hook. */
  function AddActivity(r: Routine, d: Day, a: Activity): Routine {
    WithSortedDays(r.With(d, r.Get(d) + [a]).WithCounter(r.allTimeActivities + 1))
  }

  /**
   * A successful insert grows the day by exactly the new activity and the
   * counter by one, keeps the day sorted, and leaves the other six days alone.
   */
  lemma {:induction false} AddActivitySpec(r: Routine, d: Day, a: Activity)
    requires AllDaysSorted(r)
    ensures AddActivity(r, d, a).allTimeActivities == r.allTimeActivities + 1
    ensures AddActivity(r, d, a).id == r.id && AddActivity(r, d, a).owner == r.owner
    ensures multiset(AddActivity(r, d, a).Get(d)) == multiset(r.Get(d)) + multiset{a}
    ensures |AddActivity(r, d, a).Get(d)| == |r.Get(d)| + 1
    ensures AllDaysSorted(AddActivity(r, d, a))
    ensures forall e: Day :: e != d ==> AddActivity(r, d, a).Get(e) == r.Get(e)
  {
    var pushed := r.With(d, r.Get(d) + [a]).WithCounter(r.allTimeActivities + 1);
    assert pushed.Get(d) == r.Get(d) + [a];
    WithSortedDaysSpec(pushed);
    forall e: Day | e != d ensures AddActivity(r, d, a).Get(e) == r.Get(e) {
      assert pushed.Get(e) == r.Get(e);
      WithSortedDaysGet(pushed, e);
      Sorting.SortOfSorted(r.Get(e), StartLe);
    }
  }

  /** The first insert into a freshly created routine leaves the counter at 1 and the day holding just that activity. */
  lemma FirstInsertCountsOne(id: Id, owner: Id, d: Day, a: Activity)
    ensures AddActivity(NewRoutine(id, owner), d, a).allTimeActivities == 1
    ensures AddActivity(NewRoutine(id, owner), d, a).Get(d) == [a]
  {
    var pushed := NewRoutine(id, owner).With(d, [a]).WithCounter(1);
    assert [] + [a] == [a];
    WithSortedDaysGet(pushed, d);
    assert Sorting.Sort([a], StartLe) == Sorting.Insert([], a, StartLe);
  }

  /**
   * Given a symmetric conflict test, an insert that passed the scan keeps
   * "no two activities of the day conflict".
   */
  lemma {:induction false} AddActivityKeepsNoConflicts(conflict: ConflictTest, r: Routine, d: Day, a: Activity)
    requires Symmetric(conflict)
    requires NoConflicts(conflict, r.Get(d))
    requires !Clashes(r.Get(d), conflict, a.startTime, a.endTime, None)
    ensures NoConflicts(conflict, AddActivity(r, d, a).Get(d))
  {
    var day := r.Get(d);
    var s := day + [a];
    var ok := Compatible(conflict);
    forall i, j | 0 <= i < |s| && 0 <= j < |s| && i != j ensures ok(s[i], s[j]) {
      if i == |day| {
        assert !conflict(day[j], a.startTime, a.endTime);
        assert conflict(a, day[j].startTime, day[j].endTime) == conflict(day[j], a.startTime, a.endTime);
      } else if j == |day| {
        assert !conflict(day[i], a.startTime, a.endTime);
      } else {
        assert s[i] == day[i] && s[j] == day[j];
      }
    }
    assert NoConflicts(conflict, s);
    var pushed := r.With(d, s).WithCounter(r.allTimeActivities + 1);
    WithSortedDaysGet(pushed, d);
    SortByStartKeepsNoConflicts(conflict, s);
  }

  lemma TimesValidAppend(day: seq<Activity>, a: Activity)
    requires TimesValid(day) && IsValidTime(a.startTime) && IsValidTime(a.endTime)
    ensures TimesValid(day + [a])
  {
  }

  lemma TimesValidReplace(day: seq<Activity>, k: nat, a: Activity)
    requires k < |day|
    requires TimesValid(day) && IsValidTime(a.startTime) && IsValidTime(a.endTime)
    ensures TimesValid(day[k := a])
  {
  }

  lemma AllTimesValidReplace(r: Routine, d: Day, k: nat, a: Activity)
    requires k < |r.Get(d)| && AllTimesValid(r)
    requires IsValidTime(a.startTime) && IsValidTime(a.endTime)
    ensures AllTimesValid(r.With(d, r.Get(d)[k := a]))
  {
    var t := r.With(d, r.Get(d)[k := a]);
    forall e: Day ensures TimesValid(t.Get(e)) {
      if e == d {
        TimesValidReplace(r.Get(d), k, a);
      } else {
        assert t.Get(e) == r.Get(e);
      }
    }
  }

  /**
   * The effect of an insert on the two collections, from `routines0` and
   * `activities0` to `routines1` and `activities1`: when an activity of the day
   * reports a conflict, 400 and both collections as they were; otherwise the
   * owner's routine gains the activity (see `AddActivity`) and so does the
   * activities collection.
   */
  ghost predicate InsertOutcome(routines0: map<Id, Routine>, activities0: map<Id, Activity>,
                                routines1: map<Id, Routine>, activities1: map<Id, Activity>,
                                routine: Routine, day: Day, a: Activity, conflict: ConflictTest, r: Result<Activity>)
  {
    if Clashes(routine.Get(day), conflict, a.startTime, a.endTime, None) then
      && r == Err(Error(BadRequest, ConflictMessage))
      && routines1 == routines0 && activities1 == activities0
    else
      && r == Ok(a)
      && routines1 == routines0[routine.owner := AddActivity(routine, day, a)]
      && activities1 == activities0[a.id := a]
  }

  /**
   * A routine created on the way has an empty day, so no conflict can undo
   * its creation: the insert's outcome, seen from before the creation, is the same.
   */
  lemma CreatedRoutineOutcome(routines0: map<Id, Routine>, activities0: map<Id, Activity>,
                              routines1: map<Id, Routine>, activities1: map<Id, Activity>,
                              routine: Routine, day: Day, a: Activity, conflict: ConflictTest, r: Result<Activity>)
    requires routine.owner !in routines0 ==> routine.Get(day) == []
    requires routine.owner in routines0 ==> routines0[routine.owner] == routine
    requires InsertOutcome(routines0[routine.owner := routine], activities0, routines1, activities1,
                           routine, day, a, conflict, r)
    ensures InsertOutcome(routines0, activities0, routines1, activities1, routine, day, a, conflict, r)
  {
    var owner := routine.owner;
    if Clashes(routine.Get(day), conflict, a.startTime, a.endTime, None) {
      assert owner in routines0 by {
        if owner !in routines0 {
          assert false;
        }
      }
      UpdateSame(routines0, owner, routine);
    } else {
      UpdateTwice(routines0, owner, routine, AddActivity(routine, day, a));
    }
  }

  lemma UpdateSame<K, V>(m: map<K, V>, k: K, v: V)
    requires k in m && m[k] == v
    ensures m[k := v] == m
  {
  }

  lemma UpdateTwice<K, V>(m: map<K, V>, k: K, v: V, w: V)
    ensures m[k := v][k := w] == m[k := w]
  {
  }

  /**
   * Insert `a` into day `d` of the owner's routine after the conflict scan; on
   * success save the routine and then the activity document.
   */
  method InsertActivity(store: Store, routine: Routine, day: Day, a: Activity, conflict: ConflictTest)
    returns (r: Result<Activity>)
    requires store.Valid()
    requires AllDaysSorted(routine) && AllTimesValid(routine) && AllIdsUnique(routine)
    requires IsValidTime(a.startTime) && IsValidTime(a.endTime)
    requires forall x :: x in routine.Get(day) ==> x.id != a.id
    modifies store
    ensures store.Valid()
    ensures store.archive == old(store.archive)
    ensures InsertOutcome(old(store.routines), old(store.activities), store.routines, store.activities,
                          routine, day, a, conflict, r)
  {
    var clash := ScanForConflict(routine.Get(day), conflict, a.startTime, a.endTime, None);
    if clash {
      return Err(Error(BadRequest, ConflictMessage));
    }
    CommitInsert(store, routine, day, a);
    r := Ok(a);
  }

  /**
   * The writes of a successful insert: push `a` onto the day, count it, save
   * the routine (the save hook sorts it), then store the activity document.
   */
  method CommitInsert(store: Store, routine: Routine, day: Day, a: Activity)
    requires store.Valid()
    requires AllTimesValid(routine) && AllIdsUnique(routine)
    requires IsValidTime(a.startTime) && IsValidTime(a.endTime)
    requires forall x :: x in routine.Get(day) ==> x.id != a.id
    modifies store
    ensures store.Valid()
    ensures store.archive == old(store.archive)
    ensures store.routines == old(store.routines)[routine.owner := AddActivity(routine, day, a)]
    ensures store.activities == old(store.activities)[a.id := a]
  {
    var pushed := routine.With(day, routine.Get(day) + [a]).WithCounter(routine.allTimeActivities + 1);
    AllTimesValidPush(routine, day, a, routine.allTimeActivities + 1);
    AllIdsUniquePush(routine, day, a, routine.allTimeActivities + 1);
    Save(store, pushed);
    PutDocument(store, a);
  }

  lemma AllTimesValidPush(r: Routine, d: Day, a: Activity, n: nat)
    requires AllTimesValid(r)
    requires IsValidTime(a.startTime) && IsValidTime(a.endTime)
    ensures AllTimesValid(r.With(d, r.Get(d) + [a]).WithCounter(n))
  {
    var t := r.With(d, r.Get(d) + [a]).WithCounter(n);
    forall e: Day ensures TimesValid(t.Get(e)) {
      if e == d {
        TimesValidAppend(r.Get(d), a);
      } else {
        assert t.Get(e) == r.Get(e);
      }
    }
  }

  lemma AllIdsUniquePush(r: Routine, d: Day, a: Activity, n: nat)
    requires AllIdsUnique(r)
    requires forall x :: x in r.Get(d) ==> x.id != a.id
    ensures AllIdsUnique(r.With(d, r.Get(d) + [a]).WithCounter(n))
  {
    var t := r.With(d, r.Get(d) + [a]).WithCounter(n);
    forall e: Day ensures UniqueIds(t.Get(e)) {
      if e == d {
        UniqueIdsAppend(r.Get(d), a);
      } else {
        assert t.Get(e) == r.Get(e);
      }
    }
  }

  /**
   * `findOne` on the owner, else `Routine.create` with the schema defaults;
   * creating stores the new routine.
   */
  method LoadOrCreateRoutine(store: Store, userId: Id, routineId: Id) returns (routine: Routine)
    requires store.Valid()
    modifies store
    ensures store.Valid()
    ensures routine == RoutineOrNew(old(store.routines), userId, routineId)
    ensures store.routines == old(store.routines)[userId := routine]
    ensures store.activities == old(store.activities) && store.archive == old(store.archive)
    ensures AllDaysSorted(routine) && AllTimesValid(routine) && AllIdsUnique(routine)
  {
    if userId in store.routines {
      routine := store.routines[userId];
    } else {
      routine := NewRoutine(routineId, userId);
      WithSortedDaysOfSorted(routine);
      Save(store, routine);
    }
  }

  /**
   * `createActivity`: load the caller's routine, creating it (counter 0, empty
   * days) when there is none; build the activity; reject it with 400 if any
   * activity of the day reports a conflict; otherwise push it, count it and save.
   * `routineId` and `activityId` are the identifiers the store would generate.
   */
  method CreateActivity(store: Store, userId: Id, day: Day, input: ActivityInput, conflict: ConflictTest,
                        routineId: Id, activityId: Id)
    returns (r: Result<Activity>)
    requires store.Valid()
    requires IsValidTime(input.startTime) && IsValidTime(input.endTime)
    requires FreshActivityId(store.routines, store.activities, activityId)
    modifies store
    ensures store.Valid()
    ensures store.archive == old(store.archive)
    ensures
      var routine := RoutineOrNew(old(store.routines), userId, routineId);
      InsertOutcome(old(store.routines), old(store.activities), store.routines, store.activities,
                    routine, day, BuildActivity(activityId, userId, routine.id, input), conflict, r)
    ensures Symmetric(conflict) && (userId in old(store.routines) ==> NoConflicts(conflict, old(store.routines)[userId].Get(day)))
            ==> userId in store.routines && NoConflicts(conflict, store.routines[userId].Get(day))
  {
    ghost var routines0 := store.routines;
    var routine := LoadOrCreateRoutine(store, userId, routineId);
    ghost var routines1 := store.routines;
    var a := BuildActivity(activityId, userId, routine.id, input);
    FreshInRoutine(routines0, store.activities, activityId, routine, day);
    r := InsertActivity(store, routine, day, a, conflict);
    CreatedRoutineOutcome(routines0, old(store.activities), store.routines, store.activities, routine, day, a, conflict, r);
    CreateKeepsNoConflicts(routines0, routines1, store.routines, old(store.activities), store.activities,
                           routine, day, a, conflict, r);
  }

  /**
   * The conflict-freedom half of a create, from before the routine was loaded
   * or created (`routines0`) through the load (`routines1`) to the end.
   */
  lemma CreateKeepsNoConflicts(routines0: map<Id, Routine>, routines1: map<Id, Routine>, routines2: map<Id, Routine>,
                               activities1: map<Id, Activity>, activities2: map<Id, Activity>,
                               routine: Routine, day: Day, a: Activity, conflict: ConflictTest, r: Result<Activity>)
    requires routines1 == routines0[routine.owner := routine]
    requires routine.owner in routines0 ==> routines0[routine.owner] == routine
    requires routine.owner !in routines0 ==> routine.Get(day) == []
    requires InsertOutcome(routines1, activities1, routines2, activities2, routine, day, a, conflict, r)
    ensures Symmetric(conflict) && (routine.owner in routines0 ==> NoConflicts(conflict, routines0[routine.owner].Get(day)))
            ==> routine.owner in routines2 && NoConflicts(conflict, routines2[routine.owner].Get(day))
  {
    if Symmetric(conflict) && (routine.owner in routines0 ==> NoConflicts(conflict, routines0[routine.owner].Get(day))) {
      InsertKeepsNoConflicts(routines1, activities1, routines2, activities2, routine, day, a, conflict, r);
    }
  }

  /** A fresh id is not the id of any activity of the routine a create works on. */
  lemma FreshInRoutine(routines: map<Id, Routine>, activities: map<Id, Activity>, id: Id, routine: Routine, day: Day)
    requires FreshActivityId(routines, activities, id)
    requires routine.owner in routines ==> routines[routine.owner] == routine
    requires routine.owner !in routines ==> routine.Get(day) == []
    ensures forall x :: x in routine.Get(day) ==> x.id != id
  {
    forall x | x in routine.Get(day) ensures x.id != id {
      assert routine.owner in routines && x in routines[routine.owner].Get(day);
    }
  }

  /**
   * Given a symmetric conflict test, an insert into a stored routine whose day
   * is conflict-free leaves that day conflict-free, whether it is rejected or not.
   */
  lemma InsertKeepsNoConflicts(routines0: map<Id, Routine>, activities0: map<Id, Activity>,
                               routines1: map<Id, Routine>, activities1: map<Id, Activity>,
                               routine: Routine, day: Day, a: Activity, conflict: ConflictTest, r: Result<Activity>)
    requires Symmetric(conflict)
    requires routine.owner in routines0 && routines0[routine.owner] == routine
    requires NoConflicts(conflict, routine.Get(day))
    requires InsertOutcome(routines0, activities0, routines1, activities1, routine, day, a, conflict, r)
    ensures routine.owner in routines1 && NoConflicts(conflict, routines1[routine.owner].Get(day))
  {
    if !Clashes(routine.Get(day), conflict, a.startTime, a.endTime, None) {
      AddActivityKeepsNoConflicts(conflict, routine, day, a);
    }
  }

  /** The only keys a patch can carry after the handler's whitelist filter. */
  const UpdatableFields: set<string> := {"startTime", "endTime", "activity", "category", "color"}

  /** A patch field is used when present and truthy (a non-empty string). */
  predicate Truthy(patch: map<string, string>, key: string) {
    key in patch && patch[key] != ""
  }

  /** `patch[key] || current`. */
  function Pick(patch: map<string, string>, key: string, current: string): (v: string)
    ensures Truthy(patch, key) ==> v == patch[key]
    ensures !Truthy(patch, key) ==> v == current
  {
    if Truthy(patch, key) then patch[key] else current
  }

  predicate PatchTimesValid(patch: map<string, string>) {
    && (Truthy(patch, "startTime") ==> IsValidTime(patch["startTime"]))
    && (Truthy(patch, "endTime") ==> IsValidTime(patch["endTime"]))
  }

  predicate TouchesTimes(patch: map<string, string>) {
    Truthy(patch, "startTime") || Truthy(patch, "endTime")
  }

  /**
   * The merged activity of `updateActivity`: each field from the patch when
   * truthy, else the current value; identity from the routine; the duration
   * recomputed from the merged times when the patch names a time.
   */
  function MergePatch(cur: Activity, routine: Routine, patch: map<string, string>): (m: Result<Activity>)
    requires IsValidTime(cur.startTime) && IsValidTime(cur.endTime)
    requires PatchTimesValid(patch)
    ensures var start := Pick(patch, "startTime", cur.startTime);
            var end := Pick(patch, "endTime", cur.endTime);
            m.Err? <==> TouchesTimes(patch) && Minutes(end) <= Minutes(start)
    ensures m.Err? ==> m.error == Error(InternalError, DurationMessage)
    ensures m.Ok? ==> IsValidTime(m.value.startTime) && IsValidTime(m.value.endTime)
  {
    var start := Pick(patch, "startTime", cur.startTime);
    var end := Pick(patch, "endTime", cur.endTime);
    var duration :=
      if TouchesTimes(patch) then
        match CalculateDuration(start, end)
        case Ok(d) => Ok(Some(d as int))
        case Err(e) => Err(e)
      else Ok(cur.duration);
    match duration
    case Err(e) => Err(e)
    case Ok(dur) =>
      Ok(Activity(cur.id, Some(routine.owner), routine.id, start, end, dur,
        Pick(patch, "activity", cur.activity), Pick(patch, "category", cur.category),
        cur.isCompleted, Pick(patch, "color", cur.color)))
  }

  /**
   * What the merge keeps and what it takes: the id and completion flag of the
   * current activity, the owner and id of the routine, each string field from
   * the patch exactly when the patch value is truthy, and a duration that is the
   * new interval length when a time was patched and the old one otherwise.
   */
  lemma MergePatchSpec(cur: Activity, routine: Routine, patch: map<string, string>)
    requires IsValidTime(cur.startTime) && IsValidTime(cur.endTime)
    requires PatchTimesValid(patch)
    requires MergePatch(cur, routine, patch).Ok?
    ensures var m := MergePatch(cur, routine, patch).value;
      && m.id == cur.id && m.isCompleted == cur.isCompleted
      && m.userId == Some(routine.owner) && m.routineId == routine.id
      && (forall k :: k in UpdatableFields ==>
            (Truthy(patch, k) ==> FieldOf(m, k) == patch[k]) && (!Truthy(patch, k) ==> FieldOf(m, k) == FieldOf(cur, k)))
      && (TouchesTimes(patch) ==> m.duration == Some(Minutes(m.endTime) - Minutes(m.startTime)) && m.duration.value > 0)
      && (!TouchesTimes(patch) ==> m.duration == cur.duration)
  {
  }

  /** The string field of an activity named by a patch key. */
  function FieldOf(a: Activity, key: string): string {
    if key == "startTime" then a.startTime
    else if key == "endTime" then a.endTime
    else if key == "activity" then a.activity
    else if key == "category" then a.category
    else if key == "color" then a.color
    else ""
  }

  /** Replace the activity at position `k` of day `d`, then the save hook. */
  function ReplaceActivity(r: Routine, d: Day, k: nat, a: Activity): Routine
    requires k < |r.Get(d)|
  {
    WithSortedDays(r.With(d, r.Get(d)[k := a]))
  }

  /**
   * A replacement swaps exactly one activity of the day for the merged one,
   * keeps the counter and the other days, and keeps the day sorted.
   */
  lemma {:induction false} ReplaceActivitySpec(r: Routine, d: Day, k: nat, a: Activity)
    requires AllDaysSorted(r)
    requires k < |r.Get(d)|
    ensures ReplaceActivity(r, d, k, a).allTimeActivities == r.allTimeActivities
    ensures ReplaceActivity(r, d, k, a).id == r.id && ReplaceActivity(r, d, k, a).owner == r.owner
    ensures multiset(ReplaceActivity(r, d, k, a).Get(d)) == multiset(r.Get(d)) - multiset{r.Get(d)[k]} + multiset{a}
    ensures |ReplaceActivity(r, d, k, a).Get(d)| == |r.Get(d)|
    ensures AllDaysSorted(ReplaceActivity(r, d, k, a))
    ensures forall e: Day :: e != d ==> ReplaceActivity(r, d, k, a).Get(e) == r.Get(e)
  {
    var day := r.Get(d);
    var replaced := r.With(d, day[k := a]);
    WithSortedDaysSpec(replaced);
    ReplaceMultiset(day, k, a);
    forall e: Day | e != d ensures ReplaceActivity(r, d, k, a).Get(e) == r.Get(e) {
      WithSortedDaysGet(replaced, e);
      Sorting.SortOfSorted(r.Get(e), StartLe);
    }
  }

  lemma ReplaceMultiset<T>(s: seq<T>, k: nat, a: T)
    requires k < |s|
    ensures multiset(s[k := a]) == multiset(s) - multiset{s[k]} + multiset{a}
  {
    assert s == s[..k] + [s[k]] + s[k + 1..];
    assert s[k := a] == s[..k] + [a] + s[k + 1..];
  }

  /**
   * Given a symmetric conflict test and unique ids in the day, an update that
   * passed the scan (which skips the activity's own id) keeps the day conflict-free.
   */
  lemma {:induction false} ReplaceActivityKeepsNoConflicts(conflict: ConflictTest, r: Routine, d: Day, k: nat, a: Activity)
    requires Symmetric(conflict)
    requires k < |r.Get(d)|
    requires NoConflicts(conflict, r.Get(d))
    requires UniqueIds(r.Get(d))
    requires !Clashes(r.Get(d), conflict, a.startTime, a.endTime, Some(r.Get(d)[k].id))
    ensures NoConflicts(conflict, ReplaceActivity(r, d, k, a).Get(d))
  {
    var day := r.Get(d);
    var s := day[k := a];
    var ok := Compatible(conflict);
    forall i, j | 0 <= i < |s| && 0 <= j < |s| && i != j ensures ok(s[i], s[j]) {
      if i == k {
        assert day[j].id != day[k].id;
        assert !conflict(day[j], a.startTime, a.endTime);
        assert conflict(a, day[j].startTime, day[j].endTime) == conflict(day[j], a.startTime, a.endTime);
      } else if j == k {
        assert day[i].id != day[k].id;
        assert !conflict(day[i], a.startTime, a.endTime);
      } else {
        assert s[i] == day[i] && s[j] == day[j];
      }
    }
    assert NoConflicts(conflict, s);
    WithSortedDaysGet(r.With(d, s), d);
    SortByStartKeepsNoConflicts(conflict, s);
  }

  /**
   * A patch that names neither time keeps the activity's interval, so in a
   * conflict-free day with unique ids it never clashes: the scan skips the
   * activity itself, and every other activity was already compatible with it.
   */
  lemma {:induction false} UpdateWithoutTimesNeverClashes(conflict: ConflictTest, r: Routine, d: Day, k: nat,
                                                          patch: map<string, string>)
    requires Symmetric(conflict)
    requires k < |r.Get(d)|
    requires IsValidTime(r.Get(d)[k].startTime) && IsValidTime(r.Get(d)[k].endTime)
    requires NoConflicts(conflict, r.Get(d)) && UniqueIds(r.Get(d))
    requires PatchTimesValid(patch) && !TouchesTimes(patch)
    ensures MergePatch(r.Get(d)[k], r, patch).Ok?
    ensures var m := MergePatch(r.Get(d)[k], r, patch).value;
            !Clashes(r.Get(d), conflict, m.startTime, m.endTime, Some(r.Get(d)[k].id))
  {
    var day := r.Get(d);
    var m := MergePatch(day[k], r, patch).value;
    assert m.startTime == day[k].startTime && m.endTime == day[k].endTime;
    forall i | 0 <= i < |day| && day[i].id != day[k].id ensures !conflict(day[i], m.startTime, m.endTime) {
      assert i != k;
      assert Compatible(conflict)(day[i], day[k]);
    }
  }

  /** Every stored time of every routine is a valid "HH:MM" string. */
  ghost predicate RoutineTimesValid(routines: map<Id, Routine>) {
    forall u :: u in routines ==> AllTimesValid(routines[u])
  }

  /**
   * The effect of `updateActivity` on the two collections: every failure leaves
   * both as they were; 404 without a routine or without the id in the day; the
   * merge's error when a patched interval is not positive; 400 when another
   * activity of the day conflicts with the merged times; otherwise the activity
   * at the found position is replaced by the merged one, and its own document
   * is updated when it exists.
   */
  ghost predicate UpdateOutcome(routines0: map<Id, Routine>, activities0: map<Id, Activity>,
                                routines1: map<Id, Routine>, activities1: map<Id, Activity>,
                                userId: Id, day: Day, activityId: Id, patch: map<string, string>,
                                conflict: ConflictTest, r: Result<Activity>)
    requires RoutineTimesValid(routines0) && PatchTimesValid(patch)
  {
    && (r.Err? ==> routines1 == routines0 && activities1 == activities0)
    && (userId !in routines0 ==> r == Err(Error(NotFound, NoRoutineMessage)))
    && (userId in routines0 && FirstIndex(routines0[userId].Get(day), activityId).None?
        ==> r == Err(Error(NotFound, NoActivityForDay(day))))
    && (userId in routines0 && FirstIndex(routines0[userId].Get(day), activityId).Some? ==>
        var routine := routines0[userId];
        var k := FirstIndex(routine.Get(day), activityId).value;
        var m := MergePatch(routine.Get(day)[k], routine, patch);
        && (m.Err? ==> r == m)
        && (m.Ok? && Clashes(routine.Get(day), conflict, m.value.startTime, m.value.endTime, Some(activityId))
            ==> r == Err(Error(BadRequest, ConflictMessage)))
        && (m.Ok? && !Clashes(routine.Get(day), conflict, m.value.startTime, m.value.endTime, Some(activityId)) ==>
            && r == m
            && routines1 == routines0[userId := ReplaceActivity(routine, day, k, m.value)]
            && activities1 == if activityId in activities0 then activities0[activityId := m.value] else activities0))
  }

  /**
   * The writes of a successful update: put `m` at position `k` of the day,
   * overwrite the activity's own document with `doc` when there is one, and
   * save the routine (the save hook sorts it again). The caller says what the
   * document becomes: the whole of `m`, or only the fields its update sets.
   */
  method CommitReplace(store: Store, routine: Routine, day: Day, k: nat, m: Activity, doc: Activity)
    requires store.Valid() && routine.owner in store.routines && store.routines[routine.owner] == routine
    requires k < |routine.Get(day)| && IsValidTime(m.startTime) && IsValidTime(m.endTime)
    requires m.id == routine.Get(day)[k].id && doc.id == m.id
    modifies store
    ensures store.Valid()
    ensures store.archive == old(store.archive)
    ensures store.routines == old(store.routines)[routine.owner := ReplaceActivity(routine, day, k, m)]
    ensures store.activities == if m.id in old(store.activities)
                                then old(store.activities)[m.id := doc]
                                else old(store.activities)
  {
    var replaced := routine.With(day, routine.Get(day)[k := m]);
    AllTimesValidReplace(routine, day, k, m);
    AllIdsUniqueReplace(routine, day, k, m);
    if m.id in store.activities {
      store.activities := store.activities[m.id := doc];
    }
    Save(store, replaced);
  }

  lemma AllIdsUniqueReplace(r: Routine, d: Day, k: nat, a: Activity)
    requires k < |r.Get(d)| && AllIdsUnique(r)
    requires a.id == r.Get(d)[k].id
    ensures AllIdsUnique(r.With(d, r.Get(d)[k := a]))
  {
    var t := r.With(d, r.Get(d)[k := a]);
    forall e: Day ensures UniqueIds(t.Get(e)) {
      if e == d {
        UniqueIdsReplace(r.Get(d), k, a);
      } else {
        assert t.Get(e) == r.Get(e);
      }
    }
  }

  /**
   * `updateActivity`: find the caller's routine (404), find the activity by id
   * in the day (404), merge the patch (500 when a patched interval is empty or
   * reversed), scan the other activities of the day for a conflict (400), then
   * replace the activity at its position, update its own document when there
   * is one, and save the routine.
   */
  method UpdateActivity(store: Store, userId: Id, day: Day, activityId: Id, patch: map<string, string>,
                        conflict: ConflictTest)
    returns (r: Result<Activity>)
    requires store.Valid()
    requires patch.Keys <= UpdatableFields && PatchTimesValid(patch)
    modifies store
    ensures store.Valid()
    ensures store.archive == old(store.archive)
    ensures UpdateOutcome(old(store.routines), old(store.activities), store.routines, store.activities,
                          userId, day, activityId, patch, conflict, r)
    ensures Symmetric(conflict) && userId in old(store.routines) && NoConflicts(conflict, old(store.routines)[userId].Get(day))
            ==> userId in store.routines && NoConflicts(conflict, store.routines[userId].Get(day))
  {
    if userId !in store.routines {
      return Err(Error(NotFound, NoRoutineMessage));
    }
    var routine := store.routines[userId];
    var activities := routine.Get(day);
    var k := FindIndex(activities, activityId);
    if k == -1 {
      return Err(Error(NotFound, NoActivityForDay(day)));
    }
    var cur := activities[k];
    var merged := MergePatch(cur, routine, patch);
    if merged.Err? {
      return merged;
    }
    var m := merged.value;
    var clash := ScanForConflict(activities, conflict, m.startTime, m.endTime, Some(activityId));
    if clash {
      return Err(Error(BadRequest, ConflictMessage));
    }
    MergePatchSpec(cur, routine, patch);
    if Symmetric(conflict) && NoConflicts(conflict, activities) {
      ReplaceActivityKeepsNoConflicts(conflict, routine, day, k, m);
    }
    CommitReplace(store, routine, day, k, m, m);
    r := Ok(m);
  }
}
