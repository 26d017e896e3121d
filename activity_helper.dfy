/**
 * The older helpers, which look routines up by their `user` field and never
 * deal with durations: the activity they build or merge has no `userId`, no
 * `duration` and no `isCompleted`. The lookup, the conflict scan and the
 * insert are those of the current helpers.
 */
module ActivityHelper {
  import opened Wrappers
  import opened TimeOfDay
  import opened Activities
  import opened RoutineModel
  import opened Days
  import opened Store
  import opened RoutineHelper

  const ActivityNotFoundMessage: string := "Activity not found!"

  /** The legacy day lookup: the same 404 guards and result as the current one. */
  function LegacyGetRoutineForUserOnDay(routines: map<Id, Routine>, userId: Id, day: Day): (r: Result<seq<Activity>>)
    ensures r == GetRoutineForUserOnDay(routines, userId, day)
  {
    if userId !in routines || routines[userId].Get(day) == [] then Err(Error(NotFound, NoActivityForDay(day)))
    else Ok(routines[userId].Get(day))
  }

  /** The activity document of the older create: only the five payload strings and the routine link. */
  function BuildLegacyActivity(id: Id, routineId: Id, input: ActivityInput): (a: Activity)
    ensures a.userId.None? && a.duration.None? && a.isCompleted.None?
    ensures a.startTime == input.startTime && a.endTime == input.endTime
    ensures a.activity == input.activity && a.category == input.category && a.color == input.color
  {
    Activity(id, None, routineId, input.startTime, input.endTime, None,
      input.activity, input.category, None, input.color)
  }

  /**
   * The older `createActivity`: lazily create the routine (counter 0, empty
   * days), reject a conflicting activity with 400, else push, count and save.
   * The stored activity carries no duration, whatever the payload holds.
   */
  method LegacyCreateActivity(store: Store, userId: Id, day: Day, input: ActivityInput, conflict: ConflictTest,
                              routineId: Id, activityId: Id)
    returns (r: Result<Activity>)
    requires store.Valid()
    requires IsValidTime(input.startTime) && IsValidTime(input.endTime)
    requires FreshActivityId(store.routines, store.activities, activityId)
    modifies store
    ensures store.Valid()
    ensures store.archive == old(store.archive)
    ensures
      var routine := RoutineOrNew(old(store.routines), userId, routineId);
      InsertOutcome(old(store.routines), old(store.activities), store.routines, store.activities,
                    routine, day, BuildLegacyActivity(activityId, routine.id, input), conflict, r)
    ensures Symmetric(conflict) && (userId in old(store.routines) ==> NoConflicts(conflict, old(store.routines)[userId].Get(day)))
            ==> userId in store.routines && NoConflicts(conflict, store.routines[userId].Get(day))
  {
    ghost var routines0 := store.routines;
    var routine := LoadOrCreateRoutine(store, userId, routineId);
    ghost var routines1 := store.routines;
    var a := BuildLegacyActivity(activityId, routine.id, input);
    FreshInRoutine(routines0, store.activities, activityId, routine, day);
    r := InsertActivity(store, routine, day, a, conflict);
    CreatedRoutineOutcome(routines0, old(store.activities), store.routines, store.activities, routine, day, a, conflict, r);
    CreateKeepsNoConflicts(routines0, routines1, store.routines, old(store.activities), store.activities,
                           routine, day, a, conflict, r);
  }

  /**
   * The merge of the older `updateActivity`: each of the five string fields
   * from the patch when truthy, else the current value; the id of the current
   * activity and the routine link; no `userId`, `duration` or `isCompleted`.
   * The routine's embedded copy is replaced by this value whole, so it loses
   * those three fields; the activity's own document does not (see SetFields).
   */
  function LegacyMerge(cur: Activity, routine: Routine, patch: map<string, string>): (m: Activity)
    ensures m.id == cur.id && m.routineId == routine.id
    ensures m.userId.None? && m.duration.None? && m.isCompleted.None?
    ensures forall k :: k in UpdatableFields ==>
      (Truthy(patch, k) ==> FieldOf(m, k) == patch[k]) && (!Truthy(patch, k) ==> FieldOf(m, k) == FieldOf(cur, k))
  {
    Activity(cur.id, None, routine.id,
      Pick(patch, "startTime", cur.startTime), Pick(patch, "endTime", cur.endTime), None,
      Pick(patch, "activity", cur.activity), Pick(patch, "category", cur.category),
      None, Pick(patch, "color", cur.color))
  }

  /**
   * The older update's write to the activity's own document: the update object
   * is applied field by field, so the keys it carries (the routine link, both
   * times, activity, category and color) take the merged values and the keys
   * it lacks (owner, duration, completion flag) keep what the document held.
   */
  function SetFields(doc: Activity, m: Activity): (r: Activity)
    ensures r.id == doc.id && r.userId == doc.userId && r.duration == doc.duration && r.isCompleted == doc.isCompleted
    ensures r.routineId == m.routineId && r.startTime == m.startTime && r.endTime == m.endTime
    ensures r.activity == m.activity && r.category == m.category && r.color == m.color
  {
    doc.(routineId := m.routineId, startTime := m.startTime, endTime := m.endTime,
         activity := m.activity, category := m.category, color := m.color)
  }

  /**
   * Setting the fields is a whole replacement exactly when the document already
   * agrees with the merged value on the keys the update object lacks; the
   * routine's embedded copy and the document part ways otherwise.
   */
  lemma SetFieldsIsReplacement(doc: Activity, m: Activity)
    ensures SetFields(doc, m) == m <==>
      doc.id == m.id && doc.userId == m.userId && doc.duration == m.duration && doc.isCompleted == m.isCompleted
  {
  }

  /** The merged interval of the older update may be empty or reversed: nothing compares the two times. */
  lemma LegacyMergeAcceptsReversedInterval(cur: Activity, routine: Routine)
    ensures LegacyMerge(cur, routine, map["startTime" := "10:00", "endTime" := "09:00"]).startTime == "10:00"
    ensures LegacyMerge(cur, routine, map["startTime" := "10:00", "endTime" := "09:00"]).endTime == "09:00"
  {
  }

  /**
   * The older `updateActivity`: 404 without a routine, 404 'Activity not
   * found!' when the day has no activity with the id, 400 when another activity
   * of the day conflicts with the merged times; otherwise replace the activity
   * at its position, set the merged fields on its own document when there is
   * one, and save.
   */
  method LegacyUpdateActivity(store: Store, userId: Id, day: Day, activityId: Id, patch: map<string, string>,
                              conflict: ConflictTest)
    returns (r: Result<Activity>)
    requires store.Valid()
    requires PatchTimesValid(patch)
    modifies store
    ensures store.Valid()
    ensures store.archive == old(store.archive)
    ensures r.Err? ==> store.routines == old(store.routines) && store.activities == old(store.activities)
    ensures userId !in old(store.routines) ==> r == Err(Error(NotFound, NoRoutineMessage))
    ensures userId in old(store.routines) && FirstIndex(old(store.routines)[userId].Get(day), activityId).None?
            ==> r == Err(Error(NotFound, ActivityNotFoundMessage))
    ensures userId in old(store.routines) && FirstIndex(old(store.routines)[userId].Get(day), activityId).Some? ==>
      var routine := old(store.routines)[userId];
      var k := FirstIndex(routine.Get(day), activityId).value;
      var m := LegacyMerge(routine.Get(day)[k], routine, patch);
      && (Clashes(routine.Get(day), conflict, m.startTime, m.endTime, Some(activityId))
          ==> r == Err(Error(BadRequest, ConflictMessage)))
      && (!Clashes(routine.Get(day), conflict, m.startTime, m.endTime, Some(activityId)) ==>
          && r == Ok(m)
          && store.routines == old(store.routines)[userId := ReplaceActivity(routine, day, k, m)]
          && store.activities == if activityId in old(store.activities)
                                 then old(store.activities)[activityId := SetFields(old(store.activities)[activityId], m)]
                                 else old(store.activities))
    ensures Symmetric(conflict) && userId in old(store.routines) && NoConflicts(conflict, old(store.routines)[userId].Get(day))
            ==> userId in store.routines && NoConflicts(conflict, store.routines[userId].Get(day))
  {
    if userId !in store.routines {
      return Err(Error(NotFound, NoRoutineMessage));
    }
    var routine := store.routines[userId];
    var activities := routine.Get(day);
    var k := FindIndex(activities, activityId);
    if k == -1 {
      return Err(Error(NotFound, ActivityNotFoundMessage));
    }
    var m := LegacyMerge(activities[k], routine, patch);
    var clash := ScanForConflict(activities, conflict, m.startTime, m.endTime, Some(activityId));
    if clash {
      return Err(Error(BadRequest, ConflictMessage));
    }
    if Symmetric(conflict) && NoConflicts(conflict, activities) {
      ReplaceActivityKeepsNoConflicts(conflict, routine, day, k, m);
    }
    var doc := if activityId in store.activities then SetFields(store.activities[activityId], m) else m;
    CommitReplace(store, routine, day, k, m, doc);
    r := Ok(m);
  }
}
