/**
 * Marking an activity completed and unmarking it: both work on the activity's
 * own document (not the copy embedded in the routine), check that it exists
 * and belongs to the caller, flip `isCompleted`, and write or delete a record
 * in the completed-activity archive.
 */
module ActivityController {
  import opened Wrappers
  import opened Activities
  import opened Store

  const NoActivityWithIdMessage: string := "No activity found with that ID"
  const PermissionMessage: string := "You do not have permission to modify this activity."

  /** The guards shared by both handlers: 404 for an unknown id, 403 when the caller does not own it. */
  function OwnedActivity(activities: map<Id, Activity>, callerId: Id, activityId: Id): (r: Result<Activity>)
    ensures activityId !in activities ==> r == Err(Error(NotFound, NoActivityWithIdMessage))
    ensures activityId in activities && activities[activityId].userId != Some(callerId)
            ==> r == Err(Error(Forbidden, PermissionMessage))
    ensures r.Ok? <==> activityId in activities && activities[activityId].userId == Some(callerId)
    ensures r.Ok? ==> r.value == activities[activityId]
  {
    if activityId !in activities then Err(Error(NotFound, NoActivityWithIdMessage))
    else if activities[activityId].userId != Some(callerId) then Err(Error(Forbidden, PermissionMessage))
    else Ok(activities[activityId])
  }

  /** The archive record of a completed activity: its id, name, duration and category. */
  function ArchiveRecord(a: Activity): (c: CompletedActivity)
    ensures c.activityId == a.id && c.activity == a.activity && c.duration == a.duration && c.category == a.category
  {
    CompletedActivity(a.id, a.activity, a.duration, a.category)
  }

  /** The number of archive records for one activity. */
  function CountFor(archive: seq<CompletedActivity>, activityId: Id): nat {
    if archive == [] then 0
    else (if archive[0].activityId == activityId then 1 else 0) + CountFor(archive[1..], activityId)
  }

  lemma {:induction false} CountForAppend(archive: seq<CompletedActivity>, c: CompletedActivity, activityId: Id)
    ensures CountFor(archive + [c], activityId) == CountFor(archive, activityId) + (if c.activityId == activityId then 1 else 0)
  {
    if archive != [] {
      assert (archive + [c])[1..] == archive[1..] + [c];
      CountForAppend(archive[1..], c, activityId);
    }
  }

  /**
   * `findOneAndDelete({activityId})`: drop the first record for the activity
   * (the oldest one, in insertion order), if there is one.
   */
  function RemoveFirst(archive: seq<CompletedActivity>, activityId: Id): (r: seq<CompletedActivity>)
    ensures |r| <= |archive|
  {
    if archive == [] then []
    else if archive[0].activityId == activityId then archive[1..]
    else [archive[0]] + RemoveFirst(archive[1..], activityId)
  }

  /** Without a record for the activity, unmarking leaves the archive as it is. */
  lemma {:induction false} RemoveFirstAbsent(archive: seq<CompletedActivity>, activityId: Id)
    requires CountFor(archive, activityId) == 0
    ensures RemoveFirst(archive, activityId) == archive
  {
    if archive != [] {
      RemoveFirstAbsent(archive[1..], activityId);
    }
  }

  /** With a record for the activity, unmarking removes exactly one of them. */
  lemma {:induction false} RemoveFirstRemovesOne(archive: seq<CompletedActivity>, activityId: Id)
    requires CountFor(archive, activityId) > 0
    ensures |RemoveFirst(archive, activityId)| == |archive| - 1
    ensures CountFor(RemoveFirst(archive, activityId), activityId) == CountFor(archive, activityId) - 1
  {
    if archive[0].activityId != activityId {
      RemoveFirstRemovesOne(archive[1..], activityId);
    }
  }

  /**
   * The record removed is the first one for the activity, and the remaining
   * records keep their order.
   */
  lemma {:induction false} RemoveFirstIsFirst(archive: seq<CompletedActivity>, activityId: Id, k: nat)
    requires k < |archive| && archive[k].activityId == activityId
    requires forall i :: 0 <= i < k ==> archive[i].activityId != activityId
    ensures RemoveFirst(archive, activityId) == archive[..k] + archive[k + 1..]
  {
    if k > 0 {
      var rest := archive[1..];
      RemoveFirstIsFirst(rest, activityId, k - 1);
      assert archive[..k] == [archive[0]] + rest[..k - 1];
      assert archive[k + 1..] == rest[k..];
    }
  }

  /** Records of other activities are never touched. */
  lemma {:induction false} RemoveFirstKeepsOthers(archive: seq<CompletedActivity>, activityId: Id, other: Id)
    requires other != activityId
    ensures CountFor(RemoveFirst(archive, activityId), other) == CountFor(archive, other)
  {
    if archive != [] {
      RemoveFirstKeepsOthers(archive[1..], activityId, other);
    }
  }

  /** Marking and then unmarking, starting with no record for the activity, leaves the archive as it was. */
  lemma {:induction false} MarkThenUnmarkRestoresArchive(archive: seq<CompletedActivity>, a: Activity)
    requires CountFor(archive, a.id) == 0
    ensures RemoveFirst(archive + [ArchiveRecord(a)], a.id) == archive
  {
    if archive != [] {
      assert (archive + [ArchiveRecord(a)])[1..] == archive[1..] + [ArchiveRecord(a)];
      MarkThenUnmarkRestoresArchive(archive[1..], a);
    }
  }

  /**
   * `addMyActivityMark`: after the guards, set `isCompleted` to true and append
   * one archive record. Nothing stops a second mark, which appends a second record.
   */
  method AddMyActivityMark(store: Store, callerId: Id, activityId: Id) returns (r: Result<Activity>)
    requires store.Valid()
    modifies store
    ensures store.Valid()
    ensures store.routines == old(store.routines)
    ensures OwnedActivity(old(store.activities), callerId, activityId).Err? ==>
      && r == Err(OwnedActivity(old(store.activities), callerId, activityId).error)
      && store.activities == old(store.activities) && store.archive == old(store.archive)
    ensures OwnedActivity(old(store.activities), callerId, activityId).Ok? ==>
      var marked := old(store.activities)[activityId].(isCompleted := Some(true));
      && r == Ok(marked)
      && store.activities == old(store.activities)[activityId := marked]
      && store.archive == old(store.archive) + [ArchiveRecord(marked)]
      && CountFor(store.archive, activityId) == CountFor(old(store.archive), activityId) + 1
  {
    var found := OwnedActivity(store.activities, callerId, activityId);
    if found.Err? {
      return Err(found.error);
    }
    var marked := found.value.(isCompleted := Some(true));
    store.activities := store.activities[activityId := marked];
    CountForAppend(store.archive, ArchiveRecord(marked), activityId);
    store.archive := store.archive + [ArchiveRecord(marked)];
    r := Ok(marked);
  }

  /**
   * `deleteMyActivityMark`: after the same guards, set `isCompleted` to false
   * and delete the first archive record for the activity, if any.
   */
  method DeleteMyActivityMark(store: Store, callerId: Id, activityId: Id) returns (r: Result<Activity>)
    requires store.Valid()
    modifies store
    ensures store.Valid()
    ensures store.routines == old(store.routines)
    ensures OwnedActivity(old(store.activities), callerId, activityId).Err? ==>
      && r == Err(OwnedActivity(old(store.activities), callerId, activityId).error)
      && store.activities == old(store.activities) && store.archive == old(store.archive)
    ensures OwnedActivity(old(store.activities), callerId, activityId).Ok? ==>
      var unmarked := old(store.activities)[activityId].(isCompleted := Some(false));
      && r == Ok(unmarked)
      && store.activities == old(store.activities)[activityId := unmarked]
      && store.archive == RemoveFirst(old(store.archive), activityId)
  {
    var found := OwnedActivity(store.activities, callerId, activityId);
    if found.Err? {
      return Err(found.error);
    }
    var unmarked := found.value.(isCompleted := Some(false));
    store.activities := store.activities[activityId := unmarked];
    store.archive := RemoveFirst(store.archive, activityId);
    r := Ok(unmarked);
  }
}
