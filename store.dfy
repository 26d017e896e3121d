/**
 * The document store the engine works against, held in memory: the routines
 * collection (one routine per owner), the activities collection (each activity
 * is also addressable on its own) and the completed-activity archive.
 */
module Store {
  import opened Activities
  import opened RoutineModel
  import opened Days

  class Store {
    /** Routines, keyed by the owning user. */
    var routines: map<Id, Routine>
    /** The activities collection, keyed by activity id. */
    var activities: map<Id, Activity>
    /** The completed-activity archive, in insertion order. */
    var archive: seq<CompletedActivity>

    /**
     * Every routine is stored under its owner, and every write went through
     * the pre-save hook, so every day is sorted by start time; every stored
     * time passed the "HH:MM" validation before it was written. Every
     * activity document is stored under its own id.
     */
    ghost predicate Valid()
      reads this
    {
      RoutinesValid(routines) && DocumentsValid(activities)
    }

    constructor ()
      ensures Valid()
      ensures routines == map[] && activities == map[] && archive == []
    {
      routines := map[];
      activities := map[];
      archive := [];
    }
  }

  /**
   * Every routine is stored under its owner, with every day sorted, every time
   * valid and no id twice in a day.
   */
  ghost predicate RoutinesValid(routines: map<Id, Routine>) {
    forall u :: u in routines ==>
      routines[u].owner == u && AllDaysSorted(routines[u]) && AllTimesValid(routines[u]) && AllIdsUnique(routines[u])
  }

  /**
   * An id the database has not handed out yet: no activity document has it
   * and no day of any routine holds an activity with it (a new ObjectId).
   */
  ghost predicate FreshActivityId(routines: map<Id, Routine>, activities: map<Id, Activity>, id: Id) {
    && id !in activities
    && forall u, d: Day, x :: u in routines && x in routines[u].Get(d) ==> x.id != id
  }

  /** Every activity document is stored under its own id. */
  ghost predicate DocumentsValid(activities: map<Id, Activity>) {
    forall k :: k in activities ==> activities[k].id == k
  }

  /** The routine a create call works on: the stored one, or the one it creates. */
  function RoutineOrNew(routines: map<Id, Routine>, owner: Id, routineId: Id): (r: Routine)
    ensures owner in routines ==> r == routines[owner]
    ensures owner !in routines ==> r == NewRoutine(routineId, owner)
  {
    if owner in routines then routines[owner] else NewRoutine(routineId, owner)
  }

  /** `Activity.create(a)`: write the activity document under its own id. */
  method PutDocument(store: Store, a: Activity)
    requires store.Valid()
    modifies store
    ensures store.Valid()
    ensures store.activities == old(store.activities)[a.id := a]
    ensures store.routines == old(store.routines) && store.archive == old(store.archive)
  {
    store.activities := store.activities[a.id := a];
  }

  /** `routine.save()`: run the pre-save hook and write the routine under its owner. */
  method Save(store: Store, r: Routine)
    requires store.Valid()
    requires AllTimesValid(r) && AllIdsUnique(r)
    modifies store
    ensures store.Valid()
    ensures store.routines == old(store.routines)[r.owner := WithSortedDays(r)]
    ensures store.activities == old(store.activities) && store.archive == old(store.archive)
  {
    var saved := PreSave(r);
    WithSortedDaysSpec(r);
    forall d: Day ensures TimesValid(saved.Get(d)) && UniqueIds(saved.Get(d)) {
      WithSortedDaysGet(r, d);
      SortByStartKeepsTimes(r.Get(d));
      SortByStartKeepsUniqueIds(r.Get(d));
    }
    store.routines := store.routines[r.owner := saved];
  }
}
