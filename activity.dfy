/**
 * An activity embedded in a routine day, the payload a caller supplies to create
 * one, the archive record written when one is completed, and the conflict rule.
 */
module Activities {
  import opened Wrappers
  import opened TimeOfDay
  import Sorting

  /** A document identifier (an ObjectId). */
  type Id = nat

  /**
   * Fields that a creator may leave unset are `Option`s: the current helper copies
   * `userId`, `duration` and `isCompleted`; the older helper sets none of them.
   * A string field that was not supplied is the empty string (both are falsy).
   */
  datatype Activity = Activity(
    id: Id,
    userId: Option<Id>,
    routineId: Id,
    startTime: string,
    endTime: string,
    duration: Option<int>,
    activity: string,
    category: string,
    isCompleted: Option<bool>,
    color: string)

  /** The request body of a create call, after JSON decoding. */
  datatype ActivityInput = ActivityInput(
    startTime: string,
    endTime: string,
    activity: string,
    category: string,
    color: string,
    duration: Option<int>,
    isCompleted: Option<bool>)

  /** The archive record written when an activity is marked completed. */
  datatype CompletedActivity = CompletedActivity(
    activityId: Id,
    activity: string,
    duration: Option<int>,
    category: string)

  /**
   * The conflict test an existing activity offers: does it clash with a new
   * activity running from `start` to `end`? Its body is not part of this model,
   * so every operation takes it as a parameter.
   */
  type ConflictTest = (Activity, string, string) -> bool

  /** The test gives the same answer whichever of two activities is asked about the other. */
  ghost predicate Symmetric(conflict: ConflictTest) {
    forall a: Activity, b: Activity :: conflict(a, b.startTime, b.endTime) == conflict(b, a.startTime, a.endTime)
  }

  function Compatible(conflict: ConflictTest): (Activity, Activity) -> bool {
    (a: Activity, b: Activity) => !conflict(a, b.startTime, b.endTime)
  }

  /** No two activities of a day (at different positions) conflict. */
  predicate NoConflicts(conflict: ConflictTest, day: seq<Activity>) {
    Sorting.Pairwise(day, Compatible(conflict))
  }

  /**
   * The intended conflict test: the half-open minute intervals
   * [start, end) of the two activities intersect.
   */
  predicate Overlaps(a: Activity, start: string, end: string) {
    && IsValidTime(a.startTime) && IsValidTime(a.endTime)
    && IsValidTime(start) && IsValidTime(end)
    && Minutes(a.startTime) < Minutes(end)
    && Minutes(start) < Minutes(a.endTime)
  }

  lemma OverlapsIsSymmetric()
    ensures Symmetric(Overlaps)
  {
  }

  /** An activity of positive length overlaps itself, so the update scan must skip it. */
  lemma OverlapsItself(a: Activity)
    requires IsValidTime(a.startTime) && IsValidTime(a.endTime)
    requires Minutes(a.startTime) < Minutes(a.endTime)
    ensures Overlaps(a, a.startTime, a.endTime)
  {
  }

  /** Back-to-back activities (one ends when the next starts) do not overlap. */
  lemma AdjacentDoNotOverlap(a: Activity, end: string)
    requires IsValidTime(a.startTime) && IsValidTime(end)
    ensures !Overlaps(a, end, a.startTime)
  {
  }
}
