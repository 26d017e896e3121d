/**
 * One tick of the completion reset job: for every user whose local clock
 * reads midnight, clear the completed flag of every activity document that
 * names that user as its owner. The scheduler and the time-zone conversion
 * are outside the model: the local "HH:mm" reading of each zone is an input.
 */
module ResetJob {
  import opened Wrappers
  import opened Activities
  import opened Store

  /** The fields of a user document the job reads; an unset zone is the empty string. */
  datatype User = User(id: Id, timeZone: string)

  const DefaultZone: string := "UTC"
  const Midnight: string := "00:00"

  /** The zone the job uses for a user: the stored one when set, else UTC. */
  function ZoneOf(u: User): (z: string)
    ensures u.timeZone != "" ==> z == u.timeZone
    ensures u.timeZone == "" ==> z == DefaultZone
    ensures z != ""
  {
    if u.timeZone != "" then u.timeZone else DefaultZone
  }

  /** The job acts for a user exactly when the user's local time formats to "00:00". */
  predicate IsDue(u: User, localTime: string -> string) {
    localTime(ZoneOf(u)) == Midnight
  }

  /**
   * The bulk update for one user: every activity whose owner field (kept in
   * `ownerField`, keyed by activity id) is that user gets `isCompleted` false.
   */
  function ResetFor(activities: map<Id, Activity>, owner: Id, ownerField: map<Id, Id>): (r: map<Id, Activity>)
    ensures r.Keys == activities.Keys
    ensures forall k :: k in activities && k in ownerField && ownerField[k] == owner ==>
      r[k].isCompleted == Some(false)
    ensures forall k :: k in activities && !(k in ownerField && ownerField[k] == owner) ==> r[k] == activities[k]
    ensures forall k :: k in activities ==> r[k].(isCompleted := activities[k].isCompleted) == activities[k]
  {
    map k | k in activities ::
      if k in ownerField && ownerField[k] == owner then activities[k].(isCompleted := Some(false)) else activities[k]
  }

  /** Resetting the same user twice is the same as resetting once. */
  lemma ResetIdempotent(activities: map<Id, Activity>, owner: Id, ownerField: map<Id, Id>)
    ensures ResetFor(ResetFor(activities, owner, ownerField), owner, ownerField) == ResetFor(activities, owner, ownerField)
  {
  }

  /** One user's turn in the loop: reset when due, nothing otherwise. */
  function Visit(activities: map<Id, Activity>, u: User, localTime: string -> string, ownerField: map<Id, Id>)
    : map<Id, Activity>
  {
    if IsDue(u, localTime) then ResetFor(activities, u.id, ownerField) else activities
  }

  /** The collection after visiting `users` in order. */
  function TickSpec(activities: map<Id, Activity>, users: seq<User>, localTime: string -> string,
                    ownerField: map<Id, Id>): map<Id, Activity>
  {
    if users == [] then activities
    else Visit(TickSpec(activities, users[..|users| - 1], localTime, ownerField), users[|users| - 1], localTime, ownerField)
  }

  /** Some due user among `users` owns the activity stored under `k`. */
  predicate OwnerDue(users: seq<User>, localTime: string -> string, ownerField: map<Id, Id>, k: Id) {
    k in ownerField && exists i :: 0 <= i < |users| && users[i].id == ownerField[k] && IsDue(users[i], localTime)
  }

  /**
   * What a whole tick does, independently of the visiting order: an activity
   * whose owner is a due user has its flag cleared, every other activity is
   * unchanged, and no activity is added or removed.
   */
  lemma {:induction false} TickEffect(activities: map<Id, Activity>, users: seq<User>, localTime: string -> string,
                                      ownerField: map<Id, Id>)
    ensures TickSpec(activities, users, localTime, ownerField).Keys == activities.Keys
    ensures forall k :: k in activities ==>
      TickSpec(activities, users, localTime, ownerField)[k] ==
        if OwnerDue(users, localTime, ownerField, k) then activities[k].(isCompleted := Some(false))
        else activities[k]
  {
    if users != [] {
      var init := users[..|users| - 1];
      var last := users[|users| - 1];
      TickEffect(activities, init, localTime, ownerField);
      forall k | k in activities
        ensures TickSpec(activities, users, localTime, ownerField)[k] ==
          if OwnerDue(users, localTime, ownerField, k) then activities[k].(isCompleted := Some(false))
          else activities[k]
      {
        if OwnerDue(init, localTime, ownerField, k) {
          var i :| 0 <= i < |init| && init[i].id == ownerField[k] && IsDue(init[i], localTime);
          assert users[i] == init[i];
        } else if OwnerDue(users, localTime, ownerField, k) {
          var i :| 0 <= i < |users| && users[i].id == ownerField[k] && IsDue(users[i], localTime);
          assert i == |init|;
        }
      }
    }
  }

  /** A tick never clears the flag of an activity whose owner is not due, nor touches any other field. */
  lemma TickOnlyClearsCompletion(activities: map<Id, Activity>, users: seq<User>, localTime: string -> string,
                                 ownerField: map<Id, Id>, k: Id)
    requires k in activities
    ensures k in TickSpec(activities, users, localTime, ownerField)
    ensures TickSpec(activities, users, localTime, ownerField)[k].(isCompleted := activities[k].isCompleted)
      == activities[k]
  {
    TickEffect(activities, users, localTime, ownerField);
  }

  /** A tick in which every user's clock is past midnight leaves the collection as it is. */
  lemma TickOutsideMidnight(activities: map<Id, Activity>, users: seq<User>, localTime: string -> string,
                            ownerField: map<Id, Id>)
    requires forall i :: 0 <= i < |users| ==> !IsDue(users[i], localTime)
    ensures TickSpec(activities, users, localTime, ownerField) == activities
  {
    TickEffect(activities, users, localTime, ownerField);
  }

  /** Running a tick twice at the same instant is the same as running it once. */
  lemma TickIdempotent(activities: map<Id, Activity>, users: seq<User>, localTime: string -> string,
                       ownerField: map<Id, Id>)
    ensures TickSpec(TickSpec(activities, users, localTime, ownerField), users, localTime, ownerField)
      == TickSpec(activities, users, localTime, ownerField)
  {
    var once := TickSpec(activities, users, localTime, ownerField);
    TickEffect(activities, users, localTime, ownerField);
    TickEffect(once, users, localTime, ownerField);
  }

  /**
   * The scheduled callback: visit each user once, in order, and reset the
   * due ones. Only the activities collection changes.
   */
  method Tick(store: Store, users: seq<User>, localTime: string -> string, ownerField: map<Id, Id>)
    requires store.Valid()
    modifies store
    ensures store.Valid()
    ensures store.routines == old(store.routines) && store.archive == old(store.archive)
    ensures store.activities == TickSpec(old(store.activities), users, localTime, ownerField)
  {
    for i := 0 to |users|
      invariant store.Valid()
      invariant store.routines == old(store.routines) && store.archive == old(store.archive)
      invariant store.activities == TickSpec(old(store.activities), users[..i], localTime, ownerField)
    {
      assert users[..i + 1][..i] == users[..i];
      var u := users[i];
      if localTime(ZoneOf(u)) == Midnight {
        store.activities := ResetFor(store.activities, u.id, ownerField);
      }
    }
    assert users[..|users|] == users;
  }
}
