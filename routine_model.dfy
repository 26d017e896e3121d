/**
 * The routine document of one user: seven day arrays of activities and the
 * all-time counter, with its schema defaults and its pre-save hook, which sorts
 * every day by `startTime`.
 */
module RoutineModel {
  import opened Activities
  import opened Days
  import opened TimeOfDay
  import Sorting

  datatype Routine = Routine(
    id: Id,
    owner: Id,
    allTimeActivities: nat,
    monday: seq<Activity>,
    tuesday: seq<Activity>,
    wednesday: seq<Activity>,
    thursday: seq<Activity>,
    friday: seq<Activity>,
    saturday: seq<Activity>,
    sunday: seq<Activity>)
  {
    /** The array stored under a day's field. */
    function Get(d: Day): seq<Activity> {
      match d
      case Monday => monday
      case Tuesday => tuesday
      case Wednesday => wednesday
      case Thursday => thursday
      case Friday => friday
      case Saturday => saturday
      case Sunday => sunday
    }

    /** The same routine with the array of day `d` replaced. */
    function With(d: Day, s: seq<Activity>): (r: Routine)
      ensures r.Get(d) == s
      ensures forall e: Day :: e != d ==> r.Get(e) == Get(e)
      ensures r.id == id && r.owner == owner && r.allTimeActivities == allTimeActivities
    {
      match d
      case Monday => this.(monday := s)
      case Tuesday => this.(tuesday := s)
      case Wednesday => this.(wednesday := s)
      case Thursday => this.(thursday := s)
      case Friday => this.(friday := s)
      case Saturday => this.(saturday := s)
      case Sunday => this.(sunday := s)
    }

    /** The same routine with the all-time counter set to `n`. */
    function WithCounter(n: nat): (r: Routine)
      ensures forall d: Day :: r.Get(d) == Get(d)
      ensures r.id == id && r.owner == owner && r.allTimeActivities == n
    {
      this.(allTimeActivities := n)
    }
  }

  /** A routine as the schema defaults create it: counter 0 and seven empty days. */
  function NewRoutine(id: Id, owner: Id): (r: Routine)
    ensures r.id == id && r.owner == owner && r.allTimeActivities == 0
    ensures forall d: Day :: r.Get(d) == []
  {
    Routine(id, owner, 0, [], [], [], [], [], [], [])
  }

  /** The comparator of the pre-save sort: `a.startTime.localeCompare(b.startTime) <= 0`. */
  predicate StartLe(a: Activity, b: Activity) {
    LexLe(a.startTime, b.startTime)
  }

  lemma StartLeIsTotalPreorder()
    ensures Sorting.IsTotalPreorder(StartLe)
  {
    forall a: Activity, b: Activity ensures StartLe(a, b) || StartLe(b, a) {
      LexLeTotal(a.startTime, b.startTime);
    }
    forall a: Activity, b: Activity, c: Activity | StartLe(a, b) && StartLe(b, c) ensures StartLe(a, c) {
      LexLeTransitive(a.startTime, b.startTime, c.startTime);
    }
  }

  /** One day's array after the hook's stable sort by `startTime`. */
  function SortByStart(day: seq<Activity>): seq<Activity> {
    Sorting.Sort(day, StartLe)
  }

  predicate DaySorted(day: seq<Activity>) {
    Sorting.SortedBy(day, StartLe)
  }

  predicate AllDaysSorted(r: Routine) {
    forall d: Day :: DaySorted(r.Get(d))
  }

  /** Every stored start and end time is a valid "HH:MM" string. */
  predicate TimesValid(day: seq<Activity>) {
    forall i :: 0 <= i < |day| ==> IsValidTime(day[i].startTime) && IsValidTime(day[i].endTime)
  }

  predicate AllTimesValid(r: Routine) {
    forall d: Day :: TimesValid(r.Get(d))
  }

  /** No two activities of the day share an id. */
  predicate UniqueIds(day: seq<Activity>) {
    forall i, j :: 0 <= i < |day| && 0 <= j < |day| && i != j ==> day[i].id != day[j].id
  }

  /** Every activity id of the routine occurs once in its day. */
  predicate AllIdsUnique(r: Routine) {
    forall d: Day :: UniqueIds(r.Get(d))
  }

  /** The routine as the pre-save hook leaves it: every day sorted, nothing else changed. */
  function WithSortedDays(r: Routine): Routine {
    Routine(r.id, r.owner, r.allTimeActivities,
      SortByStart(r.monday), SortByStart(r.tuesday), SortByStart(r.wednesday),
      SortByStart(r.thursday), SortByStart(r.friday), SortByStart(r.saturday),
      SortByStart(r.sunday))
  }

  lemma WithSortedDaysGet(r: Routine, d: Day)
    ensures WithSortedDays(r).Get(d) == SortByStart(r.Get(d))
  {
    match d
    case Monday =>
    case Tuesday =>
    case Wednesday =>
    case Thursday =>
    case Friday =>
    case Saturday =>
    case Sunday =>
  }

  /**
   * After the hook every day is sorted by `startTime`, holds the same activities
   * (the same multiset, hence the same length), and no activity has moved to
   * another day; the owner, the id and the counter are untouched.
   */
  lemma {:induction false} WithSortedDaysSpec(r: Routine)
    ensures AllDaysSorted(WithSortedDays(r))
    ensures forall d: Day :: multiset(WithSortedDays(r).Get(d)) == multiset(r.Get(d))
    ensures forall d: Day :: |WithSortedDays(r).Get(d)| == |r.Get(d)|
    ensures WithSortedDays(r).id == r.id && WithSortedDays(r).owner == r.owner
    ensures WithSortedDays(r).allTimeActivities == r.allTimeActivities
  {
    StartLeIsTotalPreorder();
    forall d: Day
      ensures DaySorted(WithSortedDays(r).Get(d))
      ensures multiset(WithSortedDays(r).Get(d)) == multiset(r.Get(d))
      ensures |WithSortedDays(r).Get(d)| == |r.Get(d)|
    {
      WithSortedDaysGet(r, d);
      Sorting.SortSorted(r.Get(d), StartLe);
    }
  }

  /** Activities with equal start times keep the relative order they had before the hook. */
  lemma SortByStartIsStable(day: seq<Activity>, x: Activity)
    ensures Sorting.Ties(SortByStart(day), StartLe, x) == Sorting.Ties(day, StartLe, x)
  {
    StartLeIsTotalPreorder();
    Sorting.SortStable(day, StartLe, x);
  }

  /** Two routines with the same header fields and the same seven days are equal. */
  lemma RoutineExtensionality(a: Routine, b: Routine)
    requires a.id == b.id && a.owner == b.owner && a.allTimeActivities == b.allTimeActivities
    requires forall d: Day :: a.Get(d) == b.Get(d)
    ensures a == b
  {
    assert a.Get(Monday) == b.Get(Monday);
    assert a.Get(Tuesday) == b.Get(Tuesday);
    assert a.Get(Wednesday) == b.Get(Wednesday);
    assert a.Get(Thursday) == b.Get(Thursday);
    assert a.Get(Friday) == b.Get(Friday);
    assert a.Get(Saturday) == b.Get(Saturday);
    assert a.Get(Sunday) == b.Get(Sunday);
  }

  /** Saving a routine whose days are already sorted changes nothing. */
  lemma {:induction false} WithSortedDaysOfSorted(r: Routine)
    requires AllDaysSorted(r)
    ensures WithSortedDays(r) == r
  {
    forall d: Day ensures WithSortedDays(r).Get(d) == r.Get(d) {
      WithSortedDaysGet(r, d);
      Sorting.SortOfSorted(r.Get(d), StartLe);
    }
    RoutineExtensionality(WithSortedDays(r), r);
  }

  /** The hook keeps every stored time valid (it only reorders). */
  lemma {:induction false} SortByStartKeepsTimes(day: seq<Activity>)
    requires TimesValid(day)
    ensures TimesValid(SortByStart(day))
  {
    var s := SortByStart(day);
    forall i | 0 <= i < |s| ensures IsValidTime(s[i].startTime) && IsValidTime(s[i].endTime) {
      assert s[i] in multiset(s);
      assert s[i] in multiset(day);
      var k :| 0 <= k < |day| && day[k] == s[i];
    }
  }

  /** Sorting keeps a conflict-free day conflict-free. */
  lemma SortByStartKeepsNoConflicts(conflict: ConflictTest, day: seq<Activity>)
    requires NoConflicts(conflict, day)
    ensures NoConflicts(conflict, SortByStart(day))
  {
    Sorting.SortPairwise(day, Compatible(conflict), StartLe);
  }

  /** Sorting keeps the ids of a day distinct (it only reorders). */
  lemma {:induction false} SortByStartKeepsUniqueIds(day: seq<Activity>)
    requires UniqueIds(day)
    ensures UniqueIds(SortByStart(day))
  {
    var distinct := (a: Activity, b: Activity) => a.id != b.id;
    assert Sorting.Pairwise(day, distinct);
    Sorting.SortPairwise(day, distinct, StartLe);
    var s := SortByStart(day);
    forall i, j | 0 <= i < |s| && 0 <= j < |s| && i != j ensures s[i].id != s[j].id {
      assert distinct(s[i], s[j]);
    }
  }

  /** Appending an activity whose id is new to the day keeps the ids distinct. */
  lemma UniqueIdsAppend(day: seq<Activity>, a: Activity)
    requires UniqueIds(day)
    requires forall x :: x in day ==> x.id != a.id
    ensures UniqueIds(day + [a])
  {
    var s := day + [a];
    forall i, j | 0 <= i < |s| && 0 <= j < |s| && i != j ensures s[i].id != s[j].id {
      if i == |day| {
        assert s[j] == day[j];
      } else if j == |day| {
        assert s[i] == day[i];
      }
    }
  }

  /** Overwriting position `k` with an activity of the same id keeps the ids distinct. */
  lemma UniqueIdsReplace(day: seq<Activity>, k: nat, m: Activity)
    requires k < |day| && m.id == day[k].id
    requires UniqueIds(day)
    ensures UniqueIds(day[k := m])
  {
    var s := day[k := m];
    forall i, j | 0 <= i < |s| && 0 <= j < |s| && i != j ensures s[i].id != s[j].id {
      assert s[i].id == day[i].id && s[j].id == day[j].id;
    }
  }

  /** Day `d` of `r` once the first `i` days have been sorted. */
  function SortedDayUpTo(r: Routine, d: Day, i: int): seq<Activity> {
    if Index(d) < i then SortByStart(r.Get(d)) else r.Get(d)
  }

  /** The first `i` days of `s` are the sorted days of `r`; the others are still `r`'s. */
  predicate SortedUpTo(s: Routine, r: Routine, i: int) {
    forall d: Day :: s.Get(d) == SortedDayUpTo(r, d, i)
  }

  lemma SortedUpToStep(s: Routine, r: Routine, i: nat)
    requires i < |AllDays| && SortedUpTo(s, r, i)
    ensures SortedUpTo(s.With(AllDays[i], SortByStart(s.Get(AllDays[i]))), r, i + 1)
  {
    var d := AllDays[i];
    assert Index(d) == i;
    var t := s.With(d, SortByStart(s.Get(d)));
    forall e: Day ensures t.Get(e) == SortedDayUpTo(r, e, i + 1) {
      if e == d {
        assert s.Get(d) == SortedDayUpTo(r, d, i) == r.Get(d);
      } else {
        assert AllDays[Index(e)] == e;
        assert t.Get(e) == s.Get(e) == SortedDayUpTo(r, e, i);
        assert SortedDayUpTo(r, e, i) == SortedDayUpTo(r, e, i + 1);
      }
    }
  }

  /**
   * The pre-save hook: for each of the seven days, sort that day's array in
   * place by `startTime` (the schema gives every day an array, so the hook's
   * presence test always passes).
   */
  method PreSave(r: Routine) returns (saved: Routine)
    ensures saved == WithSortedDays(r)
  {
    saved := r;
    var i := 0;
    while i < |AllDays|
      invariant 0 <= i <= |AllDays|
      invariant saved.id == r.id && saved.owner == r.owner && saved.allTimeActivities == r.allTimeActivities
      invariant SortedUpTo(saved, r, i)
    {
      SortedUpToStep(saved, r, i);
      saved := saved.With(AllDays[i], SortByStart(saved.Get(AllDays[i])));
      i := i + 1;
    }
    forall d: Day ensures saved.Get(d) == WithSortedDays(r).Get(d) {
      WithSortedDaysGet(r, d);
    }
    RoutineExtensionality(saved, WithSortedDays(r));
  }
}
