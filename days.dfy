/** The seven weekday buckets of a routine and their names as used in paths and documents. */
module Days {
  import opened Wrappers

  datatype Day = Monday | Tuesday | Wednesday | Thursday | Friday | Saturday | Sunday

  /** The days in the order of the week, Monday first (the order the day statistics use). */
  const AllDays: seq<Day> := [Monday, Tuesday, Wednesday, Thursday, Friday, Saturday, Sunday]

  function Name(d: Day): string {
    match d
    case Monday => "monday"
    case Tuesday => "tuesday"
    case Wednesday => "wednesday"
    case Thursday => "thursday"
    case Friday => "friday"
    case Saturday => "saturday"
    case Sunday => "sunday"
  }

  /** Position of a day in the Monday-first week. */
  function Index(d: Day): (i: nat)
    ensures i < 7 && AllDays[i] == d
  {
    match d
    case Monday => 0
    case Tuesday => 1
    case Wednesday => 2
    case Thursday => 3
    case Friday => 4
    case Saturday => 5
    case Sunday => 6
  }

  /** `AllDays` lists every day at its own position. */
  lemma AllDaysIndexed()
    ensures forall i :: 0 <= i < |AllDays| ==> Index(AllDays[i]) == i
  {
    forall i | 0 <= i < |AllDays| ensures Index(AllDays[i]) == i {
      if i == 0 { assert AllDays[0] == Monday; }
      else if i == 1 { assert AllDays[1] == Tuesday; }
      else if i == 2 { assert AllDays[2] == Wednesday; }
      else if i == 3 { assert AllDays[3] == Thursday; }
      else if i == 4 { assert AllDays[4] == Friday; }
      else if i == 5 { assert AllDays[5] == Saturday; }
      else { assert AllDays[6] == Sunday; }
    }
  }

  /** The day whose name is `s`, if any: the membership test of the day enumeration. */
  function Parse(s: string): (r: Option<Day>)
    ensures r.Some? ==> Name(r.value) == s
    ensures r.None? ==> forall d: Day :: Name(d) != s
  {
    if s == "monday" then Some(Monday)
    else if s == "tuesday" then Some(Tuesday)
    else if s == "wednesday" then Some(Wednesday)
    else if s == "thursday" then Some(Thursday)
    else if s == "friday" then Some(Friday)
    else if s == "saturday" then Some(Saturday)
    else if s == "sunday" then Some(Sunday)
    else None
  }

  lemma ParseName(d: Day)
    ensures Parse(Name(d)) == Some(d)
  {
  }
}
