/**
 * Validation of activity input: the "HH:MM" time format, day and category
 * membership, and the required-field check run before an activity is created.
 * The category enumeration is a parameter `known`.
 */
module RoutineService {
  import opened Wrappers
  import opened TimeOfDay
  import opened Activities
  import Days

  const TimeFormatMessage: string := "Time must be in HH:mm format!"
  const RequiredFieldsMessage: string :=
    "All fields (startTime, endTime, activity, category) are required, except color!"
  const InvalidCategoryMessage: string := "Invalid category provided!"

  /** Throws 400 unless `time` matches the 24-hour "HH:MM" pattern. */
  function IsValidTimeFormat(time: string): (r: Result<()>)
    ensures r.Ok? <==> IsValidTime(time)
    ensures r.Err? ==> r.error == Error(BadRequest, TimeFormatMessage)
  {
    if IsValidTime(time) then Ok(()) else Err(Error(BadRequest, TimeFormatMessage))
  }

  /** Membership of a path segment in the day enumeration. */
  function IsValidDay(day: string): (b: bool)
    ensures b <==> exists d: Days.Day :: Days.Name(d) == day
  {
    Days.Parse(day).Some?
  }

  /** Membership of a category name in the category enumeration. */
  function IsValidCategory(category: string, known: set<string>): (b: bool)
    ensures b <==> category in known
  {
    category in known
  }

  /** Checks the format of both times; it does not compare them. */
  function ValidateActivityTimes(input: ActivityInput): (r: Result<()>)
    ensures r.Ok? <==> IsValidTime(input.startTime) && IsValidTime(input.endTime)
    ensures r.Err? ==> r.error == Error(BadRequest, TimeFormatMessage)
  {
    match IsValidTimeFormat(input.startTime)
    case Err(e) => Err(e)
    case Ok(_) => IsValidTimeFormat(input.endTime)
  }

  /** An end time earlier than the start time passes the time validation. */
  lemma ValidateActivityTimesAllowsReversedInterval()
    ensures ValidateActivityTimes(ActivityInput("09:00", "08:00", "Run", "sport", "", None, None)).Ok?
  {
    assert IsValidTime("09:00") && IsValidTime("08:00");
  }

  /**
   * Throws 400 when the body is absent or any of start time, end time, activity
   * name or category is empty; only then checks the category against the enumeration.
   */
  function ValidateActivityFields(input: Option<ActivityInput>, known: set<string>): (r: Result<()>)
    ensures r.Ok? <==>
      && input.Some?
      && input.value.startTime != "" && input.value.endTime != ""
      && input.value.activity != "" && input.value.category != ""
      && input.value.category in known
    ensures r.Err? && (input.None? || input.value.startTime == "" || input.value.endTime == ""
                       || input.value.activity == "" || input.value.category == "")
            ==> r.error == Error(BadRequest, RequiredFieldsMessage)
    ensures r.Err? && input.Some? && input.value.startTime != "" && input.value.endTime != ""
            && input.value.activity != "" && input.value.category != ""
            ==> r.error == Error(BadRequest, InvalidCategoryMessage)
  {
    if input.None? then Err(Error(BadRequest, RequiredFieldsMessage))
    else
      var a := input.value;
      if a.startTime == "" || a.endTime == "" || a.activity == "" || a.category == "" then
        Err(Error(BadRequest, RequiredFieldsMessage))
      else if !IsValidCategory(a.category, known) then
        Err(Error(BadRequest, InvalidCategoryMessage))
      else
        Ok(())
  }
}
