/**
  The `AvailableDate` query-parameter type (app/models/available_date.py):
  a date that is today or earlier. The value first passes the ordinary
  date parsing; `Validate` is the check run after it. Its "Expected a
  date" branch guards direct calls: behind the parser it is not reached.
*/
module AvailableDate {
  import opened Common
  import opened Dates

  /** What reaches the validator: a date, or some other object. */
  datatype Input = ADate(day: Day) | NotADate

  datatype Error =
    | TypeError(message: string)
    | NotInPastOrToday(message: string)

  const ExpectedDate: string := "Expected a date"
  const MustBePastOrToday: string := "Date must be in the past or today"

  /** `AvailableDate.validate(value)` with `date.today()` passed in. */
  function Validate(value: Input, today: Day): (r: Result<Day, Error>)
    ensures value.NotADate? ==> r == Err(TypeError(ExpectedDate))
    ensures value.ADate? && value.day > today ==> r == Err(NotInPastOrToday(MustBePastOrToday))
    ensures value.ADate? && value.day <= today ==> r == Ok(value.day)
  {
    match value
    case NotADate => Err(TypeError(ExpectedDate))
    case ADate(d) => if d > today then Err(NotInPastOrToday(MustBePastOrToday)) else Ok(d)
  }

  /** A date is accepted exactly when it is not later than today. */
  lemma AcceptedIffNotAfterToday(d: Day, today: Day)
    ensures Validate(ADate(d), today).Ok? <==> d <= today
  {
  }

  /** Validating an accepted value again accepts it again, unchanged. */
  lemma ValidateIdempotent(value: Input, today: Day)
    requires Validate(value, today).Ok?
    ensures Validate(ADate(Validate(value, today).value), today) == Validate(value, today)
  {
  }
}
