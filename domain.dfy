/** Vocabulary shared by the validators, the task record and the task manager:
    dates as day ordinals, timestamps, and the two enumerations. */
module Domain {

  /** A calendar date as its day number (Python's `date.toordinal()`); one day later is one more. */
  type Date = int

  /** A creation timestamp. Only equality matters to the core, so it stays an opaque number. */
  type Stamp = int

  /** `Task.VALID_PRIORITIES` and the set `InputValidator.validate_priority` checks against. */
  const Priorities: set<string> := {"Low", "Medium", "High"}

  /** `Task.VALID_STATUSES` and the set `InputValidator.validate_status` checks against. */
  const Statuses: set<string> := {"Pending", "In Progress", "Completed"}

  /** The `strptime` formats `validate_date` tries, in the order it tries them. */
  datatype DateFormat =
    | YearMonthDayDash    // %Y-%m-%d
    | DayMonthYearSlash   // %d/%m/%Y
    | MonthDayYearSlash   // %m/%d/%Y
    | YearMonthDayDot     // %Y.%m.%d

  const DateFormats: seq<DateFormat> :=
    [YearMonthDayDash, DayMonthYearSlash, MonthDayYearSlash, YearMonthDayDot]
}
