/** `InputValidator` and `DateUtils` of src/utils.py: pure checks of user input.
    An exception raised by a validator is an `Err` here; the library's date parser
    and formatter, and the clock, are parameters. */
module Utils {
  import opened Wrappers
  import opened Text
  import opened Domain

  /** The reasons a validator raises `ValueError`; string validation names the field
      the way the messages do. */
  datatype InputError =
    | EmptyValue(field: string)
    | TooLong(field: string, limit: int)
    | InvalidCharacters(field: string)
    | UnknownPriority
    | UnknownStatus
    | NotATaskId
    | NotADate

  /** The characters `validate_string`'s basic sanitisation refuses. */
  predicate Unsafe(c: char) {
    c == '<' || c == '>' || c == '{' || c == '}'
  }

  /** `re.search(r'[<>{}]', s)`, scanning left to right. */
  predicate HasUnsafe(s: string) {
    s != [] && (Unsafe(s[0]) || HasUnsafe(s[1..]))
  }

  lemma {:induction false} HasUnsafeIsSome(s: string)
    ensures HasUnsafe(s) <==> exists k :: 0 <= k < |s| && Unsafe(s[k])
  {
    if s != [] {
      HasUnsafeIsSome(s[1..]);
      if exists k :: 0 <= k < |s| && Unsafe(s[k]) {
        var k :| 0 <= k < |s| && Unsafe(s[k]);
        if k > 0 { assert s[1..][k - 1] == s[k]; }
      }
      if HasUnsafe(s[1..]) {
        var k :| 0 <= k < |s| - 1 && Unsafe(s[1..][k]);
        assert s[k + 1] == s[1..][k];
      }
    }
  }

  /** `InputValidator.validate_string`: the stripped value when it is non-empty, at
      most `maxLength` long and free of `<`, `>`, `{`, `}`; the checks run in that order. */
  function ValidateString(value: string, fieldName: string, maxLength: int := 255): (r: Result<string, InputError>)
    ensures r.Ok? <==>
      && Strip(value) != []
      && |Strip(value)| <= maxLength
      && forall k :: 0 <= k < |Strip(value)| ==> !Unsafe(Strip(value)[k])
    ensures r.Ok? ==> r.value == Strip(value) && |r.value| <= maxLength
    ensures Strip(value) == [] ==> r == Err(EmptyValue(fieldName))
    ensures Strip(value) != [] && |Strip(value)| > maxLength ==> r == Err(TooLong(fieldName, maxLength))
    ensures Strip(value) != [] && |Strip(value)| <= maxLength && (exists k :: 0 <= k < |Strip(value)| && Unsafe(Strip(value)[k]))
            ==> r == Err(InvalidCharacters(fieldName))
  {
    var v := Strip(value);
    HasUnsafeIsSome(v);
    if value == [] || v == [] then Err(EmptyValue(fieldName))
    else if |v| > maxLength then Err(TooLong(fieldName, maxLength))
    else if HasUnsafe(v) then Err(InvalidCharacters(fieldName))
    else Ok(v)
  }

  /** Validating an already validated string gives it back unchanged. */
  lemma ValidateStringIdempotent(value: string, fieldName: string, maxLength: int)
    requires ValidateString(value, fieldName, maxLength).Ok?
    ensures ValidateString(ValidateString(value, fieldName, maxLength).value, fieldName, maxLength)
         == ValidateString(value, fieldName, maxLength)
  {
    StripIdempotent(value);
  }

  /** `InputValidator.validate_priority`: the argument itself, exactly for the three priorities. */
  function ValidatePriority(priority: string): (r: Result<string, InputError>)
    ensures r.Ok? <==> priority == "Low" || priority == "Medium" || priority == "High"
    ensures r.Ok? ==> r.value == priority
    ensures r.Err? ==> r.error == UnknownPriority
  {
    if priority in Priorities then Ok(priority) else Err(UnknownPriority)
  }

  /** `InputValidator.validate_status`: the argument itself, exactly for the three statuses. */
  function ValidateStatus(status: string): (r: Result<string, InputError>)
    ensures r.Ok? <==> status == "Pending" || status == "In Progress" || status == "Completed"
    ensures r.Ok? ==> r.value == status
    ensures r.Err? ==> r.error == UnknownStatus
  {
    if status in Statuses then Ok(status) else Err(UnknownStatus)
  }

  /** `InputValidator.validate_task_id` over plain decimal digits: a positive integer, or
      an error for the empty string, anything that is not digits, and zero. */
  function ValidateTaskId(taskId: string): (r: Result<int, InputError>)
    ensures r.Ok? <==> IsDigits(taskId) && DecimalValue(taskId) > 0
    ensures r.Ok? ==> r.value == DecimalValue(taskId) && r.value > 0
    ensures r.Err? ==> r.error == NotATaskId
  {
    if IsDigits(taskId) && DecimalValue(taskId) > 0 then Ok(DecimalValue(taskId)) else Err(NotATaskId)
  }

  /** Every positive id, written in decimal, is accepted as itself. */
  lemma TaskIdRoundTrip(n: nat)
    requires n > 0
    ensures ValidateTaskId(Decimal(n)) == Ok(n)
  {
    DecimalRoundTrip(n);
  }

  /** `strptime(s, fmt).date()`: the date, or None when `s` does not parse in `fmt`. */
  type DateParser = (DateFormat, string) -> Option<Date>

  predicate Usable(parsed: Option<Date>, today: Date) {
    parsed.Some? && parsed.value >= today
  }

  /** The loop of `validate_date`: the index of the first format in which `s` parses to a
      date that is not in the past, or `|formats|`. A past date raises inside the inner
      `try`, whose `except ValueError: continue` moves on to the next format. */
  function FirstUsable(formats: seq<DateFormat>, s: string, today: Date, parse: DateParser): (k: nat)
    ensures k <= |formats|
    ensures forall j :: 0 <= j < k ==> !Usable(parse(formats[j], s), today)
    ensures k < |formats| ==> Usable(parse(formats[k], s), today)
  {
    if formats == [] then 0
    else if Usable(parse(formats[0], s), today) then 0
    else 1 + FirstUsable(formats[1..], s, today, parse)
  }

  /** `InputValidator.validate_date`: None for the empty string; otherwise the date read
      in the first format that yields a date on or after `today`; an error when no
      format does. */
  function ValidateDate(s: string, today: Date, parse: DateParser): (r: Result<Option<Date>, InputError>)
    ensures s == [] ==> r == Ok(None)
    ensures r.Ok? && r.value.Some? ==> r.value.value >= today
    ensures r.Err? <==> s != [] && forall j :: 0 <= j < |DateFormats| ==> !Usable(parse(DateFormats[j], s), today)
    ensures r.Err? ==> r.error == NotADate
    ensures s != [] && r.Ok? ==>
      && FirstUsable(DateFormats, s, today, parse) < |DateFormats|
      && r.value == parse(DateFormats[FirstUsable(DateFormats, s, today, parse)], s)
      && r.value.Some?
  {
    if s == [] then Ok(None)
    else
      var k := FirstUsable(DateFormats, s, today, parse);
      if k < |DateFormats| then Ok(parse(DateFormats[k], s)) else Err(NotADate)
  }

  /** A future date written with the library's `%Y-%m-%d` formatter reads back as itself,
      whenever the library's parser inverts its formatter on that format. */
  lemma ValidateFormattedDate(d: Date, today: Date, parse: DateParser, strftime: Date -> string)
    requires d >= today
    requires strftime(d) != []
    requires parse(YearMonthDayDash, strftime(d)) == Some(d)
    ensures ValidateDate(FormatDate(Some(d), strftime), today, parse) == Ok(Some(d))
  {
  }

  /** `DateUtils.format_date`: "Not set" for a missing date, the formatted date otherwise. */
  function FormatDate(d: Option<Date>, strftime: Date -> string): (r: string)
    ensures d.None? ==> r == "Not set"
    ensures d.Some? ==> r == strftime(d.value)
  {
    if d.None? then "Not set" else strftime(d.value)
  }

  /** `DateUtils.days_until_due`: no answer without a due date, otherwise the number of
      days from `today` to it, negative exactly when the date is past. */
  function DaysUntilDue(due: Option<Date>, today: Date): (r: Option<int>)
    ensures r.None? <==> due.None?
    ensures r.Some? ==> today + r.value == due.value
    ensures r.Some? ==> (r.value < 0 <==> due.value < today)
  {
    if due.None? then None else Some(due.value - today)
  }
}
