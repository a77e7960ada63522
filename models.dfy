/** The `Task` record of src/models.py: its field checks, the constructor that runs
    them all, the property setters that store a value and then re-check that one field,
    and the `to_dict` / `from_dict` pair. A task is a value here; a raised `ValueError`
    is an `Err` (or a failed `Check`). */
module Models {
  import opened Wrappers
  import opened Text
  import opened Domain

  datatype Task = Task(
    id: Option<int>,
    title: string,
    description: string,
    due: Option<Date>,
    priority: string,
    status: string,
    created: Stamp)

  /** Why a task failed validation, one reason per `ValueError` message. */
  datatype Invalid = EmptyTitle | TitleTooLong | TitleCharacters | UnknownPriority | UnknownStatus | PastDueDate

  datatype Check = Pass | Fail(why: Invalid)

  // ---- field checks ----

  /** The character class `[a-zA-Z0-9\s\-\_\.\,]` of the title pattern. */
  predicate TitleChar(c: char) {
    ('a' <= c <= 'z') || ('A' <= c <= 'Z') || ('0' <= c <= '9') || IsSpace(c)
    || c == '-' || c == '_' || c == '.' || c == ','
  }

  /** `re.match(r'^[...]+$', title)`, scanning left to right. */
  predicate MatchesTitlePattern(s: string) {
    s != [] && TitleChar(s[0]) && (|s| == 1 || MatchesTitlePattern(s[1..]))
  }

  lemma {:induction false} TitlePatternIsAll(s: string)
    ensures MatchesTitlePattern(s) <==> s != [] && forall k :: 0 <= k < |s| ==> TitleChar(s[k])
  {
    if |s| > 1 {
      TitlePatternIsAll(s[1..]);
      if forall k :: 0 <= k < |s| ==> TitleChar(s[k]) {
        forall k | 0 <= k < |s| - 1 ensures TitleChar(s[1..][k]) { assert s[1..][k] == s[k + 1]; }
      }
      if MatchesTitlePattern(s) {
        forall k | 0 <= k < |s| ensures TitleChar(s[k]) {
          if k > 0 { assert s[k] == s[1..][k - 1]; }
        }
      }
    }
  }

  ghost predicate ValidTitle(title: string) {
    && Strip(title) != []
    && |Strip(title)| <= 255
    && forall k :: 0 <= k < |title| ==> TitleChar(title[k])
  }

  /** `_validate_title`: not empty once stripped, at most 255 characters once stripped,
      and (unstripped) made only of letters, digits, whitespace and `-_.,`. */
  function CheckTitle(title: string): (c: Check)
    ensures c.Pass? <==> ValidTitle(title)
    ensures Strip(title) == [] ==> c == Fail(EmptyTitle)
    ensures Strip(title) != [] && |Strip(title)| > 255 ==> c == Fail(TitleTooLong)
  {
    TitlePatternIsAll(title);
    if title == [] || Strip(title) == [] then Fail(EmptyTitle)
    else if |Strip(title)| > 255 then Fail(TitleTooLong)
    else if !MatchesTitlePattern(title) then Fail(TitleCharacters)
    else Pass
  }

  /** `_validate_priority`. */
  function CheckPriority(priority: string): (c: Check)
    ensures c.Pass? <==> priority == "Low" || priority == "Medium" || priority == "High"
    ensures c.Fail? ==> c.why == UnknownPriority
  {
    if priority in Priorities then Pass else Fail(UnknownPriority)
  }

  /** `_validate_status`. */
  function CheckStatus(status: string): (c: Check)
    ensures c.Pass? <==> status == "Pending" || status == "In Progress" || status == "Completed"
    ensures c.Fail? ==> c.why == UnknownStatus
  {
    if status in Statuses then Pass else Fail(UnknownStatus)
  }

  /** `_validate_due_date`: a due date, when there is one, is not before `today`. */
  function CheckDue(due: Option<Date>, today: Date): (c: Check)
    ensures c.Pass? <==> due.None? || due.value >= today
    ensures c.Fail? ==> c.why == PastDueDate
  {
    if due.Some? && due.value < today then Fail(PastDueDate) else Pass
  }

  ghost predicate ValidTask(t: Task, today: Date) {
    && ValidTitle(t.title)
    && t.priority in Priorities
    && t.status in Statuses
    && (t.due.None? || t.due.value >= today)
  }

  /** `_validate`: the four checks in the order title, priority, status, due date; the
      first that fails decides the error. */
  function Validate(t: Task, today: Date): (c: Check)
    ensures c.Pass? <==> ValidTask(t, today)
    ensures CheckTitle(t.title).Fail? ==> c == CheckTitle(t.title)
    ensures CheckTitle(t.title).Pass? && CheckPriority(t.priority).Fail? ==> c == CheckPriority(t.priority)
    ensures CheckTitle(t.title).Pass? && CheckPriority(t.priority).Pass? && CheckStatus(t.status).Fail?
            ==> c == CheckStatus(t.status)
    ensures CheckTitle(t.title).Pass? && CheckPriority(t.priority).Pass? && CheckStatus(t.status).Pass?
            ==> c == CheckDue(t.due, today)
  {
    if CheckTitle(t.title).Fail? then CheckTitle(t.title)
    else if CheckPriority(t.priority).Fail? then CheckPriority(t.priority)
    else if CheckStatus(t.status).Fail? then CheckStatus(t.status)
    else CheckDue(t.due, today)
  }

  /** `Task(...)`: the record from its arguments, with the constructor's defaults and
      `datetime.now()` for a missing timestamp, or the first validation error. */
  function NewTask(
    today: Date, now: Stamp,
    id: Option<int> := None,
    title: string := "",
    description: string := "",
    due: Option<Date> := None,
    priority: string := "Medium",
    status: string := "Pending",
    created: Option<Stamp> := None): (r: Result<Task, Invalid>)
    ensures var t := Task(id, title, description, due, priority, status, if created.Some? then created.value else now);
      && (r.Ok? <==> ValidTask(t, today))
      && (r.Ok? ==> r.value == t)
      && (r.Err? ==> Validate(t, today) == Fail(r.error))
  {
    var t := Task(id, title, description, due, priority, status, if created.Some? then created.value else now);
    match Validate(t, today)
    case Pass => Ok(t)
    case Fail(why) => Err(why)
  }

  // ---- property setters ----

  /** A setter's effect: the record after the assignment, and the check run after it. */
  datatype Assigned = Assigned(task: Task, check: Check)

  function SetTitle(t: Task, value: string): Assigned {
    Assigned(t.(title := value), CheckTitle(value))
  }

  /** The description setter stores the value and checks nothing. */
  function SetDescription(t: Task, value: string): Assigned {
    Assigned(t.(description := value), Pass)
  }

  function SetDue(t: Task, value: Option<Date>, today: Date): Assigned {
    Assigned(t.(due := value), CheckDue(value, today))
  }

  function SetPriority(t: Task, value: string): Assigned {
    Assigned(t.(priority := value), CheckPriority(value))
  }

  function SetStatus(t: Task, value: string): Assigned {
    Assigned(t.(status := value), CheckStatus(value))
  }

  /** Every setter stores its value first, so even a rejected value stays in the field. */
  lemma SettersStoreFirst(t: Task, s: string, d: Option<Date>, today: Date)
    ensures SetTitle(t, s).task.title == s && SetDescription(t, s).task.description == s
    ensures SetDue(t, d, today).task.due == d
    ensures SetPriority(t, s).task.priority == s && SetStatus(t, s).task.status == s
  {
  }

  /** A setter whose check passes keeps a valid task valid (it re-checks only its own
      field, which is all that changed); the description setter always passes. */
  lemma SettersPreserveValidity(t: Task, s: string, d: Option<Date>, today: Date)
    requires ValidTask(t, today)
    ensures SetTitle(t, s).check.Pass? ==> ValidTask(SetTitle(t, s).task, today)
    ensures SetDescription(t, s).check.Pass? && ValidTask(SetDescription(t, s).task, today)
    ensures SetDue(t, d, today).check.Pass? ==> ValidTask(SetDue(t, d, today).task, today)
    ensures SetPriority(t, s).check.Pass? ==> ValidTask(SetPriority(t, s).task, today)
    ensures SetStatus(t, s).check.Pass? ==> ValidTask(SetStatus(t, s).task, today)
  {
  }

  // ---- dictionaries ----

  /** The Python values that travel in a task dictionary or an update: `None`, an `int`,
      a `str`, a `date` and a `datetime`. */
  datatype Value = Null | Int(i: int) | Str(s: string) | Day(d: Date) | Time(t: Stamp)

  type Dict = map<string, Value>

  /** The keys a task dictionary carries. */
  const TaskKeys: set<string> :=
    {"task_id", "title", "description", "due_date", "priority_level", "status", "creation_timestamp"}

  /** Each key that `from_dict` reads, when present, holds a value of that field's type. */
  predicate WellTypedDict(d: Dict) {
    && ("task_id" in d ==> d["task_id"].Null? || d["task_id"].Int?)
    && ("title" in d ==> d["title"].Str?)
    && ("description" in d ==> d["description"].Str?)
    && ("due_date" in d ==> d["due_date"].Null? || d["due_date"].Day?)
    && ("priority_level" in d ==> d["priority_level"].Str?)
    && ("status" in d ==> d["status"].Str?)
    && ("creation_timestamp" in d ==> d["creation_timestamp"].Null? || d["creation_timestamp"].Time?)
  }

  function IdValue(id: Option<int>): Value {
    if id.Some? then Int(id.value) else Null
  }

  function DueValue(due: Option<Date>): Value {
    if due.Some? then Day(due.value) else Null
  }

  /** `to_dict`: the seven fields under their column names. */
  function ToDict(t: Task): (d: Dict)
    ensures d.Keys == TaskKeys && WellTypedDict(d)
  {
    map["task_id" := IdValue(t.id),
        "title" := Str(t.title),
        "description" := Str(t.description),
        "due_date" := DueValue(t.due),
        "priority_level" := Str(t.priority),
        "status" := Str(t.status),
        "creation_timestamp" := Time(t.created)]
  }

  /** `dict.get(key, default)` for a string-valued key. */
  function GetStr(d: Dict, key: string, default: string): string
    requires key in d ==> d[key].Str?
  {
    if key in d then d[key].s else default
  }

  /** `from_dict`: `Task(...)` applied to the dictionary's values, with the same defaults
      as the constructor for missing keys (an empty title among them); keys it does not
      know, such as `user_id`, are ignored. */
  function FromDict(d: Dict, today: Date, now: Stamp): (r: Result<Task, Invalid>)
    requires WellTypedDict(d)
    ensures r.Ok? ==> ValidTask(r.value, today)
    ensures r.Ok? ==> r.value.title == GetStr(d, "title", "") && r.value.status == GetStr(d, "status", "Pending")
    ensures r.Ok? ==> r.value.priority == GetStr(d, "priority_level", "Medium")
  {
    NewTask(today, now,
      id := if "task_id" in d && d["task_id"].Int? then Some(d["task_id"].i) else None,
      title := GetStr(d, "title", ""),
      description := GetStr(d, "description", ""),
      due := if "due_date" in d && d["due_date"].Day? then Some(d["due_date"].d) else None,
      priority := GetStr(d, "priority_level", "Medium"),
      status := GetStr(d, "status", "Pending"),
      created := if "creation_timestamp" in d && d["creation_timestamp"].Time? then Some(d["creation_timestamp"].t) else None)
  }

  /** `to_dict` stores every field where `from_dict` looks for it. */
  lemma ToDictFields(t: Task)
    ensures var d := ToDict(t);
      && GetStr(d, "title", "") == t.title && GetStr(d, "description", "") == t.description
      && GetStr(d, "priority_level", "Medium") == t.priority && GetStr(d, "status", "Pending") == t.status
      && d["task_id"] == IdValue(t.id) && d["due_date"] == DueValue(t.due)
      && d["creation_timestamp"] == Time(t.created)
  {
  }

  /** `from_dict(to_dict(t))` gives back every field of a valid `t`, its id and timestamp included. */
  lemma DictRoundTrip(t: Task, today: Date, now: Stamp)
    requires ValidTask(t, today)
    ensures FromDict(ToDict(t), today, now) == Ok(t)
  {
    ToDictFields(t);
    var d := ToDict(t);
    assert FromDict(d, today, now) == NewTask(today, now, t.id, t.title, t.description, t.due, t.priority, t.status, Some(t.created));
  }

  /** A dictionary without a title never makes a task: the default title is empty. */
  lemma FromDictNeedsTitle(d: Dict, today: Date, now: Stamp)
    requires WellTypedDict(d) && "title" !in d
    ensures FromDict(d, today, now) == Err(EmptyTitle)
  {
  }

  /** The constructor's defaults: status Pending, priority Medium, empty description, no
      due date, no id, and the current time as the timestamp. */
  lemma ConstructorDefaults(title: string, today: Date, now: Stamp)
    requires ValidTitle(title)
    ensures NewTask(today, now, title := title) == Ok(Task(None, title, "", None, "Medium", "Pending", now))
  {
  }

  // ---- keyword search ----

  /** `keyword.lower() in title.lower() or keyword.lower() in description.lower()`. */
  predicate TextMentions(keyword: string, title: string, description: string) {
    Contains(Lower(keyword), Lower(title)) || Contains(Lower(keyword), Lower(description))
  }

  predicate Mentions(t: Task, keyword: string) {
    TextMentions(keyword, t.title, t.description)
  }
}
