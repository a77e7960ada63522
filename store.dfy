/** The `tasks` table and the `DatabaseConnection` wrapper of src/database.py, as the
    task manager sees them through the SQL statements it sends.

    The table is a map from `task_id` to a row, with the next auto-increment id. Whether a
    statement fails is not something the model decides: the store carries a schedule of
    faults, one consumed per statement (none once the schedule is exhausted).
    A `DriverError` is a `pymysql.Error`, which `execute_query` catches: the statement has
    no effect and the wrapper answers `None`, which `fetch_all` turns into `[]` and
    `fetch_one` into `None`. An `OtherError` is any other exception, which escapes the
    wrapper to the task manager. Every statement that writes is also appended to a log,
    so that the model can say which writes an operation sends. */
module Store {
  import opened Wrappers
  import opened Domain
  import opened Lists
  import opened Text
  import opened Models

  datatype Fault = NoFault | DriverError | OtherError

  /** A row of the `tasks` table apart from its `task_id`. */
  datatype Row = Row(
    owner: int,
    title: string,
    description: string,
    due: Option<Date>,
    priority: string,
    status: string,
    created: Stamp)

  /** A row as a query returns it, with its `task_id`. */
  datatype Record = Record(id: int, row: Row)

  /** The `WHERE` conditions of the statistics queries, besides `user_id = %s`. */
  datatype CountQuery = AllTasks | WithStatus(status: string) | HighPriority | OverdueOn(today: Date)

  /** The statements the task manager sends. */
  datatype Call =
    | SelectOwner(id: int)
    | SelectTask(id: int)
    | SelectOwned(user: int)
    | Insert(row: Row)
    | Update(id: int, user: int, changes: seq<Change>)
    | Delete(id: int, user: int)
    | Count(query: CountQuery, user: int)
    | Search(user: int, keyword: string)

  /** One `SET field = %s` of an `UPDATE`. */
  datatype Change = Change(field: string, value: Value)

  predicate Writes(c: Call) {
    c.Insert? || c.Update? || c.Delete?
  }

  datatype Db = Db(rows: map<int, Row>, nextId: int, faults: seq<Fault>, writes: seq<Call>)

  /** What the wrapper hands back to the task manager: a value, or an exception. */
  datatype Reply<T> = Answer(value: T) | Raise

  datatype Step<T> = Step(reply: Reply<T>, db: Db)

  /** Every stored id was handed out by the auto-increment counter. */
  predicate Valid(db: Db) {
    db.nextId >= 1 && forall id :: id in db.rows ==> 1 <= id < db.nextId
  }

  /** The fault that hits the next statement. */
  function Next(db: Db): Fault {
    if db.faults == [] then NoFault else db.faults[0]
  }

  /** Sending a statement: its fault is used up and, if it writes, it is logged; the
      table is unchanged. */
  function Send(db: Db, c: Call): (d: Db)
    ensures d.rows == db.rows && d.nextId == db.nextId
    ensures d.writes == if Writes(c) then db.writes + [c] else db.writes
    ensures d.faults == if db.faults == [] then [] else db.faults[1..]
  {
    db.(faults := if db.faults == [] then [] else db.faults[1..],
        writes := if Writes(c) then db.writes + [c] else db.writes)
  }

  // ---- reading ----

  /** The rows of `user` with ids from `k` down to 1, highest id first. */
  function Owned(rows: map<int, Row>, user: int, k: int): (rs: seq<Record>)
    ensures forall r :: r in rs <==> r.id in rows && rows[r.id] == r.row && r.row.owner == user && 1 <= r.id <= k
    ensures forall i, j :: 0 <= i < j < |rs| ==> rs[i].id > rs[j].id
    decreases k
  {
    if k < 1 then []
    else
      var rest := Owned(rows, user, k - 1);
      if k in rows && rows[k].owner == user then [Record(k, rows[k])] + rest else rest
  }

  /** `SELECT * FROM tasks WHERE user_id = %s ORDER BY creation_timestamp DESC`, with
      creation order taken to be id order. */
  function OwnedRecords(db: Db, user: int): seq<Record> {
    Owned(db.rows, user, db.nextId - 1)
  }

  /** In a valid store, the owned records are exactly the user's rows. */
  lemma OwnedRecordsComplete(db: Db, user: int)
    requires Valid(db)
    ensures forall r :: r in OwnedRecords(db, user) <==> r.id in db.rows && db.rows[r.id] == r.row && r.row.owner == user
  {
  }

  /** `fetch_one("SELECT user_id FROM tasks WHERE task_id = %s")`: the owner of the task,
      None when there is no such task or on a driver error. */
  function FetchOwner(db: Db, id: int): (s: Step<Option<int>>)
    ensures s.db == Send(db, SelectOwner(id))
    ensures s.reply.Raise? <==> Next(db) == OtherError
    ensures s.reply.Answer? && s.reply.value.Some? <==> Next(db) == NoFault && id in db.rows
    ensures s.reply.Answer? && s.reply.value.Some? ==> s.reply.value.value == db.rows[id].owner
  {
    var d := Send(db, SelectOwner(id));
    match Next(db)
    case OtherError => Step(Raise, d)
    case DriverError => Step(Answer(None), d)
    case NoFault => Step(Answer(if id in db.rows then Some(db.rows[id].owner) else None), d)
  }

  /** `fetch_one("SELECT * FROM tasks WHERE task_id = %s")`: whatever the owner. */
  function FetchTask(db: Db, id: int): (s: Step<Option<Record>>)
    ensures s.db == Send(db, SelectTask(id))
    ensures s.reply.Raise? <==> Next(db) == OtherError
    ensures s.reply.Answer? && s.reply.value.Some? <==> Next(db) == NoFault && id in db.rows
    ensures s.reply.Answer? && s.reply.value.Some? ==> s.reply.value.value == Record(id, db.rows[id])
  {
    var d := Send(db, SelectTask(id));
    match Next(db)
    case OtherError => Step(Raise, d)
    case DriverError => Step(Answer(None), d)
    case NoFault => Step(Answer(if id in db.rows then Some(Record(id, db.rows[id])) else None), d)
  }

  /** `fetch_all` of the user's rows, newest first; `[]` on a driver error. */
  function FetchOwned(db: Db, user: int): (s: Step<seq<Record>>)
    ensures s.db == Send(db, SelectOwned(user))
    ensures s.reply.Raise? <==> Next(db) == OtherError
    ensures Next(db) == DriverError ==> s.reply == Answer([])
    ensures Next(db) == NoFault ==> s.reply == Answer(OwnedRecords(db, user))
  {
    var d := Send(db, SelectOwned(user));
    match Next(db)
    case OtherError => Step(Raise, d)
    case DriverError => Step(Answer([]), d)
    case NoFault => Step(Answer(OwnedRecords(db, user)), d)
  }

  /** The condition of a statistics query on a row. `due_date < CURDATE()` is false for
      a NULL due date. */
  predicate Counts(q: CountQuery, r: Record) {
    match q
    case AllTasks => true
    case WithStatus(s) => r.row.status == s
    case HighPriority => r.row.priority == "High"
    case OverdueOn(today) => r.row.due.Some? && r.row.due.value < today && r.row.status != "Completed"
  }

  /** The query's condition as a filter on rows. */
  function Query(q: CountQuery): Record -> bool {
    (r: Record) => Counts(q, r)
  }

  /** The number of the user's rows a count query matches. */
  function Tally(db: Db, q: CountQuery, user: int): (n: nat)
    ensures n <= |OwnedRecords(db, user)|
  {
    |Filter(OwnedRecords(db, user), Query(q))|
  }

  /** The search condition as a filter on rows. */
  function Matches(keyword: string): Record -> bool {
    (r: Record) => Like(keyword, r)
  }

  /** `fetch_one("SELECT COUNT(*) as count FROM tasks WHERE user_id = %s AND ...")`:
      Some count, or None on a driver error. */
  function CountRows(db: Db, q: CountQuery, user: int): (s: Step<Option<nat>>)
    ensures s.db == Send(db, Count(q, user))
    ensures s.reply.Raise? <==> Next(db) == OtherError
    ensures Next(db) == DriverError ==> s.reply == Answer(None)
    ensures Next(db) == NoFault ==> s.reply == Answer(Some(Tally(db, q, user)))
  {
    var d := Send(db, Count(q, user));
    match Next(db)
    case OtherError => Step(Raise, d)
    case DriverError => Step(Answer(None), d)
    case NoFault => Step(Answer(Some(Tally(db, q, user))), d)
  }

  /** `title LIKE '%keyword%' OR description LIKE '%keyword%'`, read as a case-insensitive
      substring test. */
  predicate Like(keyword: string, r: Record) {
    TextMentions(keyword, r.row.title, r.row.description)
  }

  /** `fetch_all` of the search query: the user's matching rows, newest first; `[]` on a
      driver error. */
  function SearchRows(db: Db, user: int, keyword: string): (s: Step<seq<Record>>)
    ensures s.db == Send(db, Search(user, keyword))
    ensures s.reply.Raise? <==> Next(db) == OtherError
    ensures Next(db) == DriverError ==> s.reply == Answer([])
    ensures Next(db) == NoFault ==> s.reply == Answer(Filter(OwnedRecords(db, user), Matches(keyword)))
  {
    var d := Send(db, Search(user, keyword));
    match Next(db)
    case OtherError => Step(Raise, d)
    case DriverError => Step(Answer([]), d)
    case NoFault => Step(Answer(Filter(OwnedRecords(db, user), Matches(keyword))), d)
  }

  // ---- writing ----

  /** `execute_query(INSERT ...)` then `cursor.lastrowid`: the new row under the next
      auto-increment id, or None (and no row) on a driver error. */
  function InsertRow(db: Db, row: Row): (s: Step<Option<int>>)
    ensures s.reply.Raise? <==> Next(db) == OtherError
    ensures s.db.writes == db.writes + [Insert(row)]
    ensures s.reply.Answer? && s.reply.value.Some? <==> Next(db) == NoFault
    ensures s.reply.Answer? && s.reply.value.Some? ==>
      var id := s.reply.value.value;
      Valid(db) ==> id !in db.rows && s.db.rows == db.rows[id := row] && Valid(s.db)
    ensures !(s.reply.Answer? && s.reply.value.Some?) ==> s.db.rows == db.rows && s.db.nextId == db.nextId
  {
    var d := Send(db, Insert(row));
    match Next(db)
    case OtherError => Step(Raise, d)
    case DriverError => Step(Answer(None), d)
    case NoFault => Step(Answer(Some(db.nextId)), d.(rows := db.rows[db.nextId := row], nextId := db.nextId + 1))
  }

  /** One `field = value` of the `SET` clause on a row. */
  function SetColumn(row: Row, c: Change): Row {
    match c.value
    case Str(s) =>
      if c.field == "title" then row.(title := s)
      else if c.field == "description" then row.(description := s)
      else if c.field == "priority_level" then row.(priority := s)
      else if c.field == "status" then row.(status := s)
      else row
    case Day(d) => if c.field == "due_date" then row.(due := Some(d)) else row
    case Null => if c.field == "due_date" then row.(due := None) else row
    case _ => row
  }

  function SetColumns(row: Row, changes: seq<Change>): (r: Row)
    ensures r.owner == row.owner && r.created == row.created
    decreases |changes|
  {
    if changes == [] then row else SetColumns(SetColumn(row, changes[0]), changes[1..])
  }

  /** `execute_query("UPDATE tasks SET ... WHERE task_id = %s AND user_id = %s")`: true
      (a cursor) even when no row matches, false on a driver error. Only the row with
      that id and owner changes. */
  function UpdateRow(db: Db, id: int, user: int, changes: seq<Change>): (s: Step<bool>)
    ensures s.reply.Raise? <==> Next(db) == OtherError
    ensures s.reply == Answer(true) <==> Next(db) == NoFault
    ensures s.db.writes == db.writes + [Update(id, user, changes)] && s.db.nextId == db.nextId
    ensures s.db.rows.Keys == db.rows.Keys
    ensures forall k :: k in db.rows && (k != id || db.rows[k].owner != user) ==> s.db.rows[k] == db.rows[k]
    ensures s.reply == Answer(true) && id in db.rows && db.rows[id].owner == user ==>
      s.db.rows[id] == SetColumns(db.rows[id], changes)
    ensures s.reply != Answer(true) ==> s.db.rows == db.rows
  {
    var d := Send(db, Update(id, user, changes));
    match Next(db)
    case OtherError => Step(Raise, d)
    case DriverError => Step(Answer(false), d)
    case NoFault =>
      if id in db.rows && db.rows[id].owner == user
      then Step(Answer(true), d.(rows := db.rows[id := SetColumns(db.rows[id], changes)]))
      else Step(Answer(true), d)
  }

  /** `execute_query("DELETE FROM tasks WHERE task_id = %s AND user_id = %s")`. */
  function DeleteRow(db: Db, id: int, user: int): (s: Step<bool>)
    ensures s.reply.Raise? <==> Next(db) == OtherError
    ensures s.reply == Answer(true) <==> Next(db) == NoFault
    ensures s.db.writes == db.writes + [Delete(id, user)] && s.db.nextId == db.nextId
    ensures s.reply == Answer(true) && id in db.rows && db.rows[id].owner == user ==> s.db.rows == db.rows - {id}
    ensures !(s.reply == Answer(true) && id in db.rows && db.rows[id].owner == user) ==> s.db.rows == db.rows
  {
    var d := Send(db, Delete(id, user));
    match Next(db)
    case OtherError => Step(Raise, d)
    case DriverError => Step(Answer(false), d)
    case NoFault =>
      if id in db.rows && db.rows[id].owner == user
      then Step(Answer(true), d.(rows := db.rows - {id}))
      else Step(Answer(true), d)
  }

  // ---- rows as dictionaries ----

  /** A row as the `DictCursor` returns it: every column under its name. */
  function AsDict(r: Record): (d: Dict)
    ensures WellTypedDict(d)
  {
    map["task_id" := Int(r.id),
        "user_id" := Int(r.row.owner),
        "title" := Str(r.row.title),
        "description" := Str(r.row.description),
        "due_date" := DueValue(r.row.due),
        "priority_level" := Str(r.row.priority),
        "status" := Str(r.row.status),
        "creation_timestamp" := Time(r.row.created)]
  }

  /** The task a row describes. */
  function TaskOf(r: Record): Task {
    Task(Some(r.id), r.row.title, r.row.description, r.row.due, r.row.priority, r.row.status, r.row.created)
  }

  /** `Task.from_dict` on a row: the task the row describes exactly when it passes
      validation today. */
  function FromRow(r: Record, today: Date, now: Stamp): (t: Result<Task, Invalid>)
    ensures t.Ok? <==> ValidTask(TaskOf(r), today)
    ensures t.Ok? ==> t.value == TaskOf(r)
  {
    NewTask(today, now, Some(r.id), r.row.title, r.row.description, r.row.due, r.row.priority, r.row.status,
            Some(r.row.created))
  }

  /** `FromRow` is `from_dict` applied to the row's dictionary: every column comes back
      in its field and the owner column is ignored. */
  lemma FromRowIsFromDict(r: Record, today: Date, now: Stamp)
    ensures FromDict(AsDict(r), today, now) == FromRow(r, today, now)
  {
    var d := AsDict(r);
    assert GetStr(d, "title", "") == r.row.title;
    assert GetStr(d, "description", "") == r.row.description;
    assert GetStr(d, "priority_level", "Medium") == r.row.priority;
    assert GetStr(d, "status", "Pending") == r.row.status;
    assert d["task_id"] == Int(r.id) && d["creation_timestamp"] == Time(r.row.created);
    assert (if "due_date" in d && d["due_date"].Day? then Some(d["due_date"].d) else None) == r.row.due;
  }
}
