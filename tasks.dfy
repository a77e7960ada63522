/** `TaskManager` of src/task_manager.py: an in-memory cache of the signed-in user's
    tasks in front of the store.

    Each operation is first defined as a function from the cache, the store and the
    session (the user id `AuthenticationManager` reports, None when signed out) to an
    `Outcome`: what the Python method returns, the cache after it and the store after it.
    The class `TaskManager` below holds the cache and the store in fields, and each of
    its methods is proved to change them exactly as its function says. The clock is a
    parameter: `today` for `date.today()` and `CURDATE()`, `now` for `datetime.now()`. */
module Tasks {
  import opened Wrappers
  import opened Domain
  import opened Lists
  import opened Text
  import opened Models
  import opened Views
  import opened Store

  datatype Outcome<T> = Outcome(value: T, cache: seq<Task>, db: Db)

  /** What `get_task` returns: the task object at a position of the cache, None, or an
      exception that `get_task` lets through. */
  datatype Lookup = Found(slot: nat) | Missing | Raised

  // ---- shared steps ----

  /** `_verify_task_ownership`: does the store say `user` owns `id`? Any failure of
      the query, raised or swallowed, counts as no. */
  function Verify(db: Db, id: int, user: int): (r: (bool, Db))
    ensures r.0 <==> Next(db) == NoFault && id in db.rows && db.rows[id].owner == user
    ensures r.1 == Send(db, SelectOwner(id))
  {
    var s := FetchOwner(db, id);
    (s.reply == Answer(Some(user)), s.db)
  }

  /** How a row becomes a task: `Task.from_dict` on the row's dictionary, or a test
      double of it. Only the fact that it gives back the task the row describes, when it
      gives one, matters to the conversion lemmas. */
  type Reader = Record -> Result<Task, Invalid>

  ghost predicate Faithful(read: Reader) {
    forall r :: read(r).Ok? ==> read(r).value == TaskOf(r)
  }

  /** `Task.from_dict` on a row, as of `today` and `now`. */
  function ReadRow(today: Date, now: Stamp): (read: Reader)
    ensures Faithful(read)
  {
    (r: Record) => FromRow(r, today, now)
  }

  /** The reader accepts exactly the rows that describe a valid task. */
  lemma ReadRowAccepts(today: Date, now: Stamp, r: Record)
    ensures ReadRow(today, now)(r).Ok? <==> ValidTask(TaskOf(r), today)
  {
  }

  /** The conversion loop over the rows in order, stopping at the first that raises:
      the tasks made so far, and whether every row made one. */
  function Convert(rs: seq<Record>, read: Reader): (r: (seq<Task>, bool))
    ensures |r.0| <= |rs|
    ensures r.1 <==> |r.0| == |rs|
  {
    if rs == [] then ([], true)
    else match read(rs[0])
      case Err(_) => ([], false)
      case Ok(t) => var rest := Convert(rs[1..], read); ([t] + rest.0, rest.1)
  }

  /** What `Convert` keeps: one task per row, in order, each what the reader made of its
      row, up to the first row the reader rejects. */
  lemma {:induction false} ConvertMeans(rs: seq<Record>, read: Reader)
    ensures var r := Convert(rs, read);
      && (forall k :: 0 <= k < |r.0| ==> read(rs[k]) == Ok(r.0[k]))
      && (|r.0| < |rs| ==> read(rs[|r.0|]).Err?)
  {
    if rs != [] && read(rs[0]).Ok? {
      ConvertMeans(rs[1..], read);
      var r := Convert(rs, read);
      var rest := Convert(rs[1..], read);
      assert r.0 == [read(rs[0]).value] + rest.0;
      forall k | 0 <= k < |r.0| ensures read(rs[k]) == Ok(r.0[k]) {
        if k > 0 { assert rs[k] == rs[1..][k - 1]; }
      }
      if |r.0| < |rs| { assert rs[|r.0|] == rs[1..][|rest.0|]; }
    }
  }

  /** A list of tasks that is the converted prefix and stops at the first rejected row
      is the one `Convert` gives: a loop that converts row by row computes `Convert`. */
  lemma ConvertUnique(rs: seq<Record>, ts: seq<Task>, read: Reader)
    requires |ts| <= |rs|
    requires forall k :: 0 <= k < |ts| ==> read(rs[k]) == Ok(ts[k])
    requires |ts| < |rs| ==> read(rs[|ts|]).Err?
    ensures Convert(rs, read) == (ts, |ts| == |rs|)
  {
    ConvertMeans(rs, read);
    var c := Convert(rs, read).0;
    assert |c| == |ts|;
    forall k | 0 <= k < |ts| ensures c[k] == ts[k] {
      assert read(rs[k]) == Ok(c[k]);
    }
    assert c == ts;
  }

  /** A faithful reader that accepts every row makes the tasks the rows describe. */
  lemma {:induction false} ConvertAll(rs: seq<Record>, read: Reader)
    requires Faithful(read) && Convert(rs, read).1
    ensures forall k :: 0 <= k < |rs| ==> Convert(rs, read).0[k] == TaskOf(rs[k])
  {
    ConvertMeans(rs, read);
  }

  /** Converting all rows and then filtering the tasks is filtering the rows and then
      converting them, when the two conditions agree on every row. */
  lemma {:induction false} ConvertFilter(rs: seq<Record>, read: Reader, p: Record -> bool, q: Task -> bool)
    requires Faithful(read) && Convert(rs, read).1
    requires forall r :: p(r) == q(TaskOf(r))
    ensures Convert(Filter(rs, p), read) == (Filter(Convert(rs, read).0, q), true)
  {
    if rs != [] {
      var t := read(rs[0]).value;
      assert t == TaskOf(rs[0]);
      var ts := Convert(rs, read).0;
      assert ts == [t] + Convert(rs[1..], read).0;
      ConvertFilter(rs[1..], read, p, q);
      if p(rs[0]) {
        assert Filter(rs, p) == [rs[0]] + Filter(rs[1..], p);
        assert Filter(rs, p)[1..] == Filter(rs[1..], p);
        assert Filter(ts, q) == [t] + Filter(ts[1..], q);
      } else {
        assert Filter(rs, p) == Filter(rs[1..], p);
        assert Filter(ts, q) == Filter(ts[1..], q);
      }
    }
  }

  /** The first cached task with this id, or `|cache|`. */
  function FirstWithId(cache: seq<Task>, id: int): (k: nat)
    ensures k <= |cache|
    ensures forall j :: 0 <= j < k ==> cache[j].id != Some(id)
    ensures k < |cache| ==> cache[k].id == Some(id)
  {
    if cache == [] then 0 else if cache[0].id == Some(id) then 0 else 1 + FirstWithId(cache[1..], id)
  }

  /** A task with the id and none before it: the scan stops there. */
  lemma FirstWithIdAt(cache: seq<Task>, k: nat, id: int)
    requires k < |cache| && cache[k].id == Some(id)
    requires forall j :: 0 <= j < k ==> cache[j].id != Some(id)
    ensures FirstWithId(cache, id) == k
  {
  }

  /** The comprehension of `delete_task`: the cache without any task of this id. */
  function Without(cache: seq<Task>, id: int): (r: seq<Task>)
    ensures forall t :: t in r <==> t in cache && t.id != Some(id)
  {
    Filter(cache, (t: Task) => t.id != Some(id))
  }

  // ---- _load_tasks ----

  /** `_load_tasks`: signed out, the cache is emptied. Otherwise the user's rows are
      fetched; if that raises, the cache is left as it was (the exception comes before
      `clear()`); else the cache is emptied and refilled row by row, and a row that does
      not make a valid task ends the loop with the tasks so far kept. */
  function LoadSpec(cache: seq<Task>, db: Db, session: Option<int>, today: Date, now: Stamp): (o: Outcome<()>)
    ensures session.None? ==> o.cache == [] && o.db == db
    ensures o.db.rows == db.rows && o.db.nextId == db.nextId && o.db.writes == db.writes
  {
    if session.None? then Outcome((), [], db)
    else
      var s := FetchOwned(db, session.value);
      match s.reply
      case Raise => Outcome((), cache, s.db)
      case Answer(rs) => Outcome((), Convert(rs, ReadRow(today, now)).0, s.db)
  }

  /** The cache holds the user's rows as valid tasks, all of them, newest first. */
  predicate Fresh(cache: seq<Task>, db: Db, user: int, today: Date, now: Stamp) {
    Convert(OwnedRecords(db, user), ReadRow(today, now)) == (cache, true)
  }

  /** What a load leaves in the cache: on success, the longest prefix of the user's rows
      that convert, each as the task it describes; nothing after a swallowed error; the
      old cache after an escaping one. */
  lemma LoadKeepsConvertedPrefix(cache: seq<Task>, db: Db, user: int, today: Date, now: Stamp)
    ensures var o := LoadSpec(cache, db, Some(user), today, now);
      var rs := OwnedRecords(db, user);
      && (Next(db) == NoFault ==>
            && |o.cache| <= |rs|
            && (forall k :: 0 <= k < |o.cache| ==> o.cache[k] == TaskOf(rs[k]))
            && (|o.cache| < |rs| ==> !ValidTask(TaskOf(rs[|o.cache|]), today)))
      && (Next(db) == DriverError ==> o.cache == [])
      && (Next(db) == OtherError ==> o.cache == cache)
  {
    var rs := OwnedRecords(db, user);
    var read := ReadRow(today, now);
    ConvertMeans(rs, read);
    var c := Convert(rs, read).0;
    if |c| < |rs| { ReadRowAccepts(today, now, rs[|c|]); }
  }

  /** After a load every cached task is a valid task that the store holds for this user,
      unless the fetch raised and the old cache stayed. */
  lemma LoadCachesOnlyOwnedTasks(cache: seq<Task>, db: Db, user: int, today: Date, now: Stamp)
    requires Valid(db) && Next(db) != OtherError
    ensures var o := LoadSpec(cache, db, Some(user), today, now);
      forall t :: t in o.cache ==>
        && t.id.Some? && t.id.value in db.rows && db.rows[t.id.value].owner == user
        && t == TaskOf(Record(t.id.value, db.rows[t.id.value])) && ValidTask(t, today)
  {
    var o := LoadSpec(cache, db, Some(user), today, now);
    var rs := OwnedRecords(db, user);
    OwnedRecordsComplete(db, user);
    ConvertMeans(rs, ReadRow(today, now));
    forall t | t in o.cache
      ensures t.id.Some? && t.id.value in db.rows && db.rows[t.id.value].owner == user
      ensures t == TaskOf(Record(t.id.value, db.rows[t.id.value])) && ValidTask(t, today)
    {
      var k :| 0 <= k < |o.cache| && o.cache[k] == t;
      assert rs[k] in rs;
      ReadRowAccepts(today, now, rs[k]);
    }
  }

  /** A load in which every one of the user's rows makes a valid task leaves a fresh cache. */
  lemma LoadIsFresh(cache: seq<Task>, db: Db, user: int, today: Date, now: Stamp)
    requires Next(db) == NoFault && Convert(OwnedRecords(db, user), ReadRow(today, now)).1
    ensures var o := LoadSpec(cache, db, Some(user), today, now);
      Fresh(o.cache, o.db, user, today, now)
  {
  }

  // ---- get_task ----

  /** `get_task`: the first cached task with the id, if the store confirms the user owns
      it; otherwise, if the store confirms, the row fetched by id, converted and appended
      to the cache. A conversion failure or an escaping store error is `Raised`. */
  function GetSpec(cache: seq<Task>, db: Db, session: Option<int>, id: int, today: Date, now: Stamp): (o: Outcome<Lookup>)
    ensures session.None? ==> o == Outcome(Missing, cache, db)
    ensures o.db.rows == db.rows && o.db.nextId == db.nextId && o.db.writes == db.writes
    ensures o.db.faults == [] <== db.faults == []
    ensures |cache| <= |o.cache| <= |cache| + 1 && o.cache[..|cache|] == cache
    ensures o.value.Found? ==>
      && session.Some? && id in db.rows && db.rows[id].owner == session.value
      && o.value.slot < |o.cache| && o.cache[o.value.slot].id == Some(id)
    ensures |o.cache| > |cache| ==> o.value == Found(|cache|) && o.cache[|cache|] == TaskOf(Record(id, db.rows[id]))
    ensures FirstWithId(cache, id) < |cache| && o.value.Found? ==> o.value.slot == FirstWithId(cache, id)
    ensures session.Some? && Next(db) == NoFault && id in db.rows && db.rows[id].owner == session.value
            && FirstWithId(cache, id) < |cache|
            ==> o.value == Found(FirstWithId(cache, id)) && o.cache == cache
    ensures session.Some? && Next(db) == NoFault && id in db.rows && db.rows[id].owner == session.value
            && FirstWithId(cache, id) == |cache| && Next(Send(db, SelectOwner(id))) == NoFault
            ==> if ValidTask(TaskOf(Record(id, db.rows[id])), today)
                then o.value == Found(|cache|) && o.cache == cache + [TaskOf(Record(id, db.rows[id]))]
                else o.value == Raised && o.cache == cache
  {
    if session.None? then Outcome(Missing, cache, db)
    else
      var k := FirstWithId(cache, id);
      var v := Verify(db, id, session.value);
      if k < |cache| then Outcome(if v.0 then Found(k) else Missing, cache, v.1)
      else if !v.0 then Outcome(Missing, cache, v.1)
      else
        var f := FetchTask(v.1, id);
        match f.reply
        case Raise => Outcome(Raised, cache, f.db)
        case Answer(None) => Outcome(Missing, cache, f.db)
        case Answer(Some(rec)) =>
          match FromRow(rec, today, now)
          case Err(_) => Outcome(Raised, cache, f.db)
          case Ok(t) => Outcome(Found(|cache|), cache + [t], f.db)
  }

  /** The task `get_task` hands to `update_task`: the first cached task with the id, or
      the task its row describes. */
  function Looked(cache: seq<Task>, db: Db, id: int): (t: Task)
    requires id in db.rows
    ensures t.id == Some(id)
  {
    var k := FirstWithId(cache, id);
    if k < |cache| then cache[k] else TaskOf(Record(id, db.rows[id]))
  }

  /** The cache after `get_task` found the task: with its row's task appended on a miss. */
  function Fetched(cache: seq<Task>, db: Db, id: int): (c: seq<Task>)
    requires id in db.rows
    ensures FirstWithId(cache, id) < |c| && c[FirstWithId(cache, id)] == Looked(cache, db, id)
    ensures |cache| <= |c| && c[..|cache|] == cache
  {
    if FirstWithId(cache, id) < |cache| then cache else cache + [TaskOf(Record(id, db.rows[id]))]
  }

  /** A task `get_task` finds is the first cached one with the id, or, on a miss, the
      task its row describes, appended to the cache. */
  lemma GetFound(cache: seq<Task>, db: Db, user: int, id: int, today: Date, now: Stamp)
    requires GetSpec(cache, db, Some(user), id, today, now).value.Found?
    ensures id in db.rows
    ensures var g := GetSpec(cache, db, Some(user), id, today, now);
      g.value == Found(FirstWithId(cache, id)) && g.cache == Fetched(cache, db, id)
  {
    var g := GetSpec(cache, db, Some(user), id, today, now);
    var k := FirstWithId(cache, id);
    if k == |cache| {
      assert |g.cache| > |cache|;
    } else {
      assert g.cache == g.cache[..|cache|];
    }
  }

  // ---- add_task ----

  /** The row `add_task` inserts for a validated task. */
  function RowFor(user: int, t: Task): Row {
    Row(user, t.title, t.description, t.due, t.priority, t.status, t.created)
  }

  /** `add_task`: a new `Task` (status Pending) is validated, inserted, given the
      inserted row's id and put at the front of the cache. */
  function AddSpec(cache: seq<Task>, db: Db, session: Option<int>, title: string, description: string,
                   due: Option<Date>, priority: string, today: Date, now: Stamp): (o: Outcome<bool>)
    ensures !o.value ==> o.cache == cache && o.db.rows == db.rows
    ensures session.None? || NewTask(today, now, title := title, description := description, due := due, priority := priority).Err?
            ==> o.db == db
    ensures o.value <==>
      && session.Some?
      && NewTask(today, now, title := title, description := description, due := due, priority := priority).Ok?
      && Next(db) == NoFault
  {
    if session.None? then Outcome(false, cache, db)
    else match NewTask(today, now, title := title, description := description, due := due, priority := priority)
      case Err(_) => Outcome(false, cache, db)
      case Ok(t) =>
        var i := InsertRow(db, RowFor(session.value, t));
        if i.reply.Answer? && i.reply.value.Some?
        then Outcome(true, [t.(id := Some(i.reply.value.value))] + cache, i.db)
        else Outcome(false, cache, i.db)
  }

  /** A successful `add_task` stores one new row under a fresh id, and the task at the
      front of the cache is exactly that row, with status Pending and the given fields. */
  lemma AddStoresNewRow(cache: seq<Task>, db: Db, user: int, title: string, description: string,
                        due: Option<Date>, priority: string, today: Date, now: Stamp)
    requires Valid(db)
    ensures var o := AddSpec(cache, db, Some(user), title, description, due, priority, today, now);
      o.value ==>
        && db.nextId !in db.rows
        && o.db.rows == db.rows[db.nextId := Row(user, title, description, due, priority, "Pending", now)]
        && Valid(o.db)
        && |o.cache| == |cache| + 1 && o.cache[1..] == cache
        && o.cache[0] == TaskOf(Record(db.nextId, o.db.rows[db.nextId]))
        && ValidTask(o.cache[0], today)
  {
    var o := AddSpec(cache, db, Some(user), title, description, due, priority, today, now);
    if o.value {
      assert o.cache == [o.cache[0]] + cache;
    }
  }

  // ---- update_task ----

  const Updatable: set<string> := {"title", "description", "due_date", "priority_level", "status"}

  predicate IsUpdatable(c: Change) {
    c.field in Updatable
  }

  /** A value of the attribute's type: `str` for the text fields, a `date` or `None` for
      the due date. */
  predicate WellTyped(c: Change) {
    && (c.field in {"title", "description", "priority_level", "status"} ==> c.value.Str?)
    && (c.field == "due_date" ==> c.value.Null? || c.value.Day?)
  }

  /** What `update_task` accepts: any keyword, well-typed when it is one it uses. */
  predicate Acceptable(changes: seq<Change>) {
    forall c :: c in changes ==> IsUpdatable(c) ==> WellTyped(c)
  }

  /** The dictionary comprehension of `update_task`: the updatable keywords, in order. */
  function Allowed(changes: seq<Change>): (us: seq<Change>)
    ensures forall c :: c in us <==> c in changes && IsUpdatable(c)
  {
    Filter(changes, IsUpdatable)
  }

  /** `setattr(task, field, value)`: the property setter of that field. */
  function Assign(t: Task, c: Change, today: Date): (a: Assigned)
    requires IsUpdatable(c) && WellTyped(c)
  {
    if c.field == "title" then SetTitle(t, c.value.s)
    else if c.field == "description" then SetDescription(t, c.value.s)
    else if c.field == "due_date" then SetDue(t, if c.value.Day? then Some(c.value.d) else None, today)
    else if c.field == "priority_level" then SetPriority(t, c.value.s)
    else SetStatus(t, c.value.s)
  }

  /** The `setattr` loop: the setters in order until one raises. The record keeps every
      value assigned, the rejected one included. A valid task that passes every check
      stays valid. */
  function AssignAll(t: Task, us: seq<Change>, today: Date): (a: Assigned)
    requires forall c :: c in us ==> IsUpdatable(c) && WellTyped(c)
    ensures a.task.id == t.id && a.task.created == t.created
    ensures us == [] ==> a == Assigned(t, Pass)
    decreases |us|
  {
    if us == [] then Assigned(t, Pass)
    else
      var a := Assign(t, us[0], today);
      if a.check.Fail? then a else AssignAll(a.task, us[1..], today)
  }

  /** An updatable keyword that is none of the first four is `status`, with a `str`. */
  lemma StatusIsLast(c: Change)
    requires IsUpdatable(c) && WellTyped(c)
    requires c.field != "title" && c.field != "description" && c.field != "due_date" && c.field != "priority_level"
    ensures c.field == "status" && c.value.Str?
  {
  }

  /** One setter that passes its check keeps a valid task valid. */
  lemma AssignKeepsValid(t: Task, c: Change, today: Date)
    requires IsUpdatable(c) && WellTyped(c) && ValidTask(t, today)
    ensures Assign(t, c, today).check.Pass? ==> ValidTask(Assign(t, c, today).task, today)
  {
    var a := Assign(t, c, today);
    if c.field == "title" {
      assert a == SetTitle(t, c.value.s);
      SettersPreserveValidity(t, c.value.s, None, today);
    } else if c.field == "description" {
      assert a.task == t.(description := c.value.s);
    } else if c.field == "due_date" {
      assert a == SetDue(t, if c.value.Day? then Some(c.value.d) else None, today);
    } else if c.field == "priority_level" {
      assert a == SetPriority(t, c.value.s);
    } else {
      StatusIsLast(c);
      assert a == SetStatus(t, c.value.s);
    }
  }

  /** A valid task whose every assignment passes its check stays valid: each setter
      re-checks the one field it changed. */
  lemma {:induction false} AssignAllKeepsValid(t: Task, us: seq<Change>, today: Date)
    requires forall c :: c in us ==> IsUpdatable(c) && WellTyped(c)
    requires ValidTask(t, today)
    ensures AssignAll(t, us, today).check.Pass? ==> ValidTask(AssignAll(t, us, today).task, today)
    decreases |us|
  {
    if us != [] {
      assert us[0] in us;
      AssignKeepsValid(t, us[0], today);
      var a := Assign(t, us[0], today);
      if a.check.Pass? {
        AssignAllKeepsValid(a.task, us[1..], today);
      }
    }
  }

  /** Assigning the attributes of a task that mirrors a row, with every check passing,
      gives the task that mirrors the row the `UPDATE` writes. */
  lemma {:induction false} AssignMirrorsUpdate(rec: Record, us: seq<Change>, today: Date)
    requires forall c :: c in us ==> IsUpdatable(c) && WellTyped(c)
    ensures AssignAll(TaskOf(rec), us, today).check.Pass? ==>
      AssignAll(TaskOf(rec), us, today).task == TaskOf(Record(rec.id, SetColumns(rec.row, us)))
    decreases |us|
  {
    if us != [] {
      var c := us[0];
      assert c in us;
      var next := Record(rec.id, SetColumn(rec.row, c));
      assert Assign(TaskOf(rec), c, today).task == TaskOf(next);
      AssignMirrorsUpdate(next, us[1..], today);
    }
  }

  /** `update_task`: ownership is verified, the task is looked up with `get_task`, the
      updatable keywords are assigned to the cached task one by one, and only then, if
      there are any and all were accepted, one `UPDATE` is sent. A rejected value stays
      in the cached task although the call fails. */
  function UpdateSpec(cache: seq<Task>, db: Db, session: Option<int>, id: int, changes: seq<Change>,
                      today: Date, now: Stamp): (o: Outcome<bool>)
    requires Acceptable(changes)
    ensures o.db.nextId == db.nextId && o.db.rows.Keys == db.rows.Keys
    ensures |o.cache| >= |cache|
    ensures session.Some? && !Verify(db, id, session.value).0 ==>
      && o == Outcome(false, cache, Verify(db, id, session.value).1)
      && o.db.rows == db.rows && o.db.writes == db.writes
  {
    if session.None? then Outcome(false, cache, db)
    else
      var v := Verify(db, id, session.value);
      if !v.0 then Outcome(false, cache, v.1)
      else
        var g := GetSpec(cache, v.1, session, id, today, now);
        match g.value
        case Missing => Outcome(false, g.cache, g.db)
        case Raised => Outcome(false, g.cache, g.db)
        case Found(k) =>
          var us := Allowed(changes);
          var a := AssignAll(g.cache[k], us, today);
          var after := g.cache[k := a.task];
          if a.check.Fail? then Outcome(false, after, g.db)
          else if us == [] then Outcome(true, after, g.db)
          else
            var u := UpdateRow(g.db, id, session.value, us);
            Outcome(u.reply == Answer(true), after, u.db)
  }

  /** What a successful `update_task` does. With a healthy store, on a task the user owns
      that is cached or whose row makes a valid task, and with every setter passing, the
      call returns True. The row gets the `SET` columns. One `UPDATE` scoped by id and
      user is sent when there is anything to set, and no write otherwise. The task
      `get_task` found, appended to the cache on a miss, carries the assigned values. */
  lemma UpdateEffect(cache: seq<Task>, db: Db, user: int, id: int, changes: seq<Change>, today: Date, now: Stamp)
    requires Acceptable(changes)
    requires db.faults == [] && id in db.rows && db.rows[id].owner == user
    requires FirstWithId(cache, id) < |cache| || ValidTask(TaskOf(Record(id, db.rows[id])), today)
    requires AssignAll(Looked(cache, db, id), Allowed(changes), today).check.Pass?
    ensures var o := UpdateSpec(cache, db, Some(user), id, changes, today, now);
      var us := Allowed(changes);
      var k := FirstWithId(cache, id);
      var t := Looked(cache, db, id);
      && o.value
      && o.db.rows == db.rows[id := SetColumns(db.rows[id], us)]
      && o.db.writes == db.writes + (if us == [] then [] else [Update(id, user, us)])
      && o.db.faults == []
      && o.cache == Fetched(cache, db, id)[k := AssignAll(t, us, today).task]
  {
    var v := Verify(db, id, user);
    assert v.0 && v.1.faults == [];
    var g := GetSpec(cache, v.1, Some(user), id, today, now);
    var k := FirstWithId(cache, id);
    var t := Looked(cache, db, id);
    assert g.value == Found(k) && g.cache == Fetched(cache, db, id);
    assert g.cache[k] == t;
    assert g.db.faults == [] && g.db.rows == db.rows && g.db.writes == db.writes;
    var us := Allowed(changes);
    if us == [] {
      assert db.rows[id := SetColumns(db.rows[id], us)] == db.rows;
    }
  }

  /** The converse of `UpdateEffect`: an `update_task` that returns True was on a task the
      user owns, every setter passed, the row got the `SET` columns, and the task
      `get_task` found carries the assigned values. */
  lemma UpdateSucceeded(cache: seq<Task>, db: Db, user: int, id: int, changes: seq<Change>, today: Date, now: Stamp)
    requires Acceptable(changes)
    requires UpdateSpec(cache, db, Some(user), id, changes, today, now).value
    ensures id in db.rows && db.rows[id].owner == user
    ensures var o := UpdateSpec(cache, db, Some(user), id, changes, today, now);
      var us := Allowed(changes);
      var a := AssignAll(Looked(cache, db, id), us, today);
      && a.check.Pass?
      && o.db.rows == db.rows[id := SetColumns(db.rows[id], us)]
      && o.cache == Fetched(cache, db, id)[FirstWithId(cache, id) := a.task]
  {
    var v := Verify(db, id, user);
    GetFound(cache, v.1, user, id, today, now);
    var us := Allowed(changes);
    if us == [] {
      assert db.rows[id := SetColumns(db.rows[id], us)] == db.rows;
    }
  }

  /** `update_task` changes at most the row it was asked to, only when the user owns it,
      and reports success only for a task the user owns. */
  lemma UpdateTouchesOnlyOwnedTask(cache: seq<Task>, db: Db, session: Option<int>, id: int, changes: seq<Change>,
                                   today: Date, now: Stamp)
    requires Acceptable(changes)
    ensures var o := UpdateSpec(cache, db, session, id, changes, today, now);
      && (forall k :: k in db.rows && k != id ==> o.db.rows[k] == db.rows[k])
      && (o.value || o.db.rows != db.rows ==> session.Some? && id in db.rows && db.rows[id].owner == session.value)
      && (!o.value ==> o.db.rows == db.rows)
  {
  }

  /** An update with no updatable keyword sends no write at all, and changes neither
      the store nor the cached task. */
  lemma EmptyUpdateWritesNothing(cache: seq<Task>, db: Db, session: Option<int>, id: int, changes: seq<Change>,
                                 today: Date, now: Stamp)
    requires Acceptable(changes) && Allowed(changes) == []
    ensures var o := UpdateSpec(cache, db, session, id, changes, today, now);
      && o.db.writes == db.writes && o.db.rows == db.rows
      && o.cache[..|cache|] == cache
    ensures session.Some? && db.faults == [] && id in db.rows && db.rows[id].owner == session.value
            && (FirstWithId(cache, id) < |cache| || ValidTask(TaskOf(Record(id, db.rows[id])), today))
            ==> UpdateSpec(cache, db, session, id, changes, today, now).value
  {
    var o := UpdateSpec(cache, db, session, id, changes, today, now);
    assert o.db.writes == db.writes && o.db.rows == db.rows && o.cache[..|cache|] == cache by {
      if session.Some? {
        var v := Verify(db, id, session.value);
        if v.0 {
          var g := GetSpec(cache, v.1, session, id, today, now);
          if g.value.Found? {
            var us := Allowed(changes);
            assert AssignAll(g.cache[g.value.slot], us, today).task == g.cache[g.value.slot];
            assert g.cache[g.value.slot := g.cache[g.value.slot]] == g.cache;
          }
        }
      }
    }
    if session.Some? && db.faults == [] && id in db.rows && db.rows[id].owner == session.value
       && (FirstWithId(cache, id) < |cache| || ValidTask(TaskOf(Record(id, db.rows[id])), today)) {
      UpdateEffect(cache, db, session.value, id, changes, today, now);
    }
  }

  /** A rejected value still lands in the cache: updating a cached, owned task with a
      priority that is not one of the three fails without touching the store, yet the
      cached task now carries that priority. */
  lemma RejectedValueStaysCached(cache: seq<Task>, db: Db, user: int, id: int, priority: string, today: Date, now: Stamp)
    requires db.faults == [] && id in db.rows && db.rows[id].owner == user
    requires FirstWithId(cache, id) < |cache| && priority !in Priorities
    ensures var k := FirstWithId(cache, id);
      var o := UpdateSpec(cache, db, Some(user), id, [Change("priority_level", Str(priority))], today, now);
      && !o.value && o.db.rows == db.rows
      && o.cache == cache[k := cache[k].(priority := priority)]
  {
    var ch := [Change("priority_level", Str(priority))];
    assert Allowed(ch) == ch;
  }

  /** A failed final `UPDATE`, swallowed or raised, makes `update_task` return False with
      the store's rows untouched, while the cached task keeps the values the setters
      assigned before the write. */
  lemma StoreFailureKeepsAssignedValue(cache: seq<Task>, db: Db, user: int, id: int, changes: seq<Change>,
                                       fault: Fault, today: Date, now: Stamp)
    requires Acceptable(changes) && Allowed(changes) != [] && fault != NoFault
    requires db.faults == [NoFault, NoFault, fault] && id in db.rows && db.rows[id].owner == user
    requires FirstWithId(cache, id) < |cache|
    requires AssignAll(cache[FirstWithId(cache, id)], Allowed(changes), today).check.Pass?
    ensures var k := FirstWithId(cache, id);
      var o := UpdateSpec(cache, db, Some(user), id, changes, today, now);
      && !o.value && o.db.rows == db.rows
      && o.db.writes == db.writes + [Update(id, user, Allowed(changes))]
      && o.cache == cache[k := AssignAll(cache[k], Allowed(changes), today).task]
  {
    var v := Verify(db, id, user);
    assert v.0 && v.1.faults == [NoFault, fault];
    var g := GetSpec(cache, v.1, Some(user), id, today, now);
    assert g.value == Found(FirstWithId(cache, id)) && g.cache == cache;
    assert g.db.faults == [fault] && g.db.rows == db.rows && g.db.writes == db.writes;
  }

  /** The same for `mark_completed`: a failed write returns False, but the cached task
      already shows Completed. */
  lemma FailedCompletionStaysCached(cache: seq<Task>, db: Db, user: int, id: int, fault: Fault,
                                    today: Date, now: Stamp)
    requires fault != NoFault
    requires db.faults == [NoFault, NoFault, fault] && id in db.rows && db.rows[id].owner == user
    requires FirstWithId(cache, id) < |cache|
    ensures var k := FirstWithId(cache, id);
      var o := UpdateSpec(cache, db, Some(user), id, Complete, today, now);
      && !o.value && o.db.rows == db.rows
      && o.cache == cache[k := cache[k].(status := "Completed")]
  {
    var k := FirstWithId(cache, id);
    assert Allowed(Complete) == Complete;
    assert AssignAll(cache[k], Complete, today) == Assigned(cache[k].(status := "Completed"), Pass);
    StoreFailureKeepsAssignedValue(cache, db, user, id, Complete, fault, today, now);
  }

  /** When the cached task mirrors its row, a successful update leaves them mirroring
      each other: cache and store say the same about the task. */
  lemma UpdateKeepsCacheCoherent(cache: seq<Task>, db: Db, user: int, id: int, changes: seq<Change>,
                                 today: Date, now: Stamp)
    requires Acceptable(changes) && id in db.rows
    requires FirstWithId(cache, id) < |cache| && cache[FirstWithId(cache, id)] == TaskOf(Record(id, db.rows[id]))
    ensures var k := FirstWithId(cache, id);
      var o := UpdateSpec(cache, db, Some(user), id, changes, today, now);
      o.value ==> k < |o.cache| && o.cache[k] == TaskOf(Record(id, o.db.rows[id]))
  {
    var us := Allowed(changes);
    AssignMirrorsUpdate(Record(id, db.rows[id]), us, today);
  }

  // ---- mark_completed ----

  const Complete: seq<Change> := [Change("status", Str("Completed"))]

  /** `mark_completed`: `update_task(task_id, status='Completed')`; when it succeeds, the
      store and the cached task both say Completed. */
  lemma MarkCompletedCompletes(cache: seq<Task>, db: Db, user: int, id: int, today: Date, now: Stamp)
    ensures var o := UpdateSpec(cache, db, Some(user), id, Complete, today, now);
      o.value ==> && id in o.db.rows && o.db.rows[id].status == "Completed"
                  && exists k :: 0 <= k < |o.cache| && o.cache[k].id == Some(id) && o.cache[k].status == "Completed"
  {
    assert Allowed(Complete) == Complete;
    var o := UpdateSpec(cache, db, Some(user), id, Complete, today, now);
    if o.value {
      UpdateSucceeded(cache, db, user, id, Complete, today, now);
      var k := FirstWithId(cache, id);
      var t := Looked(cache, db, id);
      assert AssignAll(t, Complete, today).task == t.(status := "Completed");
      assert o.cache[k] == t.(status := "Completed");
    }
  }

  /** Replacing the task `get_task` found by one with the same id keeps it the first
      with that id. */
  lemma FoundStaysFirst(cache: seq<Task>, db: Db, id: int, t: Task)
    requires id in db.rows && t.id == Some(id)
    ensures var k := FirstWithId(cache, id);
      k < |Fetched(cache, db, id)| && FirstWithId(Fetched(cache, db, id)[k := t], id) == k
  {
    var k := FirstWithId(cache, id);
    var c := Fetched(cache, db, id)[k := t];
    assert forall j :: 0 <= j < k ==> c[j] == cache[j];
    FirstWithIdAt(c, k, id);
  }

  /** One `mark_completed` that succeeds: the row and the task `get_task` found now say
      Completed, and one `UPDATE` is sent. */
  lemma CompleteOnce(cache: seq<Task>, db: Db, user: int, id: int, today: Date, now: Stamp)
    requires db.faults == [] && id in db.rows && db.rows[id].owner == user
    requires FirstWithId(cache, id) < |cache| || ValidTask(TaskOf(Record(id, db.rows[id])), today)
    ensures var o := UpdateSpec(cache, db, Some(user), id, Complete, today, now);
      var k := FirstWithId(cache, id);
      && o.value && o.db.faults == []
      && id in o.db.rows && o.db.rows[id] == db.rows[id].(status := "Completed")
      && o.db.writes == db.writes + [Update(id, user, Complete)]
      && FirstWithId(o.cache, id) == k < |o.cache| && o.cache[k].status == "Completed"
  {
    assert Allowed(Complete) == Complete;
    var k := FirstWithId(cache, id);
    var t := Looked(cache, db, id);
    assert AssignAll(t, Complete, today) == Assigned(t.(status := "Completed"), Pass);
    UpdateEffect(cache, db, user, id, Complete, today, now);
    FoundStaysFirst(cache, db, id, t.(status := "Completed"));
  }

  /** Completing a task whose row and first cached copy already say Completed succeeds
      and changes neither the store nor the cache; it still sends its `UPDATE`. */
  lemma CompleteAgain(cache: seq<Task>, db: Db, user: int, id: int, today: Date, now: Stamp)
    requires db.faults == [] && id in db.rows && db.rows[id].owner == user && db.rows[id].status == "Completed"
    requires FirstWithId(cache, id) < |cache| && cache[FirstWithId(cache, id)].status == "Completed"
    ensures var o := UpdateSpec(cache, db, Some(user), id, Complete, today, now);
      && o.value && o.db.rows == db.rows && o.cache == cache
      && o.db.writes == db.writes + [Update(id, user, Complete)]
  {
    assert Allowed(Complete) == Complete;
    var k := FirstWithId(cache, id);
    var t := Looked(cache, db, id);
    assert t == cache[k] && Fetched(cache, db, id) == cache;
    assert AssignAll(t, Complete, today) == Assigned(t, Pass);
    UpdateEffect(cache, db, user, id, Complete, today, now);
    assert SetColumns(db.rows[id], Complete) == db.rows[id];
    assert db.rows[id := db.rows[id]] == db.rows;
    assert cache[k := t] == cache;
  }

  /** Completing an owned task that is cached, or whose row makes a valid task, succeeds
      on a healthy store; completing it again succeeds too, sends the same `UPDATE` once
      more and changes neither the store nor the cache. */
  lemma MarkCompletedTwice(cache: seq<Task>, db: Db, user: int, id: int, today: Date, now: Stamp)
    requires db.faults == [] && id in db.rows && db.rows[id].owner == user
    requires FirstWithId(cache, id) < |cache| || ValidTask(TaskOf(Record(id, db.rows[id])), today)
    ensures var o1 := UpdateSpec(cache, db, Some(user), id, Complete, today, now);
      var o2 := UpdateSpec(o1.cache, o1.db, Some(user), id, Complete, today, now);
      && o1.value && id in o1.db.rows && o1.db.rows[id].status == "Completed"
      && o2.value && o2.db.rows == o1.db.rows && o2.cache == o1.cache
      && o2.db.writes == o1.db.writes + [Update(id, user, Complete)]
  {
    CompleteOnce(cache, db, user, id, today, now);
    var o1 := UpdateSpec(cache, db, Some(user), id, Complete, today, now);
    CompleteAgain(o1.cache, o1.db, user, id, today, now);
  }

  // ---- delete_task ----

  /** `delete_task`: ownership is verified, the row deleted, and only if the `DELETE`
      went through is every task with that id dropped from the cache. */
  function DeleteSpec(cache: seq<Task>, db: Db, session: Option<int>, id: int): (o: Outcome<bool>)
    ensures o.value ==> session.Some? && id in db.rows && db.rows[id].owner == session.value
    ensures o.value ==> o.db.rows == db.rows - {id} && o.cache == Without(cache, id)
    ensures !o.value ==> o.db.rows == db.rows && o.cache == cache
    ensures session.Some? && id in db.rows && db.rows[id].owner == session.value
            && Next(db) == NoFault && Next(Send(db, SelectOwner(id))) == NoFault
            ==> o.value
  {
    if session.None? then Outcome(false, cache, db)
    else
      var v := Verify(db, id, session.value);
      if !v.0 then Outcome(false, cache, v.1)
      else
        var d := DeleteRow(v.1, id, session.value);
        if d.reply == Answer(true) then Outcome(true, Without(cache, id), d.db) else Outcome(false, cache, d.db)
  }

  /** A deleted task is gone from store and cache; every other cached task stays. */
  lemma DeleteForgetsTask(cache: seq<Task>, db: Db, session: Option<int>, id: int)
    ensures var o := DeleteSpec(cache, db, session, id);
      o.value ==> id !in o.db.rows && (forall t :: t in o.cache ==> t.id != Some(id))
                  && (forall t :: t in cache && t.id != Some(id) ==> t in o.cache)
  {
  }

  // ---- list_tasks ----

  /** `list_tasks`: signed out, nothing; otherwise the cache, filtered when any filter is
      given, then merge-sorted. */
  function ListSpec(cache: seq<Task>, session: Option<int>, filters: Filters): (r: seq<Task>)
    ensures session.None? ==> r == []
    ensures session.Some? ==> Sorted(r) && multiset(r) == multiset(Filter(cache, (t: Task) => Passes(filters, t)))
  {
    if session.None? then []
    else
      var tasks := if Present(filters) then ApplyFilters(cache, filters) else cache;
      MergeSortSortsAndPermutes(tasks);
      ApplyFiltersIsOnePass(cache, filters);
      MergeSorted(tasks)
  }

  // ---- get_statistics ----

  /** `result['count'] if result else 0`. */
  function Counted(r: Reply<Option<nat>>): nat {
    if r.Answer? && r.value.Some? then r.value.value else 0
  }

  /** `get_statistics`: six count queries in turn; the first that raises sends the call
      to the in-memory fallback, while a swallowed error just counts as 0. */
  function StatsSpec(cache: seq<Task>, db: Db, session: Option<int>, today: Date): (o: Outcome<Stats>)
    ensures o.cache == cache && o.db.rows == db.rows && o.db.nextId == db.nextId && o.db.writes == db.writes
    ensures session.None? ==> o.value == NoStats && o.db == db
    ensures session.Some? && Next(db) == OtherError ==> o.value == StatsFromMemory(cache, today)
  {
    if session.None? then Outcome(NoStats, cache, db)
    else
      var u := session.value;
      var s1 := CountRows(db, AllTasks, u);
      if s1.reply.Raise? then Outcome(StatsFromMemory(cache, today), cache, s1.db) else
      var s2 := CountRows(s1.db, WithStatus("Completed"), u);
      if s2.reply.Raise? then Outcome(StatsFromMemory(cache, today), cache, s2.db) else
      var s3 := CountRows(s2.db, WithStatus("Pending"), u);
      if s3.reply.Raise? then Outcome(StatsFromMemory(cache, today), cache, s3.db) else
      var s4 := CountRows(s3.db, WithStatus("In Progress"), u);
      if s4.reply.Raise? then Outcome(StatsFromMemory(cache, today), cache, s4.db) else
      var s5 := CountRows(s4.db, HighPriority, u);
      if s5.reply.Raise? then Outcome(StatsFromMemory(cache, today), cache, s5.db) else
      var s6 := CountRows(s5.db, OverdueOn(today), u);
      if s6.reply.Raise? then Outcome(StatsFromMemory(cache, today), cache, s6.db) else
      Outcome(Stats(Counted(s1.reply), Counted(s2.reply), Counted(s3.reply),
                    Counted(s4.reply), Counted(s5.reply), Counted(s6.reply)), cache, s6.db)
  }

  /** When every count query hits a swallowed driver error, the statistics are all zero
      and the cache is not consulted. */
  lemma SwallowedErrorsGiveZeroStats(cache: seq<Task>, db: Db, user: int, today: Date)
    requires |db.faults| >= 6 && forall k :: 0 <= k < 6 ==> db.faults[k] == DriverError
    ensures StatsSpec(cache, db, Some(user), today).value == NoStats
  {
    assert db.faults[1..][0] == db.faults[1];
    assert db.faults[1..][1..][0] == db.faults[2];
    assert db.faults[1..][1..][1..][0] == db.faults[3];
    assert db.faults[1..][1..][1..][1..][0] == db.faults[4];
    assert db.faults[1..][1..][1..][1..][1..][0] == db.faults[5];
  }

  /** A query that raises sends `get_statistics` to the in-memory fallback: when any of
      the six count queries meets an escaping error, the statistics are those of the
      cache, whatever the queries before it answered. */
  lemma EscapingErrorFallsBack(cache: seq<Task>, db: Db, user: int, today: Date)
    requires exists k :: 0 <= k < 6 && k < |db.faults| && db.faults[k] == OtherError
    ensures StatsSpec(cache, db, Some(user), today).value == StatsFromMemory(cache, today)
  {
    var f := db.faults;
    if f[0] == OtherError {
    } else if |f| > 1 && f[1] == OtherError {
      assert f[1..][0] == f[1];
    } else if |f| > 2 && f[2] == OtherError {
      assert f[1..][0] == f[1] && f[1..][1..][0] == f[2];
    } else if |f| > 3 && f[3] == OtherError {
      assert f[1..][0] == f[1] && f[1..][1..][0] == f[2] && f[1..][1..][1..][0] == f[3];
    } else if |f| > 4 && f[4] == OtherError {
      assert f[1..][0] == f[1] && f[1..][1..][0] == f[2] && f[1..][1..][1..][0] == f[3];
      assert f[1..][1..][1..][1..][0] == f[4];
    } else {
      assert f[1..][0] == f[1] && f[1..][1..][0] == f[2] && f[1..][1..][1..][0] == f[3];
      assert f[1..][1..][1..][1..][0] == f[4] && f[1..][1..][1..][1..][1..][0] == f[5];
    }
  }

  /** Counting rows that all convert is counting the converted tasks, when the two
      conditions agree on every row. */
  lemma ConvertedCount(rs: seq<Record>, read: Reader, p: Record -> bool, q: Task -> bool)
    requires Faithful(read) && Convert(rs, read).1
    requires forall r :: p(r) == q(TaskOf(r))
    ensures |Filter(rs, p)| == |Filter(Convert(rs, read).0, q)|
  {
    ConvertFilter(rs, read, p, q);
  }

  /** With a healthy store every query answers, so the statistics are the six counts
      over the user's rows. */
  lemma HealthyStats(cache: seq<Task>, db: Db, user: int, today: Date)
    requires db.faults == []
    ensures StatsSpec(cache, db, Some(user), today).value
         == Stats(Tally(db, AllTasks, user), Tally(db, WithStatus("Completed"), user),
                  Tally(db, WithStatus("Pending"), user), Tally(db, WithStatus("In Progress"), user),
                  Tally(db, HighPriority, user), Tally(db, OverdueOn(today), user))
  {
  }

  /** A count query over rows that a faithful reader converts in full counts the tasks
      it made that meet the same condition. */
  lemma TallyCounts(cache: seq<Task>, db: Db, user: int, q: CountQuery, keep: Task -> bool, read: Reader)
    requires Faithful(read) && Convert(OwnedRecords(db, user), read) == (cache, true)
    requires forall r :: Counts(q, r) == keep(TaskOf(r))
    ensures Tally(db, q, user) == |Filter(cache, keep)|
  {
    ConvertedCount(OwnedRecords(db, user), read, Query(q), keep);
  }

  /** The three status tallies over rows that a faithful reader converts in full are
      the status counts of the tasks it made. */
  lemma StatusTallies(cache: seq<Task>, db: Db, user: int, read: Reader)
    requires Faithful(read) && Convert(OwnedRecords(db, user), read) == (cache, true)
    ensures Tally(db, WithStatus("Completed"), user) == |Filter(cache, IsCompleted)|
    ensures Tally(db, WithStatus("Pending"), user) == |Filter(cache, IsPending)|
    ensures Tally(db, WithStatus("In Progress"), user) == |Filter(cache, IsInProgress)|
  {
    TallyCounts(cache, db, user, WithStatus("Completed"), IsCompleted, read);
    TallyCounts(cache, db, user, WithStatus("Pending"), IsPending, read);
    TallyCounts(cache, db, user, WithStatus("In Progress"), IsInProgress, read);
  }

  /** The total, high-priority and overdue tallies over rows that a faithful reader
      converts in full are those counts of the tasks it made. */
  lemma OtherTallies(cache: seq<Task>, db: Db, user: int, today: Date, read: Reader)
    requires Faithful(read) && Convert(OwnedRecords(db, user), read) == (cache, true)
    ensures Tally(db, AllTasks, user) == |cache|
    ensures Tally(db, HighPriority, user) == |Filter(cache, IsHighPriority)|
    ensures Tally(db, OverdueOn(today), user) == |Filter(cache, OverdueAsOf(today))|
  {
    FilterKeepsAll(OwnedRecords(db, user), Query(AllTasks));
    TallyCounts(cache, db, user, HighPriority, IsHighPriority, read);
    TallyCounts(cache, db, user, OverdueOn(today), OverdueAsOf(today), read);
  }

  /** The six tallies over rows that a faithful reader converts in full are the
      statistics computed from the tasks it made. */
  lemma TalliesAreStats(cache: seq<Task>, db: Db, user: int, today: Date, read: Reader)
    requires Faithful(read) && Convert(OwnedRecords(db, user), read) == (cache, true)
    ensures Stats(Tally(db, AllTasks, user), Tally(db, WithStatus("Completed"), user),
                  Tally(db, WithStatus("Pending"), user), Tally(db, WithStatus("In Progress"), user),
                  Tally(db, HighPriority, user), Tally(db, OverdueOn(today), user))
         == StatsFromMemory(cache, today)
  {
    StatusTallies(cache, db, user, read);
    OtherTallies(cache, db, user, today, read);
  }

  /** With a healthy store and a fresh cache, the queries and the fallback agree: the
      statistics are those computed from memory. */
  lemma StatsPathsAgree(cache: seq<Task>, db: Db, user: int, today: Date, now: Stamp)
    requires db.faults == [] && Fresh(cache, db, user, today, now)
    ensures StatsSpec(cache, db, Some(user), today).value == StatsFromMemory(cache, today)
  {
    HealthyStats(cache, db, user, today);
    TalliesAreStats(cache, db, user, today, ReadRow(today, now));
  }

  // ---- search_tasks ----

  /** `search_tasks`: the store's matching rows converted one by one; if the query
      raises, or a row does not convert, the cache is searched instead. A swallowed
      error gives no results at all. */
  function SearchSpec(cache: seq<Task>, db: Db, session: Option<int>, keyword: string, today: Date, now: Stamp)
    : (o: Outcome<seq<Task>>)
    ensures o.cache == cache && o.db.rows == db.rows && o.db.nextId == db.nextId && o.db.writes == db.writes
    ensures session.None? ==> o.value == [] && o.db == db
    ensures session.Some? && Next(db) == DriverError ==> o.value == []
    ensures session.Some? && Next(db) == OtherError ==> o.value == Mentioning(cache, keyword)
    ensures session.Some? && Next(db) == NoFault ==>
      var c := Convert(Filter(OwnedRecords(db, session.value), Matches(keyword)), ReadRow(today, now));
      && (c.1 ==> o.value == c.0)
      && (!c.1 ==> o.value == Mentioning(cache, keyword))
  {
    if session.None? then Outcome([], cache, db)
    else
      var s := SearchRows(db, session.value, keyword);
      match s.reply
      case Raise => Outcome(Mentioning(cache, keyword), cache, s.db)
      case Answer(rs) =>
        var c := Convert(rs, ReadRow(today, now));
        if c.1 then Outcome(c.0, cache, s.db) else Outcome(Mentioning(cache, keyword), cache, s.db)
  }

  /** Converting the rows that match the keyword, when a faithful reader converts every
      row, gives the cached tasks that mention it, in order. */
  lemma SearchAgrees(cache: seq<Task>, rs: seq<Record>, read: Reader, keyword: string)
    requires Faithful(read) && Convert(rs, read) == (cache, true)
    ensures Convert(Filter(rs, Matches(keyword)), read) == (Mentioning(cache, keyword), true)
  {
    ConvertFilter(rs, read, Matches(keyword), About(keyword));
  }

  /** With a healthy store and a fresh cache, the query and the fallback find the same
      tasks in the same order. */
  lemma SearchPathsAgree(cache: seq<Task>, db: Db, user: int, keyword: string, today: Date, now: Stamp)
    requires db.faults == [] && Fresh(cache, db, user, today, now)
    ensures SearchSpec(cache, db, Some(user), keyword, today, now).value == Mentioning(cache, keyword)
  {
    var rs := OwnedRecords(db, user);
    var read := ReadRow(today, now);
    SearchAgrees(cache, rs, read, keyword);
    var s := SearchRows(db, user, keyword);
    assert s.reply == Answer(Filter(rs, Matches(keyword)));
  }

  // ---- signed out ----

  /** Signed out, no operation sends a statement or changes the store; only loading
      touches the cache (it empties it). */
  lemma SignedOutIsInert(cache: seq<Task>, db: Db, id: int, changes: seq<Change>, title: string, keyword: string,
                         today: Date, now: Stamp)
    requires Acceptable(changes)
    ensures LoadSpec(cache, db, None, today, now) == Outcome((), [], db)
    ensures AddSpec(cache, db, None, title, "", None, "Medium", today, now) == Outcome(false, cache, db)
    ensures UpdateSpec(cache, db, None, id, changes, today, now) == Outcome(false, cache, db)
    ensures DeleteSpec(cache, db, None, id) == Outcome(false, cache, db)
    ensures SearchSpec(cache, db, None, keyword, today, now) == Outcome([], cache, db)
  {
  }

  // ---- the conversion loop ----

  /** The loop `for task_data in results: ... Task.from_dict(task_data)` of
      `_load_tasks` and `search_tasks`: the tasks made before the first row that raises,
      and whether no row raised. */
  method ConvertRows(rows: seq<Record>, read: Reader) returns (made: seq<Task>, complete: bool)
    ensures (made, complete) == Convert(rows, read)
  {
    made := [];
    var i := 0;
    complete := true;
    while i < |rows| && complete
      invariant 0 <= i <= |rows| && |made| == i
      decreases |rows| - i, if complete then 1 else 0
      invariant forall k :: 0 <= k < i ==> read(rows[k]) == Ok(made[k])
      invariant !complete ==> i < |rows| && read(rows[i]).Err?
    {
      match read(rows[i])
      case Err(_) =>
        complete := false;
      case Ok(t) =>
        made := made + [t];
        i := i + 1;
    }
    ConvertUnique(rows, made, read);
  }

  // ---- the class ----

  /** `TaskManager`: the cache `_tasks` and the store behind it. Every method changes
      the two exactly as the function of the same operation above says. */
  class TaskManager {
    var tasks: seq<Task>
    var db: Db

    /** `__init__`: an empty cache, then `_load_tasks`. */
    constructor (db0: Db, session: Option<int>, today: Date, now: Stamp)
      ensures Outcome((), tasks, db) == LoadSpec([], db0, session, today, now)
    {
      tasks := [];
      db := db0;
      new;
      LoadTasks(session, today, now);
    }

    /** `_load_tasks`. */
    method LoadTasks(session: Option<int>, today: Date, now: Stamp)
      modifies this
      ensures Outcome((), tasks, db) == LoadSpec(old(tasks), old(db), session, today, now)
    {
      if session.None? {
        tasks := [];
        return;
      }
      var s := FetchOwned(db, session.value);
      db := s.db;
      if s.reply.Answer? {
        var complete;
        tasks, complete := ConvertRows(s.reply.value, ReadRow(today, now));
      }
    }

    /** `refresh_tasks`: `_load_tasks` again, after a sign-in or sign-out. */
    method RefreshTasks(session: Option<int>, today: Date, now: Stamp)
      modifies this
      ensures Outcome((), tasks, db) == LoadSpec(old(tasks), old(db), session, today, now)
    {
      LoadTasks(session, today, now);
    }

    /** `_verify_task_ownership`. */
    method VerifyTaskOwnership(id: int, user: int) returns (owned: bool)
      modifies this`db
      ensures (owned, db) == Verify(old(db), id, user)
    {
      var s := FetchOwner(db, id);
      db := s.db;
      owned := s.reply == Answer(Some(user));
    }

    /** `get_task`: the scan of the cache, then the store. */
    method GetTask(session: Option<int>, id: int, today: Date, now: Stamp) returns (r: Lookup)
      modifies this
      ensures Outcome(r, tasks, db) == GetSpec(old(tasks), old(db), session, id, today, now)
    {
      if session.None? {
        return Missing;
      }
      var user := session.value;
      var k := 0;
      while k < |tasks| && tasks[k].id != Some(id)
        invariant 0 <= k <= |tasks|
        invariant forall j :: 0 <= j < k ==> tasks[j].id != Some(id)
      {
        k := k + 1;
      }
      assert k == FirstWithId(tasks, id);
      var owned := VerifyTaskOwnership(id, user);
      if k < |tasks| {
        return if owned then Found(k) else Missing;
      }
      if !owned {
        return Missing;
      }
      var f := FetchTask(db, id);
      db := f.db;
      if f.reply.Raise? {
        return Raised;
      }
      if f.reply.value.None? {
        return Missing;
      }
      match FromRow(f.reply.value.value, today, now)
      case Err(_) =>
        r := Raised;
      case Ok(t) =>
        r := Found(|tasks|);
        tasks := tasks + [t];
    }

    /** `add_task`, with the same defaults. */
    method AddTask(session: Option<int>, today: Date, now: Stamp, title: string, description: string := "",
                   due: Option<Date> := None, priority: string := "Medium") returns (ok: bool)
      modifies this
      ensures Outcome(ok, tasks, db) == AddSpec(old(tasks), old(db), session, title, description, due, priority, today, now)
    {
      if session.None? {
        return false;
      }
      var made := NewTask(today, now, title := title, description := description, due := due, priority := priority);
      if made.Err? {
        return false;
      }
      var t := made.value;
      var i := InsertRow(db, RowFor(session.value, t));
      db := i.db;
      if i.reply.Answer? && i.reply.value.Some? {
        tasks := [t.(id := Some(i.reply.value.value))] + tasks;
        return true;
      }
      return false;
    }

    /** `update_task`: the `setattr` loop writes each value into the cached task, so a
        value its setter rejects is already in the cache when the call fails. */
    method UpdateTask(session: Option<int>, id: int, changes: seq<Change>, today: Date, now: Stamp) returns (ok: bool)
      requires Acceptable(changes)
      modifies this
      ensures Outcome(ok, tasks, db) == UpdateSpec(old(tasks), old(db), session, id, changes, today, now)
    {
      if session.None? {
        return false;
      }
      var user := session.value;
      var owned := VerifyTaskOwnership(id, user);
      if !owned {
        return false;
      }
      var found := GetTask(session, id, today, now);
      if !found.Found? {
        return false;
      }
      var k := found.slot;
      var us := Allowed(changes);
      var check := SetAttributes(k, us, today);
      if check.Fail? {
        return false;
      }
      if us == [] {
        return true;
      }
      var u := UpdateRow(db, id, user, us);
      db := u.db;
      ok := u.reply == Answer(true);
    }

    /** The `setattr` loop of `update_task` on the task in slot `k`: each value is stored
        in the cached task before its setter checks it, and the first that fails ends it. */
    method SetAttributes(k: nat, us: seq<Change>, today: Date) returns (check: Check)
      requires k < |tasks| && forall c :: c in us ==> IsUpdatable(c) && WellTyped(c)
      modifies this`tasks
      ensures var a := AssignAll(old(tasks)[k], us, today);
        tasks == old(tasks)[k := a.task] && check == a.check
    {
      ghost var start := tasks;
      var i := 0;
      check := Pass;
      while i < |us| && check.Pass?
        invariant 0 <= i <= |us|
        invariant |tasks| == |start| && tasks == start[k := tasks[k]]
        invariant AssignAll(start[k], us, today)
               == if check.Pass? then AssignAll(tasks[k], us[i..], today) else Assigned(tasks[k], check)
      {
        assert us[i] in us;
        assert us[i..][1..] == us[i + 1..];
        var a := Assign(tasks[k], us[i], today);
        tasks := tasks[k := a.task];
        check := a.check;
        i := i + 1;
      }
    }

    /** `mark_completed`: `update_task(task_id, status='Completed')`. */
    method MarkCompleted(session: Option<int>, id: int, today: Date, now: Stamp) returns (ok: bool)
      modifies this
      ensures Outcome(ok, tasks, db) == UpdateSpec(old(tasks), old(db), session, id, Complete, today, now)
      ensures session.Some? && old(db).faults == [] && id in old(db).rows && old(db).rows[id].owner == session.value
              && (FirstWithId(old(tasks), id) < |old(tasks)| || ValidTask(TaskOf(Record(id, old(db).rows[id])), today))
              ==> ok && id in db.rows && db.rows[id].status == "Completed"
    {
      ghost var cache0, db0 := tasks, db;
      ok := UpdateTask(session, id, Complete, today, now);
      if session.Some? && db0.faults == [] && id in db0.rows && db0.rows[id].owner == session.value
         && (FirstWithId(cache0, id) < |cache0| || ValidTask(TaskOf(Record(id, db0.rows[id])), today)) {
        CompleteOnce(cache0, db0, session.value, id, today, now);
      }
    }

    /** `delete_task`. */
    method DeleteTask(session: Option<int>, id: int) returns (ok: bool)
      modifies this
      ensures Outcome(ok, tasks, db) == DeleteSpec(old(tasks), old(db), session, id)
    {
      if session.None? {
        return false;
      }
      var owned := VerifyTaskOwnership(id, session.value);
      if !owned {
        return false;
      }
      var d := DeleteRow(db, id, session.value);
      db := d.db;
      if d.reply == Answer(true) {
        tasks := Without(tasks, id);
        return true;
      }
      return false;
    }

    /** `list_tasks`: a copy of the cache, filtered when a filter is given, then sorted. */
    method ListTasks(session: Option<int>, filters: Filters) returns (listed: seq<Task>)
      ensures listed == ListSpec(tasks, session, filters)
      ensures session.Some? ==> Sorted(listed) && multiset(listed) == multiset(Filter(tasks, (t: Task) => Passes(filters, t)))
    {
      if session.None? {
        return [];
      }
      var selected := tasks;
      if Present(filters) {
        selected := ApplyFilters(selected, filters);
      }
      listed := SortTasks(selected);
    }

    /** `_sort_tasks`: an empty list as it is, any other merge-sorted. */
    static method SortTasks(ts: seq<Task>) returns (sorted: seq<Task>)
      ensures sorted == MergeSorted(ts)
      ensures Sorted(sorted) && multiset(sorted) == multiset(ts)
    {
      MergeSortSortsAndPermutes(ts);
      if ts == [] {
        return ts;
      }
      sorted := MergeSort(ts);
    }

    /** `_merge_sort`. */
    static method MergeSort(ts: seq<Task>) returns (sorted: seq<Task>)
      ensures sorted == MergeSorted(ts)
      decreases |ts|
    {
      if |ts| <= 1 {
        return ts;
      }
      var mid := |ts| / 2;
      var left := MergeSort(ts[..mid]);
      var right := MergeSort(ts[mid..]);
      sorted := Merge(left, right);
    }

    /** `_merge`: the loop over both lists, then the rest of each. */
    static method Merge(left: seq<Task>, right: seq<Task>) returns (merged: seq<Task>)
      ensures merged == Merged(left, right)
      ensures multiset(merged) == multiset(left) + multiset(right)
    {
      MergedIsPermutation(left, right);
      merged := [];
      var i, j := 0, 0;
      while i < |left| && j < |right|
        invariant 0 <= i <= |left| && 0 <= j <= |right|
        invariant merged + Merged(left[i..], right[j..]) == Merged(left, right)
        decreases |left| - i + |right| - j
      {
        var l, r := left[i], right[j];
        var lw, rw := Weight(l.priority), Weight(r.priority);
        var takeLeft;
        if lw > rw {
          takeLeft := true;
        } else if lw < rw {
          takeLeft := false;
        } else if l.due.Some? && r.due.Some? {
          takeLeft := l.due.value < r.due.value;
        } else {
          takeLeft := l.due.Some?;
        }
        assert takeLeft == TakesLeft(l, r);
        MergedStep(left, right, i, j);
        if takeLeft {
          AppendAssoc(merged, [l], Merged(left[i + 1..], right[j..]));
          merged, i := merged + [l], i + 1;
        } else {
          AppendAssoc(merged, [r], Merged(left[i..], right[j + 1..]));
          merged, j := merged + [r], j + 1;
        }
      }
      MergedRest(left[i..], right[j..]);
      AppendAssoc(merged, left[i..], right[j..]);
      merged := merged + left[i..] + right[j..];
    }

    /** `get_statistics`: the six count queries in turn, the in-memory fallback when one
        raises. */
    method GetStatistics(session: Option<int>, today: Date) returns (stats: Stats)
      modifies this`db
      ensures Outcome(stats, tasks, db) == StatsSpec(tasks, old(db), session, today)
    {
      if session.None? {
        return NoStats;
      }
      var u := session.value;
      var s1 := CountRows(db, AllTasks, u);
      db := s1.db;
      if s1.reply.Raise? { return StatsFromMemory(tasks, today); }
      var s2 := CountRows(db, WithStatus("Completed"), u);
      db := s2.db;
      if s2.reply.Raise? { return StatsFromMemory(tasks, today); }
      var s3 := CountRows(db, WithStatus("Pending"), u);
      db := s3.db;
      if s3.reply.Raise? { return StatsFromMemory(tasks, today); }
      var s4 := CountRows(db, WithStatus("In Progress"), u);
      db := s4.db;
      if s4.reply.Raise? { return StatsFromMemory(tasks, today); }
      var s5 := CountRows(db, HighPriority, u);
      db := s5.db;
      if s5.reply.Raise? { return StatsFromMemory(tasks, today); }
      var s6 := CountRows(db, OverdueOn(today), u);
      db := s6.db;
      if s6.reply.Raise? { return StatsFromMemory(tasks, today); }
      stats := Stats(Counted(s1.reply), Counted(s2.reply), Counted(s3.reply),
                     Counted(s4.reply), Counted(s5.reply), Counted(s6.reply));
    }

    /** `search_tasks`: the store's matches converted row by row; the keyword loop over
        the cache when the query or a conversion raises. */
    method SearchTasks(session: Option<int>, keyword: string, today: Date, now: Stamp) returns (found: seq<Task>)
      modifies this`db
      ensures Outcome(found, tasks, db) == SearchSpec(tasks, old(db), session, keyword, today, now)
    {
      if session.None? {
        return [];
      }
      var s := SearchRows(db, session.value, keyword);
      db := s.db;
      if s.reply.Answer? {
        var made, complete := ConvertRows(s.reply.value, ReadRow(today, now));
        if complete {
          return made;
        }
      }
      found := MatchTasks(tasks, keyword);
    }
  }
}
