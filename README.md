# Task tracker core in Dafny

This project models the core of a command-line task tracker, backed by MySQL. Signed-in
users keep tasks with these fields:

- a title and a description;
- an optional due date;
- a priority: Low, Medium or High;
- a status: Pending, In Progress or Completed.

The model covers:

- **Validators** (`src/utils.py`, module `Utils`): string, priority, status, task-id and
  date validation, plus the two date helpers.
- **The `Task` record** (`src/models.py`, module `Models`):
  - the field checks and the constructor that runs them all;
  - the property setters, which store the value first and then re-check that one field;
  - `to_dict` / `from_dict`.
- **The task manager** (`src/task_manager.py`, modules `Views` and `Tasks`): an in-memory
  cache of the signed-in user's tasks in front of the database.
- **The `list` argument parser and the keyword loop of `search`** (`src/cli.py`, module `Cli`).

Models and proof structure:

- **Python's string operations** used by this code are in module `Text`: `strip`,
  `split()`, `split('=', 1)`, `lower` and the `in` substring test.
- **The `tasks` table** (module `Store`) is a value: a map from task id to row, the
  next auto-increment id, a schedule of faults and a log of the writes sent. Faults come
  in two kinds:
  - a `DriverError` stands for a `pymysql.Error`, which `DatabaseConnection` swallows,
    answering `None` or `[]`;
  - an `OtherError` escapes to the task manager.
- **Each task-manager operation is first a function** from the cache, the store and the
  session to an `Outcome`: the return value, the cache after and the store after.
  - Properties are lemmas about these functions.
  - The class `Tasks.TaskManager` keeps the cache and the store in fields.
  - Each of its methods is proved to change those fields exactly as its function says.
- **Reproduced as written** (the source's actual behaviour, kept on purpose):
  - `_merge` is not stable: on a tie it takes the right-hand task (`Views.MergeSortSwapsTies`).
  - `update_task` assigns into the cached task before the database write. So a rejected
    value stays in the cache (`Tasks.RejectedValueStaysCached`), and so does an accepted one
    when the `UPDATE` then fails and the call returns False
    (`Tasks.StoreFailureKeepsAssignedValue`, `Tasks.FailedCompletionStaysCached`).
  - `_load_tasks` stops at the first row `from_dict` rejects, keeping the tasks made so far
    (`Tasks.LoadKeepsConvertedPrefix`).
  - Swallowed database errors yield `None`/`[]` answers, so the statistics show zeros and
    the search returns nothing (`Tasks.SwallowedErrorsGiveZeroStats`, `Tasks.SearchSpec`).

## Model

| member | source | states |
|---|---|---|
| Utils.HasUnsafeIsSome | src/utils.py:19 | the `[<>{}]` search succeeds exactly when some character of the string is one of the four |
| Utils.ValidateString | src/utils.py:9-22 | accepted exactly when the stripped value is non-empty, within the length limit and free of `<>{}`; the result is the stripped value; an empty value, a too-long value and an unsafe character each fail with their own reason, checked in that order |
| Utils.ValidateStringIdempotent | src/utils.py:9-22 | validating an accepted value again accepts it unchanged |
| Utils.ValidatePriority | src/utils.py:46-51 | accepts exactly Low, Medium and High, returning the input unchanged |
| Utils.ValidateStatus | src/utils.py:54-59 | accepts exactly Pending, In Progress and Completed, returning the input unchanged |
| Utils.ValidateTaskId | src/utils.py:62-70 | accepted exactly when the text is decimal digits with a positive value, which is the result; zero and non-numbers are rejected |
| Utils.TaskIdRoundTrip | src/utils.py:62-70 | the decimal text of a positive number validates back to that number |
| Utils.FirstUsable | src/utils.py:32-39 | the first of the formats whose parse gives a date that is not in the past; no earlier format does |
| Utils.ValidateDate | src/utils.py:25-43 | the empty string gives no date; an error exactly when no format parses to a date that is not in the past; otherwise the date is the one read in the first such format, and it is never before today |
| Utils.ValidateFormattedDate | src/utils.py:25-43 | a future date formatted as `%Y-%m-%d` validates back to itself |
| Utils.FormatDate | src/utils.py:76-80 | "Not set" without a date, the formatter's text otherwise |
| Utils.DaysUntilDue | src/utils.py:83-87 | None exactly without a due date; today plus the result is the due date, negative exactly when it is past |
| Text.StripIsTrim | src/utils.py:14 | `strip()` removes exactly the leading and trailing whitespace and keeps the middle |
| Text.StripIdempotent | src/utils.py:14 | stripping twice is stripping once |
| Text.OccurrenceGivesContains | src/task_manager.py:354-355 | the substring test holds when the keyword occurs at some position |
| Text.ContainsIsOccurs | src/task_manager.py:354-355 | the substring test holds exactly when the keyword occurs at some position |
| Text.SplitLosesOnlySpaces | src/cli.py:230 | `split()` yields non-empty words without whitespace whose concatenation is the input without its whitespace |
| Text.SplitFirst | src/cli.py:232 | `split('=', 1)`: the part before the first `=` holds no `=`, and the parts joined by `=` give back the word |
| Text.DecimalRoundTrip | src/utils.py:65 | reading the decimal text of a number gives the number back |
| Models.TitlePatternIsAll | src/models.py:39-40 | the title pattern matches exactly the non-empty strings of letters, digits, whitespace, `-`, `_`, `.` and `,` |
| Models.CheckTitle | src/models.py:33-40 | passes exactly for a title that is non-blank, at most 255 characters once stripped, and matching the pattern; empty before too long |
| Models.CheckPriority | src/models.py:42-45 | passes exactly for the three priorities |
| Models.CheckStatus | src/models.py:47-50 | passes exactly for the three statuses |
| Models.CheckDue | src/models.py:52-55 | passes exactly when there is no due date or it is not before today |
| Models.Validate | src/models.py:26-31 | passes exactly for a valid task; the first failing check, in the order title, priority, status, due date, gives the reason |
| Models.NewTask | src/models.py:11-24 | the constructor succeeds exactly when the task is valid, and then holds the given fields, with `now` when no timestamp is given |
| Models.ConstructorDefaults | src/models.py:11-21 | with only a valid title: no id, empty description, no due date, Medium, Pending, created now |
| Models.SettersStoreFirst | src/models.py:66-104 | every setter stores the value, whether or not its check then raises |
| Models.SettersPreserveValidity | src/models.py:66-104 | a setter whose check passes keeps a valid task valid; the description setter has no check |
| Models.ToDict | src/models.py:110-120 | the dictionary has exactly the seven keys, each with a value of its field's type |
| Models.FromDict | src/models.py:122-133 | a task it builds is valid, and takes title, status and priority from the dictionary or their defaults |
| Models.DictRoundTrip | src/models.py:110-133 | `from_dict(to_dict(t))` gives back every valid task unchanged |
| Models.FromDictNeedsTitle | src/models.py:127 | a dictionary without a title fails with the empty-title error |
| Lists.Filter | src/task_manager.py:199 | a comprehension keeps exactly the elements that satisfy the condition, never more than it had |
| Lists.FilterAppend | src/task_manager.py:199 | filtering a concatenation is concatenating the filtered parts |
| Lists.FilterFusion | src/task_manager.py:196-205 | two filters in a row are one filter on their conjunction |
| Lists.FilterSplits | src/task_manager.py:310-314 | a condition and its negation split the list's length |
| Store.Owned | src/task_manager.py:27 | the user's rows, each as stored, in descending id order |
| Store.OwnedRecordsComplete | src/task_manager.py:27 | `WHERE user_id = %s` returns exactly the stored rows owned by the user |
| Store.Send | src/database.py:68-78 | each statement consumes one scheduled fault and logs itself if it writes; it does not change the rows |
| Store.FetchOwner | src/task_manager.py:108-112 | some owner exactly when the statement succeeds and the row exists; the escape and swallowed-error cases |
| Store.FetchTask | src/task_manager.py:96 | the record exactly when the statement succeeds and the row exists |
| Store.FetchOwned | src/database.py:80-83 | the user's rows on success, `[]` on a swallowed error, an exception otherwise |
| Store.Tally | src/task_manager.py:286-291 | a count is at most the user's number of rows |
| Store.CountRows | src/task_manager.py:286-291 | the number of the user's rows meeting the condition on success, None on a swallowed error |
| Store.SearchRows | src/task_manager.py:333-340 | the user's rows whose title or description holds the keyword on success, `[]` on a swallowed error |
| Store.InsertRow | src/task_manager.py:58-67 | on success the row is stored under a fresh id; otherwise the rows are unchanged; the insert is logged either way |
| Store.SetColumns | src/task_manager.py:140-142 | the `SET` clause never changes the owner or the creation time |
| Store.UpdateRow | src/task_manager.py:140-144 | only the row with this id and owner changes, and only on success; the key set is kept |
| Store.DeleteRow | src/task_manager.py:169-170 | on success the owned row is removed; nothing else changes |
| Store.AsDict | src/task_manager.py:41 | a row's dictionary is well-typed |
| Store.FromRow | src/task_manager.py:41 | a row makes a task exactly when the task it describes is valid, and then makes that task |
| Store.FromRowIsFromDict | src/models.py:122-133 | converting a row is `from_dict` on the row's dictionary |
| Views.Weight | src/task_manager.py:232-239 | weight 0 exactly for an unknown priority, at most 3 |
| Views.TakesLeftRespectsOrder | src/task_manager.py:241-260 | whichever head `_merge` picks comes first in the priority, then due-date order |
| Views.PrecedesTransitive | src/task_manager.py:241-260 | that order is transitive |
| Views.MergedStep | src/task_manager.py:234-260 | one turn of the merge loop appends the head the branches choose |
| Views.MergedRest | src/task_manager.py:262-263 | once one side is used up, the rest of both sides is appended |
| Views.MergedIsPermutation | src/task_manager.py:227-264 | the merge loses and invents no task |
| Views.MergedIsSorted | src/task_manager.py:227-264 | merging two sorted lists gives a sorted list |
| Views.MergeSortSorts | src/task_manager.py:216-225 | the merge sort's result is sorted |
| Views.MergeSortPermutes | src/task_manager.py:216-225 | the merge sort's result is a permutation of its input |
| Views.MergeSortSortsAndPermutes | src/task_manager.py:209-225 | sorted and a permutation together |
| Views.MergeSortSwapsTies | src/task_manager.py:258-260 | two undated tasks of equal priority come out swapped: the sort is not stable |
| Views.ApplyFiltersAppend | src/task_manager.py:194-207 | filtering distributes over concatenation |
| Views.ApplyFiltersIsOnePass | src/task_manager.py:194-207 | the three comprehensions keep exactly the tasks satisfying every filter present, in order |
| Views.NoFiltersKeepAll | src/task_manager.py:189-190 | with no filter every task is kept |
| Views.StatsFromMemory | src/task_manager.py:306-323 | the total is the number of cached tasks, and the completed and high-priority counts are at most that |
| Views.StatusesPartition | src/task_manager.py:310-312 | over valid statuses, the three status counts partition the tasks |
| Views.StatsAddUp | src/task_manager.py:309-312 | completed plus pending plus in progress is the total |
| Views.OverdueAreOpen | src/task_manager.py:314 | no more overdue tasks than tasks not completed |
| Views.ValidTasksAreNotOverdue | src/task_manager.py:314 | tasks validated today count nothing overdue |
| Views.Mentioning | src/task_manager.py:351-357 | the tasks kept are exactly those whose title or description holds the keyword, ignoring case |
| Views.MatchTasks | src/cli.py:402-407 | the keyword loop appends, in order, exactly the tasks `Mentioning` keeps |
| Tasks.Verify | src/task_manager.py:105-114 | ownership holds exactly when the query succeeds, the row exists and the user owns it |
| Tasks.ReadRowAccepts | src/task_manager.py:41 | `from_dict` accepts a row exactly when it describes a valid task |
| Tasks.Convert | src/task_manager.py:32-42 | the load loop keeps at most one task per row, and it completes exactly when every row converted |
| Tasks.ConvertMeans | src/task_manager.py:32-42 | each kept task is what its row converted to; the first row not kept was rejected |
| Tasks.ConvertUnique | src/task_manager.py:32-42 | a converted prefix that stops at a rejected row is the loop's result |
| Tasks.ConvertAll | src/task_manager.py:32-42 | when every row converts, each task is the one its row describes |
| Tasks.ConvertFilter | src/task_manager.py:340-345 | converting the filtered rows is filtering the converted tasks |
| Tasks.ConvertRows | src/task_manager.py:41-42 | the row-by-row loop computes `Convert` |
| Tasks.FirstWithId | src/task_manager.py:89-90 | the first cached task with the id, or past the end when there is none |
| Tasks.Without | src/task_manager.py:172 | the cache without exactly the tasks of that id |
| Tasks.LoadSpec | src/task_manager.py:18-44 | signed out the cache is emptied; a load never writes to the store |
| Tasks.LoadKeepsConvertedPrefix | src/task_manager.py:25-44 | on success the cache is the longest prefix of the user's rows that make valid tasks; a swallowed error leaves an empty cache, an escaping one the old cache |
| Tasks.LoadCachesOnlyOwnedTasks | src/task_manager.py:25-42 | after a load, every cached task is a valid task stored for this user, exactly as its row |
| Tasks.LoadIsFresh | src/task_manager.py:25-42 | when every row converts, the cache is exactly the user's tasks, newest first |
| Tasks.GetSpec | src/task_manager.py:81-103 | a found task is owned and has the id; the store is never written. On a healthy store, an owned task that is cached is found at its first cached position and the cache stays. An owned task that is not cached is fetched: its row's task is appended and returned when valid, and `from_dict` raises otherwise |
| Tasks.GetFound | src/task_manager.py:89-101 | a found task is the first cached one with the id, or, on a miss, the row's task appended to the cache |
| Tasks.AddSpec | src/task_manager.py:46-79 | succeeds exactly when signed in, the new task is valid and the insert goes through; on failure the cache and rows stay; signed out or with an invalid task no statement is sent |
| Tasks.AddStoresNewRow | src/task_manager.py:53-74 | success stores one Pending row under a fresh id and puts that task, valid, at the front of the cache |
| Tasks.Allowed | src/task_manager.py:133-134 | exactly the updatable keywords, in order |
| Tasks.AssignAll | src/task_manager.py:136-137 | the setters never change the id or creation time; no keywords change nothing |
| Tasks.AssignKeepsValid | src/task_manager.py:137 | one setter that passes keeps a valid task valid |
| Tasks.AssignAllKeepsValid | src/task_manager.py:136-137 | a valid task whose every setter passes stays valid |
| Tasks.AssignMirrorsUpdate | src/task_manager.py:136-144 | the attributes assigned to the cached task are the columns the `UPDATE` sets |
| Tasks.UpdateSpec | src/task_manager.py:116-154 | an update never adds or removes rows and never shrinks the cache; when the ownership check fails, for a missing or foreign task or a failed `SELECT`, it returns False having sent only that `SELECT`, with cache, rows and writes unchanged (what a successful one does is `Tasks.UpdateEffect` and `Tasks.UpdateSucceeded`; a failed final `UPDATE` is `Tasks.StoreFailureKeepsAssignedValue`) |
| Tasks.UpdateEffect | src/task_manager.py:116-150 | on a healthy store, an owned task that is cached or has a valid row, with every setter passing, is updated: the call returns True, the row gets the `SET` columns, one `UPDATE` scoped by id and user is sent when there is anything to set and no write otherwise, and the found task carries the assigned values |
| Tasks.UpdateSucceeded | src/task_manager.py:125-150 | an update that returns True was on an owned task whose setters all passed; the row got the `SET` columns and the found task the assigned values |
| Tasks.UpdateTouchesOnlyOwnedTask | src/task_manager.py:125-147 | only the owned row with the id can change, and success needs ownership |
| Tasks.EmptyUpdateWritesNothing | src/task_manager.py:139-150 | without updatable keywords nothing is written and the cached tasks stay; on a healthy store, for an owned task that is cached or has a valid row, the call returns True |
| Tasks.RejectedValueStaysCached | src/task_manager.py:136-137 | a rejected priority fails the update, leaves the store alone, yet stays in the cached task |
| Tasks.StoreFailureKeepsAssignedValue | src/task_manager.py:136-154 | when the setters pass but the final `UPDATE` is swallowed or raises, the call returns False, the rows are unchanged and the one `UPDATE` is logged, yet the first cached copy keeps the assigned values |
| Tasks.FailedCompletionStaysCached | src/task_manager.py:266-268 | a `mark_completed` whose `UPDATE` fails returns False with the rows unchanged, while the cached task already says Completed |
| Tasks.UpdateKeepsCacheCoherent | src/task_manager.py:129-146 | a successful update leaves the cached task equal to its updated row |
| Tasks.MarkCompletedCompletes | src/task_manager.py:266-268 | after success both the row and a cached task with the id are Completed |
| Tasks.CompleteOnce | src/task_manager.py:266-268 | on a healthy store, completing an owned task that is cached or has a valid row succeeds; the row and the found task say Completed, and one `UPDATE` is sent |
| Tasks.CompleteAgain | src/task_manager.py:266-268 | completing a task whose row and cached copy already say Completed succeeds and changes neither store nor cache |
| Tasks.MarkCompletedTwice | src/task_manager.py:266-268 | completing the same owned task twice succeeds both times; the second call changes neither store nor cache and sends one more `UPDATE` |
| Tasks.DeleteSpec | src/task_manager.py:156-178 | success needs ownership and removes the row and every cached task with the id; failure changes neither; an owned task on a healthy store is deleted |
| Tasks.DeleteForgetsTask | src/task_manager.py:169-174 | after success the id is in neither store nor cache, and every other cached task stays |
| Tasks.ListSpec | src/task_manager.py:180-192 | signed out, nothing; otherwise a sorted permutation of the cached tasks that pass the filters |
| Tasks.StatsSpec | src/task_manager.py:270-304 | statistics never write or change the cache; signed out they are all zero; an escaping error at the first query gives the in-memory statistics |
| Tasks.SwallowedErrorsGiveZeroStats | src/task_manager.py:293-300 | six swallowed query errors give all-zero statistics |
| Tasks.EscapingErrorFallsBack | src/task_manager.py:284-302 | an escaping error at any of the six count queries gives the in-memory statistics of the cache |
| Tasks.ConvertedCount | src/task_manager.py:306-314 | a row condition counts as many rows as the matching task condition counts tasks |
| Tasks.HealthyStats | src/task_manager.py:286-300 | with no faults the statistics are the six database counts |
| Tasks.TallyCounts | src/task_manager.py:286-291 | a database count equals the in-memory count of a fresh cache |
| Tasks.StatusTallies | src/task_manager.py:287-289 | the three status counts of the database equal those of a fresh cache |
| Tasks.OtherTallies | src/task_manager.py:286-291 | the total, high-priority and overdue counts of the database equal those of a fresh cache |
| Tasks.TalliesAreStats | src/task_manager.py:286-323 | the six database counts are the in-memory statistics of a fresh cache |
| Tasks.StatsPathsAgree | src/task_manager.py:270-323 | with a fresh cache and no faults, the database and in-memory statistics agree |
| Tasks.SearchSpec | src/task_manager.py:325-357 | search never writes or changes the cache; signed out, or after a swallowed error, it finds nothing; an escaping error gives the cache's tasks mentioning the keyword; on success the matching rows' tasks, unless a row fails `from_dict`, which again gives the cache search |
| Tasks.SearchAgrees | src/task_manager.py:333-357 | converting the matching rows gives the tasks the fallback keeps |
| Tasks.SearchPathsAgree | src/task_manager.py:325-357 | with a fresh cache and no faults, the query and the in-memory fallback find the same tasks |
| Tasks.SignedOutIsInert | src/task_manager.py:20-23 | signed out, every operation fails without effect, and the load empties the cache |
| Tasks.TaskManager.constructor | src/task_manager.py:11-16 | the new manager holds the store and the cache of a first load |
| Tasks.TaskManager.LoadTasks | src/task_manager.py:18-44 | the cache and store change exactly as `LoadSpec` says |
| Tasks.TaskManager.RefreshTasks | src/task_manager.py:359-361 | a reload, as `LoadSpec` says |
| Tasks.TaskManager.VerifyTaskOwnership | src/task_manager.py:105-114 | the answer and store are as `Verify` says |
| Tasks.TaskManager.GetTask | src/task_manager.py:81-103 | result, cache and store as `GetSpec` says |
| Tasks.TaskManager.AddTask | src/task_manager.py:46-79 | result, cache and store as `AddSpec` says |
| Tasks.TaskManager.UpdateTask | src/task_manager.py:116-154 | result, cache and store as `UpdateSpec` says: False with only the ownership `SELECT` sent when the check fails, and the effect `UpdateEffect` states on success |
| Tasks.TaskManager.SetAttributes | src/task_manager.py:136-137 | the `setattr` loop leaves the cached task as `AssignAll` says and reports its check |
| Tasks.TaskManager.MarkCompleted | src/task_manager.py:266-268 | an update of the status to Completed, as `UpdateSpec` says; on a healthy store, for an owned task that is cached or has a valid row, it returns True and the row says Completed |
| Tasks.TaskManager.DeleteTask | src/task_manager.py:156-178 | result, cache and store as `DeleteSpec` says |
| Tasks.TaskManager.ListTasks | src/task_manager.py:180-192 | the listing `ListSpec` gives: sorted, and a permutation of the filtered cache |
| Tasks.TaskManager.SortTasks | src/task_manager.py:209-214 | the merge sort's result, sorted and a permutation of the input |
| Tasks.TaskManager.MergeSort | src/task_manager.py:216-225 | the recursive halving computes `MergeSorted` |
| Tasks.TaskManager.Merge | src/task_manager.py:227-264 | the loop computes `Merged` and loses no task |
| Tasks.TaskManager.GetStatistics | src/task_manager.py:270-304 | the statistics and store as `StatsSpec` says, so an escaping error gives the in-memory statistics (`EscapingErrorFallsBack`) |
| Tasks.TaskManager.SearchTasks | src/task_manager.py:325-357 | the tasks found and the store as `SearchSpec` says, including the cache search after an escaping error or a row that fails `from_dict` |
| Cli.ParseWord | src/cli.py:230-241 | a word without `=`, or with a key other than `status`, `priority` and `due_date`, changes nothing; otherwise at most one filter changes, and only to a value its validator accepted |
| Cli.ParsedFilters | src/cli.py:223-227 | an empty argument gives no filters |
| Cli.ParsedFiltersAreValidated | src/cli.py:230-241 | every recorded filter value passed its validator |
| Cli.ParseWordsAppend | src/cli.py:230-242 | the parse is one left-to-right pass that stops at the first raising word |
| Cli.RejectedWordEndsParse | src/cli.py:241-244 | a word whose value is rejected ends the parse: later words are ignored and earlier ones kept |
| Cli.StatusWordSetsStatus | src/cli.py:232-237 | a `status=` word, split at its first `=`, sets the status to the stripped value when that is a status, and otherwise raises; nothing else changes |
| Cli.PriorityWordSetsPriority | src/cli.py:232-239 | a `priority=` word sets the priority to the stripped value when that is a priority, and otherwise raises; nothing else changes |
| Cli.DueWordSetsDue | src/cli.py:232-241 | a `due_date=` word sets the due-date filter to what `validate_date` reads from the stripped value, and raises when it rejects it; nothing else changes |
| Cli.OtherKeyIgnored | src/cli.py:232-241 | a word whose key is none of the three changes nothing, whatever its value |
| Cli.TwoWords | src/cli.py:230 | two words parse one after the other |
| Cli.LaterStatusWins | src/cli.py:236-237 | of two accepted `status=` words, the later one decides |
| Cli.ParseWordsStep | src/cli.py:230 | one turn of the loop over the words |
| Cli.RecordWord | src/cli.py:231-241 | the loop body computes `ParseWord`, flagging a raised error |
| Cli.ParseFilters | src/cli.py:223-245 | the loop computes `ParsedFilters`, and every value it keeps passed its validator |

## Left out

- Tasks are values, not shared objects. A `Task` that an earlier `list_tasks` or `get_task` returned does not alias the cached one. Only the cache slot is updated.
- The `threading.Lock` is left out. Every operation is one atomic step.
- All `print` output is left out, and so are the command loop, prompts and display code of `src/cli.py` other than `_parse_filters` and the search loop.
- Authentication is a parameter: the current user id, or None when signed out. `src/auth.py` is not part of this model.
- The connection set-up and logging in `src/database.py`, `src/config.py` and the setup scripts are not part of this model.
- Faults are scheduled in the store value. A faulty statement has no effect on the rows.
- The clock is a parameter. `today` stands for both `date.today()` and `CURDATE()`; `now` stands for both `datetime.now()` and the column default `CURRENT_TIMESTAMP`.
- `strptime` and `strftime` are parameters, as a parser per format and a formatter.
- Dates are day ordinals.
- Timestamps are opaque numbers, so the `fromisoformat` conversion of string timestamps in `_load_tasks` is not modelled.
- `ORDER BY creation_timestamp DESC` is modelled as descending task id. Both follow insertion order.
- SQL `LIKE` with the server collation is modelled as the same case-insensitive substring test the in-memory fallback uses. `%` and `_` inside the keyword are not treated as wildcards.
- Lower-casing covers ASCII letters only.
- `int()` is read as plain decimal digits. Signs, underscores and surrounding whitespace are not accepted.
- A NULL description in a row and non-string values passed to `from_dict` are outside the model.
- Tasks.TaskManager.UpdateTask: requires the updatable keywords to carry values of their field's type. It does not model a setter receiving, say, a number as a title.
- Cli.LaterStatusWins: stated for `status=` words only. The same holds for `priority=` and `due_date=` words and is not stated.
