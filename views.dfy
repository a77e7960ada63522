/** The parts of src/task_manager.py that compute a view of the cached tasks without
    changing anything: the priority/due-date order that `_merge` implements, the merge
    sort itself as a specification, `_apply_filters`, `_get_statistics_from_memory` and
    the keyword test of the search fallback. */
module Views {
  import opened Wrappers
  import opened Domain
  import opened Lists
  import opened Models
  import opened Text

  // ---- the order of `_merge` ----

  /** `priority_order.get(priority, 0)`. */
  function Weight(priority: string): (w: nat)
    ensures w <= 3
    ensures w == 0 <==> priority !in Priorities
  {
    if priority == "High" then 3 else if priority == "Medium" then 2 else if priority == "Low" then 1 else 0
  }

  /** The branch `_merge` takes for the heads `l` and `r`: the left task when its priority
      weighs more; on equal weight when both have due dates and the left one is strictly
      earlier, or when only the left one has a due date. Every other case takes the right. */
  predicate TakesLeft(l: Task, r: Task) {
    || Weight(l.priority) > Weight(r.priority)
    || (Weight(l.priority) == Weight(r.priority)
        && ((l.due.Some? && r.due.Some? && l.due.value < r.due.value) || (l.due.Some? && r.due.None?)))
  }

  /** The order the merge sort sorts by: heavier priority first, then dated tasks before
      undated ones, earlier due dates first. It is total and transitive, and ties are
      possible. */
  predicate Precedes(a: Task, b: Task) {
    || Weight(a.priority) > Weight(b.priority)
    || (Weight(a.priority) == Weight(b.priority)
        && (b.due.None? || (a.due.Some? && a.due.value <= b.due.value)))
  }

  /** Whatever `_merge` picks comes first in `Precedes`. */
  lemma TakesLeftRespectsOrder(l: Task, r: Task)
    ensures TakesLeft(l, r) ==> Precedes(l, r)
    ensures !TakesLeft(l, r) ==> Precedes(r, l)
  {
  }

  lemma PrecedesTransitive(a: Task, b: Task, c: Task)
    requires Precedes(a, b) && Precedes(b, c)
    ensures Precedes(a, c)
  {
  }

  predicate Sorted(s: seq<Task>) {
    forall i, j :: 0 <= i < j < |s| ==> Precedes(s[i], s[j])
  }

  predicate Below(h: Task, s: seq<Task>) {
    forall k :: 0 <= k < |s| ==> Precedes(h, s[k])
  }

  lemma SortedCons(h: Task, s: seq<Task>)
    requires Below(h, s) && Sorted(s)
    ensures Sorted([h] + s)
  {
    var t := [h] + s;
    forall i, j | 0 <= i < j < |t| ensures Precedes(t[i], t[j]) {
      if i > 0 { assert t[i] == s[i - 1] && t[j] == s[j - 1]; }
      else { assert t[j] == s[j - 1]; }
    }
  }

  /** `_merge(left, right)`. */
  function Merged(left: seq<Task>, right: seq<Task>): seq<Task>
    decreases |left| + |right|
  {
    if left == [] then right
    else if right == [] then left
    else if TakesLeft(left[0], right[0]) then [left[0]] + Merged(left[1..], right)
    else [right[0]] + Merged(left, right[1..])
  }

  /** One turn of the loop of `_merge`: the head it takes, then the merge of the rest. */
  lemma MergedStep(left: seq<Task>, right: seq<Task>, i: nat, j: nat)
    requires i < |left| && j < |right|
    ensures Merged(left[i..], right[j..])
         == if TakesLeft(left[i], right[j]) then [left[i]] + Merged(left[i + 1..], right[j..])
            else [right[j]] + Merged(left[i..], right[j + 1..])
  {
    assert left[i..][0] == left[i] && left[i..][1..] == left[i + 1..];
    assert right[j..][0] == right[j] && right[j..][1..] == right[j + 1..];
  }

  /** Once one side is used up, `_merge` appends what is left of both. */
  lemma MergedRest(left: seq<Task>, right: seq<Task>)
    requires left == [] || right == []
    ensures Merged(left, right) == left + right
  {
    if left == [] { assert left + right == right; } else { assert left + right == left; }
  }

  /** `_merge_sort(tasks)`: halves split at `len // 2`, each sorted, then merged. */
  function MergeSorted(s: seq<Task>): seq<Task>
    decreases |s|
  {
    if |s| <= 1 then s else Merged(MergeSorted(s[..|s| / 2]), MergeSorted(s[|s| / 2..]))
  }

  /** `_merge` loses and invents no task. */
  lemma {:induction false} MergedIsPermutation(left: seq<Task>, right: seq<Task>)
    ensures multiset(Merged(left, right)) == multiset(left) + multiset(right)
    decreases |left| + |right|
  {
    if left != [] && right != [] {
      if TakesLeft(left[0], right[0]) {
        var rest := Merged(left[1..], right);
        assert Merged(left, right) == [left[0]] + rest;
        MergedIsPermutation(left[1..], right);
        HeadMultiset(left[0], rest);
        HeadMultiset(left[0], left);
      } else {
        var rest := Merged(left, right[1..]);
        assert Merged(left, right) == [right[0]] + rest;
        MergedIsPermutation(left, right[1..]);
        HeadMultiset(right[0], rest);
        HeadMultiset(right[0], right);
      }
    }
  }

  /** Merging two sorted lists gives a sorted list. */
  lemma {:induction false} MergedIsSorted(left: seq<Task>, right: seq<Task>)
    requires Sorted(left) && Sorted(right)
    ensures Sorted(Merged(left, right))
    decreases |left| + |right|
  {
    if left != [] && right != [] {
      var l, r := left[0], right[0];
      if TakesLeft(l, r) {
        var rest := Merged(left[1..], right);
        MergedIsSorted(left[1..], right);
        MergedIsPermutation(left[1..], right);
        forall k | 0 <= k < |rest| ensures Precedes(l, rest[k]) {
          var x := rest[k];
          assert x in multiset(rest);
          if x in left[1..] {
            var m :| 0 <= m < |left[1..]| && left[1..][m] == x;
            assert left[m + 1] == x;
          } else {
            assert x in right;
            var m :| 0 <= m < |right| && right[m] == x;
            TakesLeftRespectsOrder(l, r);
            if m > 0 { PrecedesTransitive(l, r, x); }
          }
        }
        SortedCons(l, rest);
      } else {
        var rest := Merged(left, right[1..]);
        MergedIsSorted(left, right[1..]);
        MergedIsPermutation(left, right[1..]);
        forall k | 0 <= k < |rest| ensures Precedes(r, rest[k]) {
          var x := rest[k];
          assert x in multiset(rest);
          if x in right[1..] {
            var m :| 0 <= m < |right[1..]| && right[1..][m] == x;
            assert right[m + 1] == x;
          } else {
            assert x in left;
            var m :| 0 <= m < |left| && left[m] == x;
            TakesLeftRespectsOrder(l, r);
            if m > 0 { PrecedesTransitive(r, l, x); }
          }
        }
        SortedCons(r, rest);
      }
    }
  }

  /** `_merge_sort` returns a list sorted by `Precedes`. */
  lemma {:induction false} MergeSortSorts(s: seq<Task>)
    ensures Sorted(MergeSorted(s))
    decreases |s|
  {
    if |s| > 1 {
      var mid := |s| / 2;
      MergeSortSorts(s[..mid]);
      MergeSortSorts(s[mid..]);
      MergedIsSorted(MergeSorted(s[..mid]), MergeSorted(s[mid..]));
    }
  }

  /** `_merge_sort` keeps the same tasks, with the same number of copies of each. */
  lemma {:induction false} MergeSortPermutes(s: seq<Task>)
    ensures multiset(MergeSorted(s)) == multiset(s)
    decreases |s|
  {
    if |s| > 1 {
      var mid := |s| / 2;
      var left, right := MergeSorted(s[..mid]), MergeSorted(s[mid..]);
      MergeSortPermutes(s[..mid]);
      MergeSortPermutes(s[mid..]);
      MergedIsPermutation(left, right);
      SplitMultiset(s, mid);
    }
  }

  /** `_merge_sort` returns its input reordered: sorted by `Precedes`, same tasks, same
      number of copies of each. */
  lemma MergeSortSortsAndPermutes(s: seq<Task>)
    ensures Sorted(MergeSorted(s))
    ensures multiset(MergeSorted(s)) == multiset(s)
  {
    MergeSortSorts(s);
    MergeSortPermutes(s);
  }

  /** The merge is not stable: of two tasks that tie (same weight, neither dated) the
      right one is taken first, so sorting a two-task list of ties reverses it. */
  lemma MergeSortSwapsTies(a: Task, b: Task)
    requires Weight(a.priority) == Weight(b.priority) && a.due.None? && b.due.None?
    ensures MergeSorted([a, b]) == [b, a]
  {
    assert [a, b][..1] == [a] && [a, b][1..] == [b];
    assert MergeSorted([a]) == [a] && MergeSorted([b]) == [b];
    assert !TakesLeft(a, b);
    assert Merged([a], [b]) == [b] + Merged([a], []);
  }

  // ---- `_apply_filters` ----

  /** The optional keys of a filter dictionary; `due` is `Some(None)` for a filter on
      "no due date". */
  datatype Filters = Filters(status: Option<string>, priority: Option<string>, due: Option<Option<Date>>)

  const NoFilters := Filters(None, None, None)

  /** `if filters:` of `list_tasks`: a dictionary with at least one key. */
  predicate Present(f: Filters) {
    f.status.Some? || f.priority.Some? || f.due.Some?
  }

  /** What a task needs to satisfy all the filters present. */
  predicate Passes(f: Filters, t: Task) {
    && (f.status.Some? ==> t.status == f.status.value)
    && (f.priority.Some? ==> t.priority == f.priority.value)
    && (f.due.Some? ==> t.due == f.due.value)
  }

  /** `_apply_filters`: the status, priority and due-date comprehensions in turn. */
  function ApplyFilters(tasks: seq<Task>, f: Filters): seq<Task> {
    var a := if f.status.Some? then var s := f.status.value; Filter(tasks, (t: Task) => t.status == s) else tasks;
    var b := if f.priority.Some? then var p := f.priority.value; Filter(a, (t: Task) => t.priority == p) else a;
    if f.due.Some? then var d := f.due.value; Filter(b, (t: Task) => t.due == d) else b
  }

  lemma ApplyFiltersAppend(x: seq<Task>, y: seq<Task>, f: Filters)
    ensures ApplyFilters(x + y, f) == ApplyFilters(x, f) + ApplyFilters(y, f)
  {
    var a1 := if f.status.Some? then var s := f.status.value; Filter(x, (t: Task) => t.status == s) else x;
    var a2 := if f.status.Some? then var s := f.status.value; Filter(y, (t: Task) => t.status == s) else y;
    if f.status.Some? { var s := f.status.value; FilterAppend(x, y, (t: Task) => t.status == s); }
    var b1 := if f.priority.Some? then var p := f.priority.value; Filter(a1, (t: Task) => t.priority == p) else a1;
    var b2 := if f.priority.Some? then var p := f.priority.value; Filter(a2, (t: Task) => t.priority == p) else a2;
    if f.priority.Some? { var p := f.priority.value; FilterAppend(a1, a2, (t: Task) => t.priority == p); }
    if f.due.Some? { var d := f.due.value; FilterAppend(b1, b2, (t: Task) => t.due == d); }
  }

  /** The three passes keep exactly the tasks that satisfy every filter present, each
      once and in their original order. */
  lemma {:induction false} ApplyFiltersIsOnePass(tasks: seq<Task>, f: Filters)
    ensures ApplyFilters(tasks, f) == Filter(tasks, (t: Task) => Passes(f, t))
  {
    if tasks != [] {
      assert tasks == [tasks[0]] + tasks[1..];
      ApplyFiltersAppend([tasks[0]], tasks[1..], f);
      ApplyFiltersIsOnePass(tasks[1..], f);
    }
  }

  /** Without filters nothing is dropped, as `list_tasks` skipping `_apply_filters` says. */
  lemma NoFiltersKeepAll(tasks: seq<Task>)
    ensures ApplyFilters(tasks, NoFilters) == tasks
  {
  }

  // ---- `_get_statistics_from_memory` ----

  datatype Stats = Stats(total: nat, completed: nat, pending: nat, inProgress: nat, highPriority: nat, overdue: nat)

  const NoStats := Stats(0, 0, 0, 0, 0, 0)

  predicate IsCompleted(t: Task) { t.status == "Completed" }
  predicate IsPending(t: Task) { t.status == "Pending" }
  predicate IsInProgress(t: Task) { t.status == "In Progress" }
  predicate IsOpen(t: Task) { t.status != "Completed" }
  predicate IsHighPriority(t: Task) { t.priority == "High" }

  /** Overdue: a due date before `today` on a task that is not completed. */
  predicate IsOverdue(t: Task, today: Date) {
    t.due.Some? && t.due.value < today && t.status != "Completed"
  }

  /** The overdue condition as a filter. */
  function OverdueAsOf(today: Date): Task -> bool {
    (t: Task) => IsOverdue(t, today)
  }

  /** `_get_statistics_from_memory`: the six counts over the cached tasks. */
  function StatsFromMemory(tasks: seq<Task>, today: Date): (s: Stats)
    ensures s.total == |tasks|
    ensures s.completed <= s.total && s.highPriority <= s.total
  {
    Stats(|tasks|, |Filter(tasks, IsCompleted)|, |Filter(tasks, IsPending)|, |Filter(tasks, IsInProgress)|,
          |Filter(tasks, IsHighPriority)|, |Filter(tasks, OverdueAsOf(today))|)
  }

  lemma {:induction false} StatusesPartition(tasks: seq<Task>)
    requires forall k :: 0 <= k < |tasks| ==> tasks[k].status in Statuses
    ensures |Filter(tasks, IsCompleted)| + |Filter(tasks, IsPending)| + |Filter(tasks, IsInProgress)| == |tasks|
  {
    if tasks != [] {
      assert tasks[0].status in Statuses;
      StatusesPartition(tasks[1..]);
    }
  }

  /** When every cached status is one of the three, the status counts add up to the total. */
  lemma StatsAddUp(tasks: seq<Task>, today: Date)
    requires forall k :: 0 <= k < |tasks| ==> tasks[k].status in Statuses
    ensures var s := StatsFromMemory(tasks, today);
      s.completed + s.pending + s.inProgress == s.total
  {
    StatusesPartition(tasks);
  }

  /** Overdue tasks are open tasks, so there are at most as many as tasks not completed. */
  lemma OverdueAreOpen(tasks: seq<Task>, today: Date)
    ensures var s := StatsFromMemory(tasks, today);
      s.overdue <= s.total - s.completed
  {
    FilterMonotone(tasks, OverdueAsOf(today), IsOpen);
    FilterSplits(tasks, IsCompleted, IsOpen);
  }

  /** A task that passed validation today has no past due date, so a cache of such tasks
      has nothing overdue. */
  lemma ValidTasksAreNotOverdue(tasks: seq<Task>, today: Date)
    requires forall k :: 0 <= k < |tasks| ==> ValidTask(tasks[k], today)
    ensures StatsFromMemory(tasks, today).overdue == 0
  {
    FilterKeepsNone(tasks, OverdueAsOf(today));
  }

  // ---- keyword search over the cache ----

  /** Whether a task mentions the keyword, as a filter. */
  function About(keyword: string): Task -> bool {
    (t: Task) => Mentions(t, keyword)
  }

  /** The search fallback and the command line's search: the tasks whose title or
      description holds the keyword, ignoring case, in cache order. */
  function Mentioning(tasks: seq<Task>, keyword: string): (r: seq<Task>)
    ensures forall t :: t in r <==> t in tasks && Mentions(t, keyword)
  {
    Filter(tasks, About(keyword))
  }

  /** The keyword loop of the search fallback and of the command line's `search`: each
      task whose title or description holds the keyword, ignoring case, in order. */
  method MatchTasks(tasks: seq<Task>, keyword: string) returns (matching: seq<Task>)
    ensures matching == Mentioning(tasks, keyword)
  {
    matching := [];
    var i := 0;
    while i < |tasks|
      invariant 0 <= i <= |tasks|
      invariant matching == Mentioning(tasks[..i], keyword)
    {
      var t := tasks[i];
      assert tasks[..i + 1] == tasks[..i] + [t];
      FilterAppend(tasks[..i], [t], About(keyword));
      if Contains(Lower(keyword), Lower(t.title)) || Contains(Lower(keyword), Lower(t.description)) {
        matching := matching + [t];
      }
      i := i + 1;
    }
    assert tasks[..i] == tasks;
  }
}
