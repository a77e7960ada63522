/** The two loops of src/cli.py that compute something: `_parse_filters`, which turns
    the argument of the `list` command into the filter dictionary of `list_tasks`, and
    the keyword loop of `do_search` (`Views.MatchTasks`). The rest of the command line
    is prompts and printing. */
module Cli {
  import opened Wrappers
  import opened Domain
  import opened Text
  import opened Utils
  import opened Views

  /** The keys `_parse_filters` records. */
  const Keys: set<string> := {"status", "priority", "due_date"}

  /** One `key=value` word of the argument: None when its validator raises `ValueError`,
      which ends the parse. A word without `=`, or with a key other than `status`,
      `priority` and `due_date`, changes nothing. A key is compared after lower-casing
      and stripping, a value after stripping; only `status=` sets the status, only
      `priority=` the priority, only `due_date=` the due date. */
  function ParseWord(f: Filters, part: string, today: Date, parse: DateParser): (r: Option<Filters>)
    ensures '=' !in part ==> r == Some(f)
    ensures r.Some? ==> r.value.status == f.status || (r.value.priority == f.priority && r.value.due == f.due)
    ensures r.Some? ==> r.value.priority == f.priority || (r.value.status == f.status && r.value.due == f.due)
    ensures r.Some? && r.value.status != f.status ==> r.value.status.Some? && r.value.status.value in Statuses
    ensures r.Some? && r.value.priority != f.priority ==> r.value.priority.Some? && r.value.priority.value in Priorities
    ensures r.Some? && r.value.due != f.due ==> r.value.due.Some? && (r.value.due.value.Some? ==> r.value.due.value.value >= today)
    ensures '=' in part && Strip(Lower(SplitFirst(part, '=').0)) !in Keys ==> r == Some(f)
  {
    if '=' !in part then Some(f)
    else
      var (k, v) := SplitFirst(part, '=');
      var key, value := Strip(Lower(k)), Strip(v);
      if key == "status" then
        match ValidateStatus(value)
        case Err(_) => None
        case Ok(s) => Some(f.(status := Some(s)))
      else if key == "priority" then
        match ValidatePriority(value)
        case Err(_) => None
        case Ok(p) => Some(f.(priority := Some(p)))
      else if key == "due_date" then
        match ValidateDate(value, today, parse)
        case Err(_) => None
        case Ok(d) => Some(f.(due := Some(d)))
      else Some(f)
  }

  /** The loop over the words from `f` on: each word in turn, and the filters so far
      when one raises. */
  function ParseWords(words: seq<string>, f: Filters, today: Date, parse: DateParser): (r: Filters)
    decreases |words|
  {
    if words == [] then f
    else match ParseWord(f, words[0], today, parse)
      case None => f
      case Some(g) => ParseWords(words[1..], g, today, parse)
  }

  /** `_parse_filters(filter_str)`: the argument's whitespace-separated words from an
      empty dictionary. */
  function ParsedFilters(filterStr: string, today: Date, parse: DateParser): (f: Filters)
    ensures filterStr == [] ==> f == NoFilters
  {
    ParseWords(Split(filterStr), NoFilters, today, parse)
  }

  /** A filter dictionary whose every value passed its validator. */
  predicate Validated(f: Filters, today: Date) {
    && (f.status.Some? ==> f.status.value in Statuses)
    && (f.priority.Some? ==> f.priority.value in Priorities)
    && (f.due.Some? && f.due.value.Some? ==> f.due.value.value >= today)
  }

  /** Every value `_parse_filters` records is one its validator accepted. */
  lemma {:induction false} ParsedFiltersAreValidated(words: seq<string>, f: Filters, today: Date, parse: DateParser)
    requires Validated(f, today)
    ensures Validated(ParseWords(words, f, today, parse), today)
    decreases |words|
  {
    if words != [] {
      var r := ParseWord(f, words[0], today, parse);
      if r.Some? { ParsedFiltersAreValidated(words[1..], r.value, today, parse); }
    }
  }

  /** The parse is a left-to-right pass: the words after `a` start from what `a`
      left, unless a word of `a` raised, which ends it. */
  lemma {:induction false} ParseWordsAppend(a: seq<string>, b: seq<string>, f: Filters, today: Date, parse: DateParser)
    ensures ParseWords(a + b, f, today, parse)
         == if Completes(a, f, today, parse) then ParseWords(b, ParseWords(a, f, today, parse), today, parse)
            else ParseWords(a, f, today, parse)
    decreases |a|
  {
    if a == [] {
      assert a + b == b;
    } else {
      assert (a + b)[0] == a[0] && (a + b)[1..] == a[1..] + b;
      var r := ParseWord(f, a[0], today, parse);
      if r.Some? { ParseWordsAppend(a[1..], b, r.value, today, parse); }
    }
  }

  /** No word of `words` raises, from `f` on. */
  predicate Completes(words: seq<string>, f: Filters, today: Date, parse: DateParser)
    decreases |words|
  {
    words == [] ||
    match ParseWord(f, words[0], today, parse)
    case None => false
    case Some(g) => Completes(words[1..], g, today, parse)
  }

  /** A word whose value its validator rejects ends the parse: the words before it
      decide the filters, and the words after it are ignored. */
  lemma RejectedWordEndsParse(a: seq<string>, bad: string, b: seq<string>, f: Filters, today: Date, parse: DateParser)
    requires Completes(a, f, today, parse) && ParseWord(ParseWords(a, f, today, parse), bad, today, parse).None?
    ensures ParseWords(a + [bad] + b, f, today, parse) == ParseWords(a, f, today, parse)
  {
    assert a + [bad] + b == a + ([bad] + b);
    ParseWordsAppend(a, [bad] + b, f, today, parse);
  }

  /** A `status=` word, whatever follows its first `=`: the stripped value becomes the
      status when it is one of the three, and nothing else changes; any other value
      raises. */
  lemma StatusWordSetsStatus(k: string, v: string, f: Filters, today: Date, parse: DateParser)
    requires '=' !in k && Strip(Lower(k)) == "status"
    ensures ParseWord(f, k + "=" + v, today, parse)
         == if Strip(v) in Statuses then Some(f.(status := Some(Strip(v)))) else None
  {
    SplitFirstAt(k, '=', v);
    assert k + "=" + v == k + ['='] + v;
  }

  /** A `priority=` word: the stripped value becomes the priority when it is one of the
      three, and nothing else changes; any other value raises. */
  lemma PriorityWordSetsPriority(k: string, v: string, f: Filters, today: Date, parse: DateParser)
    requires '=' !in k && Strip(Lower(k)) == "priority"
    ensures ParseWord(f, k + "=" + v, today, parse)
         == if Strip(v) in Priorities then Some(f.(priority := Some(Strip(v)))) else None
  {
    SplitFirstAt(k, '=', v);
    assert k + "=" + v == k + ['='] + v;
  }

  /** A `due_date=` word: the date `validate_date` reads from the stripped value (None for
      an empty one) becomes the due-date filter, and nothing else changes; a value it
      rejects raises. */
  lemma DueWordSetsDue(k: string, v: string, f: Filters, today: Date, parse: DateParser)
    requires '=' !in k && Strip(Lower(k)) == "due_date"
    ensures ParseWord(f, k + "=" + v, today, parse)
         == match ValidateDate(Strip(v), today, parse)
            case Err(_) => None
            case Ok(d) => Some(f.(due := Some(d)))
  {
    var w := k + "=" + v;
    SplitFirstAt(k, '=', v);
    assert w == k + ['='] + v;
    assert '=' in w && SplitFirst(w, '=') == (k, v);
  }

  /** A word whose key is none of the three is ignored, whatever its value. */
  lemma OtherKeyIgnored(k: string, v: string, f: Filters, today: Date, parse: DateParser)
    requires '=' !in k && Strip(Lower(k)) !in Keys
    ensures ParseWord(f, k + "=" + v, today, parse) == Some(f)
  {
    SplitFirstAt(k, '=', v);
    assert k + "=" + v == k + ['='] + v;
  }

  /** The parse of two words: the second applies to what the first left. */
  lemma TwoWords(w1: string, w2: string, f: Filters, today: Date, parse: DateParser)
    ensures ParseWords([w1, w2], f, today, parse)
         == match ParseWord(f, w1, today, parse)
            case None => f
            case Some(g) => (match ParseWord(g, w2, today, parse) case None => g case Some(h) => h)
  {
    assert [w1, w2][0] == w1 && [w1, w2][1..] == [w2];
    assert [w2][0] == w2 && [w2][1..] == [];
    var r := ParseWord(f, w1, today, parse);
    if r.Some? {
      assert ParseWords([w1, w2], f, today, parse) == ParseWords([w2], r.value, today, parse);
      var r2 := ParseWord(r.value, w2, today, parse);
      if r2.Some? {
        assert ParseWords([w2], r.value, today, parse) == ParseWords([], r2.value, today, parse);
      }
    }
  }

  /** Of two accepted `status=` words, the later one decides: the second assignment
      overwrites the dictionary entry. */
  lemma LaterStatusWins(k1: string, v1: string, k2: string, v2: string, f: Filters, today: Date, parse: DateParser)
    requires '=' !in k1 && '=' !in k2
    requires Strip(Lower(k1)) == "status" && Strip(Lower(k2)) == "status"
    requires Strip(v1) in Statuses && Strip(v2) in Statuses
    ensures ParseWords([k1 + "=" + v1, k2 + "=" + v2], f, today, parse) == f.(status := Some(Strip(v2)))
  {
    var g := f.(status := Some(Strip(v1)));
    StatusWordSetsStatus(k1, v1, f, today, parse);
    StatusWordSetsStatus(k2, v2, g, today, parse);
    TwoWords(k1 + "=" + v1, k2 + "=" + v2, f, today, parse);
  }

  /** One turn of the loop: the word at `i`, then the rest from what it left. */
  lemma ParseWordsStep(words: seq<string>, i: nat, f: Filters, today: Date, parse: DateParser)
    requires i < |words|
    ensures ParseWords(words[i..], f, today, parse)
         == match ParseWord(f, words[i], today, parse)
            case None => f
            case Some(g) => ParseWords(words[i + 1..], g, today, parse)
  {
    assert words[i..][0] == words[i] && words[i..][1..] == words[i + 1..];
  }

  /** The body of the loop of `_parse_filters` on one word: the dictionary after it,
      or `raised` when its validator raises. */
  method RecordWord(filters: Filters, part: string, today: Date, parse: DateParser)
    returns (next: Filters, raised: bool)
    ensures (if raised then None else Some(next)) == ParseWord(filters, part, today, parse)
  {
    next, raised := filters, false;
    if '=' in part {
      var (k, v) := SplitFirst(part, '=');
      var key, value := Strip(Lower(k)), Strip(v);
      if key == "status" {
        match ValidateStatus(value)
        case Err(_) => raised := true;
        case Ok(s) => next := next.(status := Some(s));
      } else if key == "priority" {
        match ValidatePriority(value)
        case Err(_) => raised := true;
        case Ok(p) => next := next.(priority := Some(p));
      } else if key == "due_date" {
        match ValidateDate(value, today, parse)
        case Err(_) => raised := true;
        case Ok(d) => next := next.(due := Some(d));
      }
    }
  }

  /** The loop of `_parse_filters`: the words in turn, until one raises. */
  method ParseFilters(filterStr: string, today: Date, parse: DateParser) returns (filters: Filters)
    ensures filters == ParsedFilters(filterStr, today, parse)
    ensures Validated(filters, today)
  {
    ParsedFiltersAreValidated(Split(filterStr), NoFilters, today, parse);
    filters := NoFilters;
    if filterStr == [] {
      return;
    }
    var words := Split(filterStr);
    var i := 0;
    var raised := false;
    while i < |words| && !raised
      invariant 0 <= i <= |words|
      invariant ParsedFilters(filterStr, today, parse)
             == if raised then filters else ParseWords(words[i..], filters, today, parse)
      decreases |words| - i, if raised then 0 else 1
    {
      ParseWordsStep(words, i, filters, today, parse);
      var next;
      next, raised := RecordWord(filters, words[i], today, parse);
      if !raised {
        filters, i := next, i + 1;
      }
    }
  }
}
